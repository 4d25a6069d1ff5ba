/**
 The run loop: step while tape 0's head reads a non-blank symbol, take
 exactly one more step, then accept iff the state reached is an accept
 state. The loop need not terminate, so the run is bounded by fuel, one unit
 per step.
 */
module Simulation {
  import opened Wrappers
  import opened Tapes
  import opened Rules
  import opened Engine

  /** How a run ends: the last step reached an accept state or another state;
      a step found no rule; or the fuel ran out first. `steps` counts the
      steps that completed. */
  datatype Verdict =
    | Accepted(final: Config, steps: nat)
    | Rejected(final: Config, steps: nat)
    | NoTransition(state: State, reading: seq<Symbol>, steps: nat)
    | OutOfFuel

  /** The symbol under tape 0's head, which the loop tests. */
  function Read0(c: Config): Symbol
    requires |c.tracks| > 0 && InBounds(c.tracks[0])
  {
    Read(c.tracks[0])
  }

  /** The verdict on the configuration after the last step. */
  function Decide(accept: seq<State>, c: Config, steps: nat): (v: Verdict)
    ensures v.Accepted? <==> c.state in accept
    ensures v.Accepted? || v.Rejected?
    ensures v.final == c && v.steps == steps
  {
    if c.state in accept then Accepted(c, steps) else Rejected(c, steps)
  }

  /** One more completed step in front of a verdict. */
  function Bump(v: Verdict): Verdict
  {
    match v
    case Accepted(c, n) => Accepted(c, n + 1)
    case Rejected(c, n) => Rejected(c, n + 1)
    case NoTransition(q, rd, n) => NoTransition(q, rd, n + 1)
    case OutOfFuel => OutOfFuel
  }

  /** Runs the machine from `c` for at most `fuel` steps. */
  function Run(table: Table, accept: seq<State>, c: Config, k: nat, fuel: nat): (v: Verdict)
    requires WellFormed(c, k) && TableFits(table, k)
    ensures v.Accepted? ==> v.final.state in accept && WellFormed(v.final, k)
    ensures v.Rejected? ==> v.final.state !in accept && WellFormed(v.final, k)
    ensures v.Accepted? || v.Rejected? ==> 1 <= v.steps <= fuel
    ensures v.NoTransition? ==> v.steps < fuel
    decreases fuel
  {
    if fuel == 0 then OutOfFuel
    else
      match Step(table, c, k)
      case Stuck(q, rd) => NoTransition(q, rd, 0)
      case Moved(next) =>
        if Read0(c) != Blank then Bump(Run(table, accept, next, k, fuel - 1))
        else Decide(accept, next, 1)
  }

  /** The configuration after `n` steps from `c`, if no step gets stuck. */
  function Iterate(table: Table, c: Config, k: nat, n: nat): (r: Option<Config>)
    requires WellFormed(c, k) && TableFits(table, k)
    ensures r.Some? ==> WellFormed(r.value, k)
    decreases n
  {
    if n == 0 then Some(c)
    else
      match Step(table, c, k)
      case Stuck(_, _) => None
      case Moved(next) => Iterate(table, next, k, n - 1)
  }

  /** The first `n` steps from `c` all complete, and before each of them
      tape 0's head reads a non-blank symbol: the loop body runs n times. */
  predicate Loops(table: Table, c: Config, k: nat, n: nat)
    requires WellFormed(c, k) && TableFits(table, k)
  {
    && Iterate(table, c, k, n).Some?
    && forall j :: 0 <= j < n ==>
         Iterate(table, c, k, j).Some? && Read0(Iterate(table, c, k, j).value) != Blank
  }

  /** Looping n steps from `c` is one loop step from `c` and n-1 from its
      successor. */
  lemma LoopsUnfold(table: Table, c: Config, k: nat, n: nat)
    requires WellFormed(c, k) && TableFits(table, k) && n > 0
    requires Loops(table, c, k, n)
    ensures Read0(c) != Blank && Step(table, c, k).Moved?
    ensures Loops(table, Step(table, c, k).next, k, n - 1)
  {
    assert Iterate(table, c, k, 0) == Some(c);
    var next := Step(table, c, k).next;
    forall j | 0 <= j < n
      ensures Iterate(table, c, k, j + 1) == Iterate(table, next, k, j)
    {
    }
  }

  /** Looping n+1 steps is looping n steps and then taking one more from a
      configuration that reads non-blank. */
  lemma LoopsFold(table: Table, c: Config, k: nat, n: nat)
    requires WellFormed(c, k) && TableFits(table, k) && Read0(c) != Blank
    requires Step(table, c, k).Moved?
    requires Loops(table, Step(table, c, k).next, k, n)
    ensures Loops(table, c, k, n + 1)
  {
    var next := Step(table, c, k).next;
    forall j | 0 <= j < n + 1
      ensures Iterate(table, c, k, j).Some? && Read0(Iterate(table, c, k, j).value) != Blank
    {
      if j > 0 {
        assert Iterate(table, c, k, j) == Iterate(table, next, k, j - 1);
      }
    }
    assert Iterate(table, c, k, n + 1) == Iterate(table, next, k, n);
  }

  /** Completeness of the run loop against the step-by-step semantics: when
      the loop body runs n times from `c` and the fuel suffices, the run
      ends with the step from the n-th configuration, which is either stuck
      (no transition, after n steps) or, when tape 0 reads blank there, the
      final step whose target state decides acceptance (after n+1 steps). */
  lemma {:induction false} RunComplete(table: Table, accept: seq<State>, c: Config, k: nat,
                                       fuel: nat, n: nat)
    requires WellFormed(c, k) && TableFits(table, k)
    requires Loops(table, c, k, n) && n < fuel
    ensures var cn := Iterate(table, c, k, n).value;
            match Step(table, cn, k)
            case Stuck(q, rd) => Run(table, accept, c, k, fuel) == NoTransition(q, rd, n)
            case Moved(last) =>
              Read0(cn) == Blank ==> Run(table, accept, c, k, fuel) == Decide(accept, last, n + 1)
    decreases n
  {
    if n > 0 {
      LoopsUnfold(table, c, k, n);
      var next := Step(table, c, k).next;
      RunComplete(table, accept, next, k, fuel - 1, n - 1);
      assert Iterate(table, c, k, n) == Iterate(table, next, k, n - 1);
    }
  }

  /** Soundness of the run loop against the step-by-step semantics: every
      verdict is explained by the steps that produced it. */
  lemma {:induction false} RunSound(table: Table, accept: seq<State>, c: Config, k: nat, fuel: nat)
    requires WellFormed(c, k) && TableFits(table, k)
    ensures var v := Run(table, accept, c, k, fuel);
            match v
            case Accepted(last, s) =>
              && Loops(table, c, k, s - 1)
              && Read0(Iterate(table, c, k, s - 1).value) == Blank
              && Step(table, Iterate(table, c, k, s - 1).value, k) == Moved(last)
            case Rejected(last, s) =>
              && Loops(table, c, k, s - 1)
              && Read0(Iterate(table, c, k, s - 1).value) == Blank
              && Step(table, Iterate(table, c, k, s - 1).value, k) == Moved(last)
            case NoTransition(q, rd, s) =>
              && Loops(table, c, k, s)
              && Step(table, Iterate(table, c, k, s).value, k) == Stuck(q, rd)
            case OutOfFuel =>
              Loops(table, c, k, fuel)
    decreases fuel
  {
    if fuel > 0 {
      match Step(table, c, k)
      case Stuck(q, rd) =>
      case Moved(next) =>
        if Read0(c) != Blank {
          RunSound(table, accept, next, k, fuel - 1);
          var v' := Run(table, accept, next, k, fuel - 1);
          match v'
          case Accepted(last, s) =>
            LoopsFold(table, c, k, s - 1);
            assert Iterate(table, c, k, s) == Iterate(table, next, k, s - 1);
          case Rejected(last, s) =>
            LoopsFold(table, c, k, s - 1);
            assert Iterate(table, c, k, s) == Iterate(table, next, k, s - 1);
          case NoTransition(q, rd, s) =>
            LoopsFold(table, c, k, s);
            assert Iterate(table, c, k, s + 1) == Iterate(table, next, k, s);
          case OutOfFuel =>
            LoopsFold(table, c, k, fuel - 1);
        }
    }
  }

  /** More fuel never changes a run that finished. */
  lemma {:induction false} RunFuelMonotone(table: Table, accept: seq<State>, c: Config, k: nat,
                                           fuel: nat, fuel': nat)
    requires WellFormed(c, k) && TableFits(table, k)
    requires fuel <= fuel' && !Run(table, accept, c, k, fuel).OutOfFuel?
    ensures Run(table, accept, c, k, fuel') == Run(table, accept, c, k, fuel)
    decreases fuel
  {
    assert fuel > 0;
    var r := Step(table, c, k);
    if r.Stuck? {
      assert Run(table, accept, c, k, fuel) == NoTransition(r.state, r.reading, 0);
      assert Run(table, accept, c, k, fuel') == NoTransition(r.state, r.reading, 0);
    } else if Read0(c) == Blank {
      assert Run(table, accept, c, k, fuel) == Decide(accept, r.next, 1);
      assert Run(table, accept, c, k, fuel') == Decide(accept, r.next, 1);
    } else {
      assert Run(table, accept, c, k, fuel) == Bump(Run(table, accept, r.next, k, fuel - 1));
      assert Run(table, accept, c, k, fuel') == Bump(Run(table, accept, r.next, k, fuel' - 1));
      var v := Run(table, accept, r.next, k, fuel - 1);
      assert !Bump(v).OutOfFuel?;
      assert !v.OutOfFuel?;
      RunFuelMonotone(table, accept, r.next, k, fuel - 1, fuel' - 1);
    }
  }
}
