/**
 The k-tape machine itself: its initial configuration, its tape alphabet,
 and one step (read k symbols, look the rule up, write, move, change state).
 */
module Engine {
  import opened Tapes
  import opened Rules

  /** What evolves from step to step: one track per tape and the state. */
  datatype Config = Config(tracks: seq<Track>, state: State)

  /** k tapes, each with its head on a physical cell. */
  predicate WellFormed(c: Config, k: nat)
  {
    && k >= 1
    && |c.tracks| == k
    && forall i :: 0 <= i < k ==> InBounds(c.tracks[i])
  }

  /** The machine as it is constructed: its description, the alphabet the
      wildcard expands over, the (initially empty) table and the initial
      configuration. */
  datatype Machine = Machine(
    name: string,
    k: nat,
    states: set<State>,
    start: State,
    accept: seq<State>,
    alphabet: set<Symbol>,
    table: Table,
    config: Config)

  /** Tape 0 holds the input, one character per cell; every other tape holds
      a single blank; every head is on cell 0. */
  function InitialTracks(k: nat, input: string): seq<Track>
    requires k >= 1
  {
    [Track(seq(|input|, i requires 0 <= i < |input| => [input[i]]), 0)]
    + seq(k - 1, _ => Track([Blank], 0))
  }

  /** The symbols on the given tapes together with the wildcard and the
      blank. */
  function Alphabet(tracks: seq<Track>): set<Symbol>
  {
    (set i, j | 0 <= i < |tracks| && 0 <= j < |tracks[i].cells| :: tracks[i].cells[j])
    + {Wild, Blank}
  }

  /** Builds the machine for `input` with `k` tapes. */
  function New(name: string, k: nat, input: string, states: seq<State>, start: State,
               accept: seq<State>): (m: Machine)
    requires k >= 1
    ensures m.k == k && m.start == start && m.accept == accept && m.table == map[]
    ensures m.states == set q | q in states
    // the initial configuration
    ensures |m.config.tracks| == k && m.config.state == start
    ensures |m.config.tracks[0].cells| == |input|
    ensures forall i :: 0 <= i < |input| ==> m.config.tracks[0].cells[i] == [input[i]]
    ensures forall t :: 1 <= t < k ==> m.config.tracks[t].cells == [Blank]
    ensures forall t :: 0 <= t < k ==> m.config.tracks[t].head == 0
    // a non-empty input gives a configuration a step can read
    ensures WellFormed(m.config, k) <==> |input| > 0
    // the alphabet: the input's characters, the wildcard and the blank
    ensures forall s :: s in m.alphabet <==>
              s == Wild || s == Blank || exists i :: 0 <= i < |input| && s == [input[i]]
  {
    var tracks := InitialTracks(k, input);
    var m := Machine(name, k, (set q | q in states), start, accept, Alphabet(tracks), map[],
                     Config(tracks, start));
    assert forall t :: 1 <= t < k ==> tracks[t] == Track([Blank], 0);
    assert forall s :: s in Alphabet(tracks) ==>
             s == Wild || s == Blank || exists i :: 0 <= i < |input| && s == [input[i]] by {
      forall s | s in Alphabet(tracks) && s != Wild && s != Blank
        ensures exists i :: 0 <= i < |input| && s == [input[i]]
      {
        var t, j :| 0 <= t < |tracks| && 0 <= j < |tracks[t].cells| && tracks[t].cells[j] == s;
        assert t == 0;
        assert s == [input[j]];
      }
    }
    assert forall i :: 0 <= i < |input| ==> [input[i]] in Alphabet(tracks) by {
      forall i | 0 <= i < |input| ensures [input[i]] in Alphabet(tracks) {
        assert tracks[0].cells[i] == [input[i]];
      }
    }
    m
  }

  /** The k symbols under the heads. */
  function Reading(c: Config): (rd: seq<Symbol>)
    requires forall i :: 0 <= i < |c.tracks| ==> InBounds(c.tracks[i])
    ensures |rd| == |c.tracks|
    ensures forall i :: 0 <= i < |c.tracks| ==> rd[i] == Read(c.tracks[i])
  {
    seq(|c.tracks|, i requires 0 <= i < |c.tracks| => Read(c.tracks[i]))
  }

  /** Writes one symbol and makes one move on every tape. */
  function WriteAll(tracks: seq<Track>, writing: seq<Symbol>, moves: seq<Move>): (r: seq<Track>)
    requires |writing| == |tracks| && |moves| == |tracks|
    requires forall i :: 0 <= i < |tracks| ==> InBounds(tracks[i])
    ensures |r| == |tracks|
    ensures forall i :: 0 <= i < |tracks| ==> r[i] == WriteMove(tracks[i], writing[i], moves[i])
  {
    seq(|tracks|, i requires 0 <= i < |tracks| => WriteMove(tracks[i], writing[i], moves[i]))
  }

  /** The outcome of one step: the next configuration, or the state and
      reading for which the table has no rule. */
  datatype StepResult = Moved(next: Config) | Stuck(state: State, reading: seq<Symbol>)

  /** One step of the machine. */
  function Step(table: Table, c: Config, k: nat): (r: StepResult)
    requires WellFormed(c, k) && TableFits(table, k)
    // no rule for the current state and reading: the step is stuck there
    ensures r.Stuck? <==> Key(c.state, Reading(c)) !in table
    ensures r.Stuck? ==> r.state == c.state && r.reading == Reading(c)
    // otherwise the state becomes the rule's next state and heads stay on tape
    ensures r.Moved? ==> WellFormed(r.next, k)
    ensures r.Moved? ==> r.next.state == table[Key(c.state, Reading(c))].next
  {
    var key := Key(c.state, Reading(c));
    if key !in table then
      Stuck(c.state, Reading(c))
    else
      var e := table[key];
      Moved(Config(WriteAll(c.tracks, e.writing, e.moves), e.next))
  }

  /** What a step that found a rule does to the tapes: each tape makes its
      own write-and-move, independently of the others; so every tape grows by
      at most one cell and never shrinks, the rule's symbol lands under the
      old head, and the head moves by the rule's movement. */
  lemma StepTapes(table: Table, c: Config, k: nat)
    requires WellFormed(c, k) && TableFits(table, k)
    requires Step(table, c, k).Moved?
    ensures var r := Step(table, c, k);
            var e := table[Key(c.state, Reading(c))];
            && (forall i :: 0 <= i < k ==>
                  r.next.tracks[i] == WriteMove(c.tracks[i], e.writing[i], e.moves[i]))
            && (forall i :: 0 <= i < k ==>
                  |c.tracks[i].cells| <= |r.next.tracks[i].cells| <= |c.tracks[i].cells| + 1)
            && (forall i :: 0 <= i < k ==>
                  var sh := Shift(c.tracks[i], e.moves[i]);
                  && r.next.tracks[i].cells[c.tracks[i].head + sh] == e.writing[i]
                  && r.next.tracks[i].head == c.tracks[i].head + Offset(e.moves[i]) + sh)
  {
  }
}
