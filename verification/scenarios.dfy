/**
 Small concrete machines, worked through the model: a one-tape machine that
 accepts "ab" in three steps, the same machine missing its final rule, and
 the expansion of a one-tape wildcard rule.
 */
module Scenarios {
  import opened Tapes
  import opened Rules
  import opened Engine
  import opened Simulation
  import opened Registration

  /** The alphabet of input "ab", in one of its iteration orders. */
  const Order: seq<Symbol> := ["a", "b", "*", "_"]

  const R1: RawRule := ["q0", "a", "q0", "a", "R"]
  const R2: RawRule := ["q0", "b", "q1", "b", "R"]
  const R3: RawRule := ["q1", "_", "qaccept", "_", "S"]

  function AbMachine(): Machine
  {
    New("ab", 1, "ab", ["q0", "q1", "qaccept"], "q0", ["qaccept"])
  }

  /** The table of the first two rules. */
  function TwoRules(): (t: Table)
    ensures TableFits(t, 1)
    ensures t.Keys == {Key("q0", ["a"]), Key("q0", ["b"])}
    ensures t[Key("q0", ["a"])] == Entry("q0", ["a"], [R])
    ensures t[Key("q0", ["b"])] == Entry("q1", ["b"], [R])
  {
    assert Wild !in R1 && Wild !in R2;
    assert KeyOf(R1, 1) == Key("q0", ["a"]) && KeyOf(R2, 1) == Key("q0", ["b"]);
    assert EntryOf(R1, 1) == Entry("q0", ["a"], [R]);
    assert EntryOf(R2, 1) == Entry("q1", ["b"], [R]);
    MakeTransition(MakeTransition(map[], R1, 1, Order), R2, 1, Order)
  }

  function C0(): Config { Config([Track(["a", "b"], 0)], "q0") }
  function C1(): Config { Config([Track(["a", "b"], 1)], "q0") }
  function C2(): Config { Config([Track(["a", "b", "_"], 2)], "q1") }
  function C3(): Config { Config([Track(["a", "b", "_"], 2)], "qaccept") }

  /** `Order` lists the alphabet the machine for "ab" is built with. */
  lemma OrderListsAlphabet()
    ensures Enumerates(Order, AbMachine().alphabet)
  {
    var m := AbMachine();
    forall s ensures s in m.alphabet <==> s in Elems(Order) {
      if s in m.alphabet && s != Wild && s != Blank {
        var i :| 0 <= i < 2 && s == ["ab"[i]];
        assert i == 0 || i == 1;
      }
      if s == "a" { assert s == ["ab"[0]]; }
      if s == "b" { assert s == ["ab"[1]]; }
    }
  }

  /** The initial configuration for input "ab", and its accept states. */
  lemma StartsAtC0()
    ensures AbMachine().config == C0()
    ensures AbMachine().accept == ["qaccept"]
  {
    var c0 := AbMachine().config;
    assert c0.tracks[0].cells == ["a", "b"];
  }

  /** Over the `a`: write it back and move right. */
  lemma StepOne(t: Table)
    requires TableFits(t, 1)
    requires Key("q0", ["a"]) in t && t[Key("q0", ["a"])] == Entry("q0", ["a"], [R])
    ensures Step(t, C0(), 1) == Moved(C1())
  {
    assert Reading(C0()) == ["a"];
    var w := WriteMove(Track(["a", "b"], 0), "a", R);
    assert w.cells == ["a", "b"][0 := "a"] == ["a", "b"];
    assert WriteAll(C0().tracks, ["a"], [R]) == [Track(["a", "b"], 1)];
  }

  /** Over the `b`: moving right off the last cell appends a blank. */
  lemma StepTwo(t: Table)
    requires TableFits(t, 1)
    requires Key("q0", ["b"]) in t && t[Key("q0", ["b"])] == Entry("q1", ["b"], [R])
    ensures Step(t, C1(), 1) == Moved(C2())
  {
    assert Reading(C1()) == ["b"];
    var w := WriteMove(Track(["a", "b"], 1), "b", R);
    assert w.cells == ["a", "b"][1 := "b"] + ["_"] == ["a", "b", "_"];
    assert WriteAll(C1().tracks, ["b"], [R]) == [Track(["a", "b", "_"], 2)];
  }

  /** On the blank: write it back, stay, and enter `qaccept`. */
  lemma StepThree(t: Table)
    requires TableFits(t, 1)
    requires Key("q1", ["_"]) in t && t[Key("q1", ["_"])] == Entry("qaccept", ["_"], [S])
    ensures Step(t, C2(), 1) == Moved(C3())
  {
    assert Reading(C2()) == ["_"];
    var w := WriteMove(Track(["a", "b", "_"], 2), "_", S);
    assert w.cells == ["a", "b", "_"][2 := "_"] == ["a", "b", "_"];
    assert WriteAll(C2().tracks, ["_"], [S]) == [Track(["a", "b", "_"], 2)];
  }

  /** The table of all three rules. */
  function ThreeRules(): (t: Table)
    ensures TableFits(t, 1)
    ensures t.Keys == {Key("q0", ["a"]), Key("q0", ["b"]), Key("q1", ["_"])}
    ensures t[Key("q0", ["a"])] == Entry("q0", ["a"], [R])
    ensures t[Key("q0", ["b"])] == Entry("q1", ["b"], [R])
    ensures t[Key("q1", ["_"])] == Entry("qaccept", ["_"], [S])
  {
    assert Wild !in R3;
    assert KeyOf(R3, 1) == Key("q1", ["_"]);
    assert EntryOf(R3, 1) == Entry("qaccept", ["_"], [S]);
    MakeTransition(TwoRules(), R3, 1, Order)
  }

  /** Any table with the three rules accepts "ab" after exactly three
      steps, leaving `a b _` on the tape with the head on the blank. */
  lemma AcceptsAbWith(t: Table)
    requires TableFits(t, 1)
    requires Key("q0", ["a"]) in t && t[Key("q0", ["a"])] == Entry("q0", ["a"], [R])
    requires Key("q0", ["b"]) in t && t[Key("q0", ["b"])] == Entry("q1", ["b"], [R])
    requires Key("q1", ["_"]) in t && t[Key("q1", ["_"])] == Entry("qaccept", ["_"], [S])
    ensures Run(t, ["qaccept"], C0(), 1, 10) == Accepted(C3(), 3)
  {
    StepOne(t);
    StepTwo(t);
    StepThree(t);
    assert Read0(C2()) == "_";
    assert Run(t, ["qaccept"], C2(), 1, 8) == Accepted(C3(), 1);
    assert Read0(C1()) == "b";
    assert Run(t, ["qaccept"], C1(), 1, 9) == Accepted(C3(), 2);
    assert Read0(C0()) == "a";
  }

  /** The machine with the three rules accepts "ab". */
  lemma AcceptsAb()
    ensures Run(ThreeRules(), AbMachine().accept, AbMachine().config, 1, 10) == Accepted(C3(), 3)
  {
    StartsAtC0();
    AcceptsAbWith(ThreeRules());
  }

  /** Any table with the first two rules and none for `q1` reading a blank
      stops after two steps with no transition for that state and reading. */
  lemma MissingRuleStopsWith(t: Table)
    requires TableFits(t, 1)
    requires Key("q0", ["a"]) in t && t[Key("q0", ["a"])] == Entry("q0", ["a"], [R])
    requires Key("q0", ["b"]) in t && t[Key("q0", ["b"])] == Entry("q1", ["b"], [R])
    requires Key("q1", ["_"]) !in t
    ensures Run(t, ["qaccept"], C0(), 1, 10) == NoTransition("q1", ["_"], 2)
  {
    StepOne(t);
    StepTwo(t);
    assert Reading(C2()) == ["_"];
    assert Step(t, C2(), 1) == Stuck("q1", ["_"]);
    assert Run(t, ["qaccept"], C2(), 1, 8) == NoTransition("q1", ["_"], 0);
    assert Read0(C1()) == "b";
    assert Run(t, ["qaccept"], C1(), 1, 9) == NoTransition("q1", ["_"], 1);
    assert Read0(C0()) == "a";
  }

  /** The machine without the rule for the blank stops with no transition. */
  lemma MissingRuleStops()
    ensures Run(TwoRules(), AbMachine().accept, AbMachine().config, 1, 10) == NoTransition("q1", ["_"], 2)
  {
    var t := TwoRules();
    assert Key("q1", ["_"]) !in {Key("q0", ["a"]), Key("q0", ["b"])};
    MissingRuleStopsWith(t);
    StartsAtC0();
  }

  const WildRule: RawRule := ["q", "*", "q2", "*", "R"]

  /** Rewriting `q,*,q2,*,R` over the alphabet skips the wildcard itself. */
  lemma WildRuleRewrites()
    ensures ReplaceWildcards(WildRule, Order)
            == [["q", "a", "q2", "a", "R"], ["q", "b", "q2", "b", "R"], ["q", "_", "q2", "_", "R"]]
  {
    assert Subst(WildRule, "a") == ["q", "a", "q2", "a", "R"];
    assert Subst(WildRule, "b") == ["q", "b", "q2", "b", "R"];
    assert Subst(WildRule, "_") == ["q", "_", "q2", "_", "R"];
  }

  /** The one-tape rule `q,*,q2,*,R` over the alphabet of "ab" registers one
      rule per non-wildcard symbol, the blank included. */
  lemma WildcardRuleExpands()
    ensures MakeTransition(map[], WildRule, 1, Order) == map[
              Key("q", ["a"]) := Entry("q2", ["a"], [R]),
              Key("q", ["b"]) := Entry("q2", ["b"], [R]),
              Key("q", ["_"]) := Entry("q2", ["_"], [R])]
  {
    assert Wild in WildRule;
    WildRuleRewrites();
    RewrittenRegistered();
  }

  /** Registering the three rewritten rules one after another. */
  lemma RewrittenRegistered()
    ensures AllConcrete([["q", "a", "q2", "a", "R"], ["q", "b", "q2", "b", "R"],
                         ["q", "_", "q2", "_", "R"]], 1)
    ensures MakeEach(map[], [["q", "a", "q2", "a", "R"], ["q", "b", "q2", "b", "R"],
                             ["q", "_", "q2", "_", "R"]], 1, Order) == map[
              Key("q", ["a"]) := Entry("q2", ["a"], [R]),
              Key("q", ["b"]) := Entry("q2", ["b"], [R]),
              Key("q", ["_"]) := Entry("q2", ["_"], [R])]
  {
    var t1 := map[Key("q", ["a"]) := Entry("q2", ["a"], [R])];
    RegisterRight(map[], "q", "a", "q2");
    RegisterRemaining(t1);
    RegisterFirst(map[], ["q", "a", "q2", "a", "R"],
                  [["q", "b", "q2", "b", "R"], ["q", "_", "q2", "_", "R"]], 1, Order);
  }

  /** Registering the rules for `b` and for the blank after the one for `a`. */
  lemma RegisterRemaining(t1: Table)
    ensures AllConcrete([["q", "b", "q2", "b", "R"], ["q", "_", "q2", "_", "R"]], 1)
    ensures MakeEach(t1, [["q", "b", "q2", "b", "R"], ["q", "_", "q2", "_", "R"]], 1, Order)
            == t1[Key("q", ["b"]) := Entry("q2", ["b"], [R])][Key("q", ["_"]) := Entry("q2", ["_"], [R])]
  {
    var t2 := t1[Key("q", ["b"]) := Entry("q2", ["b"], [R])];
    RegisterRight(t1, "q", "b", "q2");
    RegisterRight(t2, "q", "_", "q2");
    RegisterFirst(t2, ["q", "_", "q2", "_", "R"], [], 1, Order);
    RegisterFirst(t1, ["q", "b", "q2", "b", "R"], [["q", "_", "q2", "_", "R"]], 1, Order);
  }

  /** Storing a rule that writes back the symbol it reads and moves right. */
  lemma RegisterRight(t: Table, q: State, sym: Symbol, q': State)
    ensures WellFormedRaw([q, sym, q', sym, "R"], 1)
    ensures RegisterConcrete(t, [q, sym, q', sym, "R"], 1) == t[Key(q, [sym]) := Entry(q', [sym], [R])]
  {
    RightMovingRule(q, sym, q');
  }

  /** Registering a list of wildcard-free records starts with the first. */
  lemma RegisterFirst(t: Table, r: RawRule, rs: seq<RawRule>, k: nat, order: seq<Symbol>)
    requires WellFormedRaw(r, k) && Wild !in r && AllConcrete(rs, k)
    ensures AllConcrete([r] + rs, k)
    ensures MakeEach(t, [r] + rs, k, order) == MakeEach(RegisterConcrete(t, r, k), rs, k, order)
  {
    assert forall j :: 1 <= j < |rs| + 1 ==> ([r] + rs)[j] == rs[j - 1];
    assert ([r] + rs)[1..] == rs;
  }

  /** A one-tape rule that writes back the symbol it reads and moves right. */
  lemma RightMovingRule(q: State, sym: Symbol, q': State)
    ensures WellFormedRaw([q, sym, q', sym, "R"], 1)
    ensures KeyOf([q, sym, q', sym, "R"], 1) == Key(q, [sym])
    ensures EntryOf([q, sym, q', sym, "R"], 1) == Entry(q', [sym], [R])
  {
    var raw := [q, sym, q', sym, "R"];
    assert raw[1..2] == [sym] && raw[3..4] == [sym];
  }
}
