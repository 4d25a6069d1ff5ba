/**
 Properties of transition registration: how many rules a wildcard record
 expands to, which entries the table ends up holding, when the order in
 which the tape alphabet is iterated matters, and idempotence.
 */
module Registration {
  import opened Tapes
  import opened Rules
  import opened Engine

  /** `order` lists the tape alphabet, each symbol once. */
  predicate Enumerates(order: seq<Symbol>, alphabet: set<Symbol>)
  {
    NoDups(order) && Elems(order) == alphabet
  }

  /** Some field among the state and the k symbols read is the wildcard. */
  predicate WildInKey(raw: RawRule, k: nat)
  {
    exists i :: 0 <= i <= k && i < |raw| && raw[i] == Wild
  }

  /** Rewriting with different symbols gives different records as soon as
      the record has a wildcard field. */
  lemma SubstInjective(raw: RawRule, c1: string, c2: string)
    requires Wild in raw && c1 != c2
    ensures Subst(raw, c1) != Subst(raw, c2)
  {
    var i :| 0 <= i < |raw| && raw[i] == Wild;
    assert Subst(raw, c1)[i] == c1;
  }

  /** The tail of a duplicate-free sequence is duplicate free and does not
      hold the head. */
  lemma NoDupsTail<T>(s: seq<T>)
    requires NoDups(s) && |s| > 0
    ensures NoDups(s[1..]) && s[0] !in s[1..]
  {
    var tail := s[1..];
    forall i, j | 0 <= i < j < |tail| ensures tail[i] != tail[j] {
      assert tail[i] == s[i + 1] && tail[j] == s[j + 1];
    }
    forall j | 0 <= j < |tail| ensures tail[j] != s[0] {
      assert tail[j] == s[j + 1];
    }
  }

  /** A record yields as many rewritten records as the alphabet has
      non-wildcard symbols. */
  lemma {:induction false} ExpansionCount(raw: RawRule, order: seq<Symbol>)
    requires NoDups(order)
    ensures |ReplaceWildcards(raw, order)| == |Elems(order) - {Wild}|
  {
    if |order| > 0 {
      NoDupsTail(order);
      ExpansionCount(raw, order[1..]);
      SymbolsCons(order);
    }
  }

  /** Over the alphabet a machine is built with, a record is rewritten once
      per symbol other than the wildcard: with the blank, and with every
      input character that is not itself `*`, and with nothing else. */
  lemma AlphabetExpansion(name: string, k: nat, input: string, states: seq<State>, start: State,
                          accept: seq<State>, raw: RawRule, order: seq<Symbol>)
    requires k >= 1
    requires Enumerates(order, New(name, k, input, states, start, accept).alphabet)
    ensures var rs := ReplaceWildcards(raw, order);
            && |rs| == |New(name, k, input, states, start, accept).alphabet - {Wild}|
            && Subst(raw, Blank) in rs
            && (forall i :: 0 <= i < |input| && [input[i]] != Wild ==> Subst(raw, [input[i]]) in rs)
            && (forall r :: r in rs ==>
                  r == Subst(raw, Blank) ||
                  exists i :: 0 <= i < |input| && [input[i]] != Wild && r == Subst(raw, [input[i]]))
  {
    var alphabet := New(name, k, input, states, start, accept).alphabet;
    ExpansionCount(raw, order);
    assert Blank in Elems(order);
    forall i | 0 <= i < |input| && [input[i]] != Wild
      ensures [input[i]] in order
    {
      assert [input[i]] in alphabet;
    }
    var rs := ReplaceWildcards(raw, order);
    forall r | r in rs
      ensures r == Subst(raw, Blank) ||
              exists i :: 0 <= i < |input| && [input[i]] != Wild && r == Subst(raw, [input[i]])
    {
      var c :| c in order && c != Wild && r == Subst(raw, c);
      assert c in alphabet;
      if c != Blank {
        var i :| 0 <= i < |input| && c == [input[i]];
      }
    }
  }

  /** Counting the non-wildcard symbols of a duplicate-free list head first. */
  lemma SymbolsCons(order: seq<Symbol>)
    requires NoDups(order) && |order| > 0
    ensures |Elems(order) - {Wild}| ==
            (if order[0] == Wild then 0 else 1) + |Elems(order[1..]) - {Wild}|
  {
    var tail := order[1..];
    NoDupsTail(order);
    var later := Elems(tail) - {Wild};
    assert Elems(order) == {order[0]} + Elems(tail) by {
      assert order == [order[0]] + tail;
    }
    if order[0] == Wild {
      assert Elems(order) - {Wild} == later;
    } else {
      assert Elems(order) - {Wild} == {order[0]} + later;
    }
  }

  /** The rewritten records of a record with a wildcard are pairwise
      different, so together with `ExpansionCount` there is exactly one per
      non-wildcard symbol. */
  lemma {:induction false} ExpansionDistinct(raw: RawRule, order: seq<Symbol>)
    requires NoDups(order) && Wild in raw
    ensures NoDups(ReplaceWildcards(raw, order))
  {
    if |order| > 0 && order[0] != Wild {
      var tail := order[1..];
      NoDupsTail(order);
      ExpansionDistinct(raw, tail);
      var rest := ReplaceWildcards(raw, tail);
      var rs := ReplaceWildcards(raw, order);
      var first := Subst(raw, order[0]);
      assert rs == [first] + rest;
      assert first !in rest by {
        if first in rest {
          var c :| c in tail && c != Wild && first == Subst(raw, c);
          SubstInjective(raw, order[0], c);
        }
      }
      forall i, j | 0 <= i < j < |rs| ensures rs[i] != rs[j] {
        assert rs[j] == rest[j - 1];
        if i > 0 {
          assert rs[i] == rest[i - 1];
        }
      }
    } else if |order| > 0 {
      NoDupsTail(order);
      ExpansionDistinct(raw, order[1..]);
    }
  }

  /** Registering a sequence of records: the entry under the key of record j
      is record j's entry when every later record with that key has the same
      entry (in particular when j is the last record with that key). */
  lemma {:induction false} MakeEachLastWins(table: Table, rs: seq<RawRule>, k: nat,
                                            order: seq<Symbol>, j: nat)
    requires AllConcrete(rs, k) && j < |rs|
    requires forall j' :: j < j' < |rs| && KeyOf(rs[j'], k) == KeyOf(rs[j], k) ==>
               EntryOf(rs[j'], k) == EntryOf(rs[j], k)
    ensures MakeEach(table, rs, k, order)[KeyOf(rs[j], k)] == EntryOf(rs[j], k)
    decreases |rs|
  {
    KeysOfCons(rs, k);
    var t' := MakeTransition(table, rs[0], k, order);
    var tail := rs[1..];
    var key := KeyOf(rs[j], k);
    if j > 0 {
      assert tail[j - 1] == rs[j];
      forall j' | j - 1 < j' < |tail| && KeyOf(tail[j'], k) == KeyOf(tail[j - 1], k)
        ensures EntryOf(tail[j'], k) == EntryOf(tail[j - 1], k)
      {
        assert tail[j'] == rs[j' + 1];
      }
      MakeEachLastWins(t', tail, k, order, j - 1);
    } else if key in KeysOf(tail, k) {
      var j' :| 0 <= j' < |tail| && KeyOf(tail[j'], k) == key;
      var last := LastWithKey(tail, k, key, j');
      assert tail[last] == rs[last + 1];
      assert EntryOf(tail[last], k) == EntryOf(rs[0], k);
      MakeEachLastWins(t', tail, k, order, last);
    } else {
      assert t'[key] == EntryOf(rs[0], k);
    }
  }

  /** The last index at or after `j` whose record has key `key`. */
  function LastWithKey(rs: seq<RawRule>, k: nat, key: Key, j: nat): (last: nat)
    requires AllConcrete(rs, k) && j < |rs| && KeyOf(rs[j], k) == key
    ensures j <= last < |rs| && KeyOf(rs[last], k) == key
    ensures forall j' :: last < j' < |rs| ==> KeyOf(rs[j'], k) != key
    decreases |rs| - j
  {
    if exists j' :: j < j' < |rs| && KeyOf(rs[j'], k) == key then
      var j' :| j < j' < |rs| && KeyOf(rs[j'], k) == key;
      LastWithKey(rs, k, key, j')
    else
      j
  }

  /** The keys the rewritten records of `raw` store under. */
  function ExpandedKeys(raw: RawRule, k: nat, order: seq<Symbol>): set<Key>
    requires |raw| == 3 * k + 2
  {
    set c | c in order && c != Wild :: KeyOf(Subst(raw, c), k)
  }

  /** Records with the same key agree on the state and read fields. */
  lemma KeyFields(a: RawRule, b: RawRule, k: nat, i: nat)
    requires |a| == |b| == 3 * k + 2 && i <= k
    requires KeyOf(a, k) == KeyOf(b, k)
    ensures a[i] == b[i]
  {
    if i > 0 {
      assert a[1..k + 1][i - 1] == a[i] && b[1..k + 1][i - 1] == b[i];
    }
  }

  lemma RewrittenAllConcrete(raw: RawRule, k: nat, order: seq<Symbol>)
    requires WellFormedRaw(raw, k)
    ensures AllConcrete(ReplaceWildcards(raw, order), k)
  {
    var rs := ReplaceWildcards(raw, order);
    RewrittenWellFormed(raw, k, order);
    assert forall j :: 0 <= j < |rs| ==> rs[j] in rs;
  }

  /** Registering a record with a wildcard among its key fields stores, for
      every non-wildcard symbol c of the alphabet, the rule rewritten with c
      under its own key, and keeps every other entry of the table. */
  lemma WildcardInKey(table: Table, raw: RawRule, k: nat, order: seq<Symbol>)
    requires WellFormedRaw(raw, k) && WildInKey(raw, k)
    ensures var r := MakeTransition(table, raw, k, order);
            && r.Keys == table.Keys + ExpandedKeys(raw, k, order)
            && (forall c :: c in order && c != Wild ==>
                  r[KeyOf(Subst(raw, c), k)] == EntryOf(Subst(raw, c), k))
            && (forall key :: key in table && key !in ExpandedKeys(raw, k, order) ==>
                  r[key] == table[key])
  {
    var rs := ReplaceWildcards(raw, order);
    RewrittenAllConcrete(raw, k, order);
    var r := MakeEach(table, rs, k, order);
    assert r == MakeTransition(table, raw, k, order);
    var i :| 0 <= i <= k && i < |raw| && raw[i] == Wild;
    assert KeysOf(rs, k) == ExpandedKeys(raw, k, order) by {
      forall key | key in KeysOf(rs, k) ensures key in ExpandedKeys(raw, k, order) {
        var j :| 0 <= j < |rs| && KeyOf(rs[j], k) == key;
        assert rs[j] in rs;
      }
      forall key | key in ExpandedKeys(raw, k, order) ensures key in KeysOf(rs, k) {
        var c :| c in order && c != Wild && key == KeyOf(Subst(raw, c), k);
        var j :| 0 <= j < |rs| && rs[j] == Subst(raw, c);
      }
    }
    forall c | c in order && c != Wild
      ensures r[KeyOf(Subst(raw, c), k)] == EntryOf(Subst(raw, c), k)
    {
      var j :| 0 <= j < |rs| && rs[j] == Subst(raw, c);
      forall j' | j < j' < |rs| && KeyOf(rs[j'], k) == KeyOf(rs[j], k)
        ensures EntryOf(rs[j'], k) == EntryOf(rs[j], k)
      {
        assert rs[j'] in rs;
        var c' :| c' in order && c' != Wild && rs[j'] == Subst(raw, c');
        KeyFields(rs[j'], rs[j], k, i);
      }
      MakeEachLastWins(table, rs, k, order, j);
    }
  }

  /** With a wildcard among the key fields the rewritten keys are pairwise
      different, so the order in which the alphabet is iterated does not
      change the resulting table. */
  lemma OrderIrrelevant(table: Table, raw: RawRule, k: nat, o1: seq<Symbol>, o2: seq<Symbol>)
    requires WellFormedRaw(raw, k) && WildInKey(raw, k)
    requires Elems(o1) == Elems(o2)
    ensures MakeTransition(table, raw, k, o1) == MakeTransition(table, raw, k, o2)
  {
    WildcardInKey(table, raw, k, o1);
    WildcardInKey(table, raw, k, o2);
    var r1 := MakeTransition(table, raw, k, o1);
    var r2 := MakeTransition(table, raw, k, o2);
    assert ExpandedKeys(raw, k, o1) == ExpandedKeys(raw, k, o2) by {
      assert forall c :: c in o1 <==> c in Elems(o1);
      assert forall c :: c in o2 <==> c in Elems(o2);
    }
    forall key | key in r1 ensures r2[key] == r1[key] {
      if key in ExpandedKeys(raw, k, o1) {
        var c :| c in o1 && c != Wild && key == KeyOf(Subst(raw, c), k);
        assert c in Elems(o2);
      }
    }
  }

  /** With the wildcard only among the value fields, every rewritten record
      has the record's own key: the table gains that one key, and the entry
      it ends up holding is the rule rewritten with some non-wildcard symbol
      of the alphabet (the last one iterated). */
  lemma WildOnlyInValue(table: Table, raw: RawRule, k: nat, order: seq<Symbol>)
    requires WellFormedRaw(raw, k) && Wild in raw && !WildInKey(raw, k)
    requires exists c :: c in order && c != Wild
    ensures var r := MakeTransition(table, raw, k, order);
            && r.Keys == table.Keys + {KeyOf(raw, k)}
            && (exists c :: c in order && c != Wild && r[KeyOf(raw, k)] == EntryOf(Subst(raw, c), k))
            && (forall key :: key in table && key != KeyOf(raw, k) ==> r[key] == table[key])
  {
    var rs := ReplaceWildcards(raw, order);
    RewrittenAllConcrete(raw, k, order);
    var r := MakeEach(table, rs, k, order);
    assert r == MakeTransition(table, raw, k, order);
    forall j | 0 <= j < |rs| ensures KeyOf(rs[j], k) == KeyOf(raw, k) {
      assert rs[j] in rs;
      assert rs[j][..k + 1] == raw[..k + 1];
    }
    var c0 :| c0 in order && c0 != Wild;
    assert Subst(raw, c0) in rs;
    assert KeysOf(rs, k) == {KeyOf(raw, k)};
    var last := |rs| - 1;
    MakeEachLastWins(table, rs, k, order, last);
    assert rs[last] in rs;
    var c :| c in order && c != Wild && rs[last] == Subst(raw, c);
  }

  /** Registering records one after another overrides the starting table
      with what the same registrations build from an empty table. */
  lemma {:induction false} MakeEachOverride(table: Table, rs: seq<RawRule>, k: nat, order: seq<Symbol>)
    requires AllConcrete(rs, k)
    ensures MakeEach(table, rs, k, order) == table + MakeEach(map[], rs, k, order)
    decreases |rs|
  {
    if |rs| > 0 {
      KeysOfCons(rs, k);
      var key := KeyOf(rs[0], k);
      var entry := EntryOf(rs[0], k);
      var t1 := MakeTransition(table, rs[0], k, order);
      var e1 := MakeTransition(map[], rs[0], k, order);
      assert t1 == table[key := entry];
      assert e1 == map[key := entry];
      MakeEachOverride(t1, rs[1..], k, order);
      MakeEachOverride(e1, rs[1..], k, order);
      UpdateThenUnion(table, key, entry, MakeEach(map[], rs[1..], k, order));
    }
  }

  lemma UpdateThenUnion<K, V>(m: map<K, V>, key: K, v: V, n: map<K, V>)
    ensures m[key := v] + n == m + (map[key := v] + n)
  {
  }

  /** Registering the same record twice leaves the table as registering it
      once. */
  lemma MakeTransitionIdempotent(table: Table, raw: RawRule, k: nat, order: seq<Symbol>)
    requires WellFormedRaw(raw, k)
    ensures var once := MakeTransition(table, raw, k, order);
            MakeTransition(once, raw, k, order) == once
  {
    if Wild in raw {
      var rs := ReplaceWildcards(raw, order);
      RewrittenAllConcrete(raw, k, order);
      var built := MakeEach(map[], rs, k, order);
      MakeEachOverride(table, rs, k, order);
      MakeEachOverride(table + built, rs, k, order);
      assert (table + built) + built == table + built;
    }
  }
}
