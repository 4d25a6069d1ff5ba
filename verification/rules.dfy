/**
 The transition table of the k-tape machine and how raw transition records
 are registered into it, including the expansion of the wildcard field `*`
 into one concrete rule per tape-alphabet symbol.

 A raw record for k tapes is a flat list of 3k+2 fields:
   state, k symbols read, next state, k symbols written, k movement codes.
 */
module Rules {
  import opened Wrappers
  import opened Tapes

  type State = string

  /** A transition record as the loader hands it over: a list of fields. */
  type RawRule = seq<string>

  /** The wildcard field, standing for any tape-alphabet symbol. */
  const Wild: string := "*"

  /** What a step looks up: the current state and the k symbols read. */
  datatype Key = Key(state: State, reading: seq<Symbol>)

  /** What a step does: the next state, k symbols to write, k movements. */
  datatype Entry = Entry(next: State, writing: seq<Symbol>, moves: seq<Move>)

  type Table = map<Key, Entry>

  /** A record the registration can slice without misaligning fields: it has
      exactly 3k+2 fields and its last k fields are movement codes. */
  predicate WellFormedRaw(raw: RawRule, k: nat)
  {
    && k >= 1
    && |raw| == 3 * k + 2
    && forall i :: 2 * k + 2 <= i < |raw| ==> ParseMove(raw[i]).Some?
  }

  /** Every entry writes and moves exactly k tapes. */
  predicate TableFits(table: Table, k: nat)
  {
    forall key :: key in table ==> |table[key].writing| == k && |table[key].moves| == k
  }

  function KeyOf(raw: RawRule, k: nat): Key
    requires |raw| == 3 * k + 2
  {
    Key(raw[0], raw[1..k + 1])
  }

  /** The value a record stores: field k+1 is the next state, the next k
      fields are written symbols and the last k are movement codes. */
  function EntryOf(raw: RawRule, k: nat): (e: Entry)
    requires WellFormedRaw(raw, k)
    ensures e.next == raw[k + 1]
    ensures |e.writing| == k && |e.moves| == k
    ensures forall i :: 0 <= i < k ==> e.writing[i] == raw[k + 2 + i]
    ensures forall i :: 0 <= i < k ==> Code(e.moves[i]) == raw[2 * k + 2 + i]
  {
    var moves := seq(k, i requires 0 <= i < k => ParseMove(raw[2 * k + 2 + i]).value);
    Entry(raw[k + 1], raw[k + 2..2 * k + 2], moves)
  }

  /** Stores a record's key and entry, replacing any entry already stored
      under that key (last write wins). */
  function RegisterConcrete(table: Table, raw: RawRule, k: nat): (r: Table)
    requires WellFormedRaw(raw, k)
    ensures r.Keys == table.Keys + {KeyOf(raw, k)}
    ensures r[KeyOf(raw, k)] == EntryOf(raw, k)
    ensures forall key :: key in table && key != KeyOf(raw, k) ==> r[key] == table[key]
    ensures TableFits(table, k) ==> TableFits(r, k)
  {
    table[KeyOf(raw, k) := EntryOf(raw, k)]
  }

  /** The record with every wildcard field replaced by `c`. */
  function Subst(raw: RawRule, c: string): (r: RawRule)
    ensures |r| == |raw|
    ensures forall i :: 0 <= i < |raw| && raw[i] != Wild ==> r[i] == raw[i]
    ensures forall k :: c != Wild && WellFormedRaw(raw, k) ==> WellFormedRaw(r, k)
  {
    seq(|raw|, i requires 0 <= i < |raw| => if raw[i] == Wild then c else raw[i])
  }

  function Elems(order: seq<Symbol>): set<Symbol>
  {
    set c | c in order
  }

  predicate NoDups<T(==)>(s: seq<T>)
  {
    forall i, j :: 0 <= i < j < |s| ==> s[i] != s[j]
  }

  /** The rewritten records, one per non-wildcard symbol of `order`, in that
      order. `order` is the order in which the simulator iterates its
      alphabet set, which it does not fix. */
  function ReplaceWildcards(raw: RawRule, order: seq<Symbol>): (rs: seq<RawRule>)
    // one rewritten record for each non-wildcard symbol, and nothing else
    ensures forall c :: c in order && c != Wild ==> Subst(raw, c) in rs
    ensures forall r :: r in rs ==> exists c :: c in order && c != Wild && r == Subst(raw, c)
  {
    if |order| == 0 then []
    else
      var rest := ReplaceWildcards(raw, order[1..]);
      if order[0] == Wild then rest else [Subst(raw, order[0])] + rest
  }

  /** Every rewritten record gives each wildcard field one and the same
      symbol, which is not the wildcard, and leaves every other field as it
      was; so no rewritten record contains the wildcard and the expansion is
      one level deep. */
  lemma RewrittenShape(raw: RawRule, order: seq<Symbol>, r: RawRule)
    requires r in ReplaceWildcards(raw, order)
    ensures |r| == |raw| && Wild !in r
    ensures forall i :: 0 <= i < |raw| && raw[i] != Wild ==> r[i] == raw[i]
    ensures exists c :: c in order && c != Wild &&
              forall i :: 0 <= i < |raw| && raw[i] == Wild ==> r[i] == c
  {
    var c :| c in order && c != Wild && r == Subst(raw, c);
    assert forall i :: 0 <= i < |raw| ==> r[i] == (if raw[i] == Wild then c else raw[i]);
  }

  /** Registers a raw record: a record with a wildcard field registers each
      of its rewritten records in turn; any other record is stored as is. */
  function MakeTransition(table: Table, raw: RawRule, k: nat, order: seq<Symbol>): (r: Table)
    requires WellFormedRaw(raw, k)
    ensures TableFits(table, k) ==> TableFits(r, k)
    ensures Wild !in raw ==> r == RegisterConcrete(table, raw, k)
    decreases if Wild in raw then 1 else 0, 0
  {
    if Wild in raw then
      var rs := ReplaceWildcards(raw, order);
      RewrittenWellFormed(raw, k, order);
      assert forall j :: 0 <= j < |rs| ==> rs[j] in rs;
      MakeEach(table, rs, k, order)
    else
      RegisterConcrete(table, raw, k)
  }

  /** Every record is well formed and free of wildcards. */
  predicate AllConcrete(rs: seq<RawRule>, k: nat)
  {
    forall j :: 0 <= j < |rs| ==> WellFormedRaw(rs[j], k) && Wild !in rs[j]
  }

  /** The keys a sequence of wildcard-free records stores under. */
  function KeysOf(rs: seq<RawRule>, k: nat): set<Key>
    requires AllConcrete(rs, k)
  {
    set j | 0 <= j < |rs| :: KeyOf(rs[j], k)
  }

  lemma KeysOfCons(rs: seq<RawRule>, k: nat)
    requires AllConcrete(rs, k) && |rs| > 0
    ensures AllConcrete(rs[1..], k)
    ensures KeysOf(rs, k) == {KeyOf(rs[0], k)} + KeysOf(rs[1..], k)
  {
    var tail := rs[1..];
    forall key | key in KeysOf(rs, k)
      ensures key in {KeyOf(rs[0], k)} + KeysOf(tail, k)
    {
      var j :| 0 <= j < |rs| && KeyOf(rs[j], k) == key;
      if j > 0 {
        assert tail[j - 1] == rs[j];
      }
    }
    forall key | key in KeysOf(tail, k)
      ensures key in KeysOf(rs, k)
    {
      var j :| 0 <= j < |tail| && KeyOf(tail[j], k) == key;
      assert rs[j + 1] == tail[j];
    }
  }

  /** Registers wildcard-free records one after another. */
  function MakeEach(table: Table, rs: seq<RawRule>, k: nat, order: seq<Symbol>): (r: Table)
    requires AllConcrete(rs, k)
    ensures r.Keys == table.Keys + KeysOf(rs, k)
    ensures forall key :: key in table && key !in KeysOf(rs, k) ==> r[key] == table[key]
    ensures TableFits(table, k) ==> TableFits(r, k)
    decreases 0, |rs|
  {
    if |rs| == 0 then table
    else
      KeysOfCons(rs, k);
      MakeEach(MakeTransition(table, rs[0], k, order), rs[1..], k, order)
  }

  /** Rewriting keeps a record well formed: movement fields are never the
      wildcard, so they survive unchanged. */
  lemma RewrittenWellFormed(raw: RawRule, k: nat, order: seq<Symbol>)
    requires WellFormedRaw(raw, k)
    ensures forall r :: r in ReplaceWildcards(raw, order) ==> WellFormedRaw(r, k) && Wild !in r
  {
    forall r | r in ReplaceWildcards(raw, order)
      ensures WellFormedRaw(r, k) && Wild !in r
    {
      RewrittenShape(raw, order, r);
      forall i | 2 * k + 2 <= i < |r|
        ensures ParseMove(r[i]).Some?
      {
        assert raw[i] != Wild;
      }
    }
  }
}
