/** The optional value used for lookups and parses that can fail. */
module Wrappers {

  datatype Option<+T> = None | Some(value: T)
}

/**
 One tape of the k-tape machine: a finite sequence of cells standing for a
 tape that is infinite in both directions, plus the head position on it.
 The physical sequence grows by one blank cell whenever the head walks off
 either end, which is how the simulator emulates infinite tapes.
 */
module Tapes {
  import opened Wrappers

  /** A tape symbol is a string: a one-character string for input cells, or
      whatever a transition writes. */
  type Symbol = string

  const Blank: Symbol := "_"

  /** The three head movements: left, right, stay. */
  datatype Move = L | R | S

  /** The head offset each movement code stands for. */
  function Offset(m: Move): int
  {
    match m
    case L => -1
    case R => 1
    case S => 0
  }

  /** The code a transition record uses for a movement. */
  function Code(m: Move): (c: string)
    ensures ParseMove(c) == Some(m)
  {
    match m
    case L => "L"
    case R => "R"
    case S => "S"
  }

  /** Looks a movement code up in the movement table; a code that is not
      in the table has no movement. */
  function ParseMove(code: string): (r: Option<Move>)
    ensures r.Some? <==> code == "L" || code == "R" || code == "S"
  {
    if code == "L" then Some(L)
    else if code == "R" then Some(R)
    else if code == "S" then Some(S)
    else None
  }

  /** A code that parses is the code of the movement it parses to, so
      parsing and `Code` are inverse to each other. */
  lemma ParseMoveInverse(code: string)
    requires ParseMove(code).Some?
    ensures Code(ParseMove(code).value) == code
  {
  }

  datatype Track = Track(cells: seq<Symbol>, head: int)

  /** The head sits on a physical cell, so reading under it is defined. */
  predicate InBounds(t: Track)
  {
    0 <= t.head < |t.cells|
  }

  function Read(t: Track): Symbol
    requires InBounds(t)
  {
    t.cells[t.head]
  }

  /** 1 when a move prepends a blank cell (a left move from the first cell),
      so every old cell shifts one index to the right; 0 otherwise. */
  function Shift(t: Track, m: Move): nat
  {
    if m == L && t.head == 0 then 1 else 0
  }

  /** Writes `sym` under the head and then moves the head, growing the tape
      by one blank cell at whichever end the head leaves. */
  function WriteMove(t: Track, sym: Symbol, m: Move): (r: Track)
    requires InBounds(t)
    // the head stays on the tape, which never shrinks and grows by at most one cell
    ensures InBounds(r)
    ensures |t.cells| <= |r.cells| <= |t.cells| + 1
    // the head moves by the movement's offset, measured on the old cells
    ensures r.head == t.head + Offset(m) + Shift(t, m)
  {
    var written := t.cells[t.head := sym];
    var h := t.head + Offset(m);
    if h >= |written| then
      Track(written + [Blank], h)
    else if h < 0 then
      Track([Blank] + written, 0)
    else
      Track(written, h)
  }

  /** How a write-and-move changes the cells: the tape grows by one blank
      cell exactly when the head leaves it, at the end the head leaves; the
      written symbol lands under the old head; every other cell keeps its
      symbol, one index further right when a cell was prepended. */
  lemma WriteMoveSpec(t: Track, sym: Symbol, m: Move)
    requires InBounds(t)
    ensures var r := WriteMove(t, sym, m);
            && (|r.cells| == |t.cells| + 1 <==>
                 (m == R && t.head == |t.cells| - 1) || (m == L && t.head == 0))
            // a prepended cell is blank and the head stays on it
            && (m == L && t.head == 0 ==> r.cells[0] == Blank && r.head == 0)
            // an appended cell is blank and the head lands on it
            && (m == R && t.head == |t.cells| - 1 ==>
                 r.cells[|r.cells| - 1] == Blank && r.head == |t.cells|)
            // the symbol lands under the old head; every other cell keeps its symbol
            && (r.cells[t.head + Shift(t, m)] == sym)
            && (forall i :: 0 <= i < |t.cells| && i != t.head ==>
                 r.cells[i + Shift(t, m)] == t.cells[i])
  {
  }

  /** The bidirectionally infinite tape a track stands for, read at logical
      position `p`, when physical index `origin` holds logical position 0:
      every position off the physical cells holds a blank. */
  function LogicalAt(t: Track, origin: int, p: int): Symbol
  {
    if 0 <= p + origin < |t.cells| then t.cells[p + origin] else Blank
  }

  /** The emulation is faithful to an infinite tape: after a write-and-move,
      with the origin shifted along with any prepended cell, the logical tape
      differs from the old one only at the old head's logical position, which
      holds the written symbol, and the logical head has moved by the
      movement's offset. */
  lemma WriteMoveIsInfiniteTape(t: Track, origin: int, sym: Symbol, m: Move)
    requires InBounds(t)
    ensures var r := WriteMove(t, sym, m);
            var origin' := origin + Shift(t, m);
            && r.head - origin' == t.head - origin + Offset(m)
            && LogicalAt(r, origin', t.head - origin) == sym
            && forall p :: p != t.head - origin ==>
                 LogicalAt(r, origin', p) == LogicalAt(t, origin, p)
  {
    var r := WriteMove(t, sym, m);
    var d := Shift(t, m);
    forall p | p != t.head - origin
      ensures LogicalAt(r, origin + d, p) == LogicalAt(t, origin, p)
    {
      var i := p + origin;
      if 0 <= i < |t.cells| {
        assert r.cells[i + d] == t.cells[i];
      } else if d == 1 && i == -1 {
        assert r.cells[0] == Blank;
      } else if d == 0 && i == |t.cells| && |r.cells| == |t.cells| + 1 {
        assert r.cells[|r.cells| - 1] == Blank;
      }
    }
  }
}
