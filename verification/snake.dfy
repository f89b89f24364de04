/** The snake of src/snake.rs, stored run-length encoded: the head, the
    direction it faces, the length of the straight stretch behind the head,
    and the bends behind that, ordered from the head towards the tail. */
module Snakes {
  import opened Pixels
  import opened Directions

  /** Every snake starts this many cells long. */
  const InitialLength: nat := 4

  /** A stretch of `length` cells, walked in direction `dir` when the body
      is traversed from the head towards the tail. */
  datatype Bend = Bend(length: nat, dir: Direction)

  datatype Snake = Snake(head: Pixel, facing: Direction, toFirstBend: nat, bends: seq<Bend>)

  /** Total length of a list of bends. */
  function SumLengths(bends: seq<Bend>): nat {
    if bends == [] then 0 else bends[0].length + SumLengths(bends[1..])
  }

  /** Number of cells in the body, head included. */
  function Total(s: Snake): nat {
    s.toFirstBend + SumLengths(s.bends)
  }

  /** The state the game keeps between ticks: a non-empty stretch behind the
      head and no empty bend. */
  predicate Settled(s: Snake) {
    && s.toFirstBend >= 1
    && forall i :: 0 <= i < |s.bends| ==> s.bends[i].length >= 1
  }

  /** Precondition of `Advance`: the tail-most bend, if any, is not empty
      (the source decrements its length as an unsigned number). */
  predicate CanAdvance(s: Snake) {
    s.bends != [] ==> s.bends[|s.bends| - 1].length >= 1
  }

  lemma {:induction false} SumAppend(a: seq<Bend>, b: seq<Bend>)
    ensures SumLengths(a + b) == SumLengths(a) + SumLengths(b)
  {
    if a != [] {
      assert (a + b)[1..] == a[1..] + b;
      SumAppend(a[1..], b);
    } else {
      assert a + b == b;
    }
  }

  /** A fresh snake: facing right, one straight stretch of the initial length,
      no bends, and a score of zero. */
  function New(head: Pixel): (s: Snake)
    ensures s.head == head && s.facing == Right && s.bends == []
    ensures Total(s) == InitialLength
    ensures Settled(s)
    ensures Len(s) == 0
  {
    Snake(head, Right, InitialLength, [])
  }

  /** Turning towards `e`. An illegal turn changes nothing; a legal one
      freezes the stretch behind the head into a new front bend, walked
      away from the head, and starts a new empty stretch facing `e`. */
  function Turn(s: Snake, e: Direction): (r: Snake)
    ensures !CanTurn(s.facing, e) ==> r == s
    ensures CanTurn(s.facing, e) ==>
      && r.head == s.head
      && r.facing == e
      && r.toFirstBend == 0
      && r.bends == [Bend(s.toFirstBend, Opposite(s.facing))] + s.bends
    ensures Total(r) == Total(s)
  {
    if !CanTurn(s.facing, e) then s
    else Snake(s.head, e, 0, [Bend(s.toFirstBend, Opposite(s.facing))] + s.bends)
  }

  /** The bends with the tail-most one shortened by a cell, and dropped when
      that leaves it empty. */
  function ShortenBack(bends: seq<Bend>): (r: seq<Bend>)
    requires bends != [] && bends[|bends| - 1].length >= 1
    ensures SumLengths(r) + 1 == SumLengths(bends)
    ensures |bends| - 1 <= |r| <= |bends| && r[..|bends| - 1] == bends[..|bends| - 1]
    ensures bends[|bends| - 1].length == 1 <==> |r| == |bends| - 1
    ensures |r| == |bends| ==> r[|bends| - 1] == Bend(bends[|bends| - 1].length - 1, bends[|bends| - 1].dir)
  {
    var k := |bends| - 1;
    var back := bends[k];
    var rest := if back.length == 1 then [] else [Bend(back.length - 1, back.dir)];
    SumAppend(bends[..k], [back]);
    SumAppend(bends[..k], rest);
    assert bends == bends[..k] + [back];
    bends[..k] + rest
  }

  /** One step forward. With bends, the stretch behind the head gains the
      cell the tail-most bend loses, and that bend is dropped once empty;
      without bends, the straight body simply follows the head. */
  function Advance(s: Snake, size: Pixel): (r: Snake)
    requires CanAdvance(s)
    ensures r.head == NextPixel(s.facing, s.head, size)
    ensures r.facing == s.facing
    ensures s.bends == [] ==> r.toFirstBend == s.toFirstBend && r.bends == []
    ensures s.bends != [] ==>
      && r.toFirstBend == s.toFirstBend + 1
      && |s.bends| - 1 <= |r.bends| <= |s.bends|
      && r.bends[..|s.bends| - 1] == s.bends[..|s.bends| - 1]
      && (s.bends[|s.bends| - 1].length == 1 <==> |r.bends| == |s.bends| - 1)
      && (|r.bends| == |s.bends| ==>
            r.bends[|s.bends| - 1] == Bend(s.bends[|s.bends| - 1].length - 1, s.bends[|s.bends| - 1].dir))
    ensures Total(r) == Total(s)
  {
    var head := NextPixel(s.facing, s.head, size);
    if s.bends == [] then s.(head := head)
    else Snake(head, s.facing, s.toFirstBend + 1, ShortenBack(s.bends))
  }

  /** The bends with the tail-most one lengthened by a cell. */
  function LengthenBack(bends: seq<Bend>): (r: seq<Bend>)
    requires bends != []
    ensures |r| == |bends| && r[..|bends| - 1] == bends[..|bends| - 1]
    ensures r[|bends| - 1] == Bend(bends[|bends| - 1].length + 1, bends[|bends| - 1].dir)
    ensures SumLengths(r) == SumLengths(bends) + 1
  {
    var k := |bends| - 1;
    var back := bends[k];
    SumAppend(bends[..k], [back]);
    SumAppend(bends[..k], [Bend(back.length + 1, back.dir)]);
    assert bends == bends[..k] + [back];
    bends[..k] + [Bend(back.length + 1, back.dir)]
  }

  /** Eating: the body gains one cell at the tail end, by lengthening the
      tail-most bend or, with no bends, the stretch behind the head. Nothing
      else moves. */
  function Grow(s: Snake): (r: Snake)
    ensures r.head == s.head && r.facing == s.facing
    ensures |r.bends| == |s.bends|
    ensures forall i :: 0 <= i < |s.bends| ==> r.bends[i].dir == s.bends[i].dir
    ensures s.bends != [] ==>
      r.toFirstBend == s.toFirstBend && r.bends[..|s.bends| - 1] == s.bends[..|s.bends| - 1]
    ensures Total(r) == Total(s) + 1
  {
    if s.bends == [] then s.(toFirstBend := s.toFirstBend + 1)
    else s.(bends := LengthenBack(s.bends))
  }

  /** The left fold the source uses to add up the bend lengths onto `acc`. */
  function FoldLengths(acc: nat, bends: seq<Bend>): (r: nat)
    ensures r == acc + SumLengths(bends)
    decreases bends
  {
    if bends == [] then acc else FoldLengths(acc + bends[0].length, bends[1..])
  }

  /** The score: cells gained beyond the initial length. The source computes
      it as an unsigned difference, so the body must be at least that long. */
  function Len(s: Snake): (r: nat)
    requires Total(s) >= InitialLength
    ensures r + InitialLength == Total(s)
  {
    FoldLengths(s.toFirstBend, s.bends) - InitialLength
  }

  /** The head cell, which is the first cell of the body's trace. */
  function Head(s: Snake): (p: Pixel)
    ensures forall size :: Total(s) >= 1 ==> p == Trace(s, size)[0]
  {
    s.head
  }

  /** The cells visited by the rasterizing walk: from `cursor`, record the
      cursor and step in direction `d`, `n` times; then continue with the
      next bend's length and direction until no bend is left. */
  function Walk(cursor: Pixel, d: Direction, n: nat, bends: seq<Bend>, size: Pixel): (w: seq<Pixel>)
    ensures |w| == n + SumLengths(bends)
    ensures |w| > 0 ==> w[0] == cursor
    ensures forall i :: 0 < i < |w| ==> Adjacent(w[i - 1], w[i], size)
    ensures InBounds(cursor, size) ==> forall i :: 0 <= i < |w| ==> InBounds(w[i], size)
    decreases |bends|, n
  {
    if n > 0 then
      [cursor] + Walk(NextPixel(d, cursor, size), d, n - 1, bends, size)
    else if bends == [] then
      []
    else
      Walk(cursor, bends[0].dir, bends[0].length, bends[1..], size)
  }

  /** `b` is one step away from `a` in some direction. */
  predicate Adjacent(a: Pixel, b: Pixel, size: Pixel) {
    || b == NextPixel(Left, a, size)
    || b == NextPixel(Down, a, size)
    || b == NextPixel(Up, a, size)
    || b == NextPixel(Right, a, size)
  }

  /** The whole body, head first and tail last. */
  function Trace(s: Snake, size: Pixel): (w: seq<Pixel>)
    ensures |w| == Total(s)
    ensures |w| > 0 ==> w[0] == s.head
  {
    Walk(s.head, Opposite(s.facing), s.toFirstBend, s.bends, size)
  }

  /** The walk `rasterize` performs: every body cell except the head, starting
      one step behind the head. The source subtracts one from the stretch
      behind the head as an unsigned number, so that stretch must be non-empty. */
  function Body(s: Snake, size: Pixel): (w: seq<Pixel>)
    requires s.toFirstBend >= 1
    ensures |w| == Total(s) - 1
    ensures |w| > 0 ==> w[0] == NextPixel(Opposite(s.facing), s.head, size)
    ensures forall i :: 0 < i < |w| ==> Adjacent(w[i - 1], w[i], size)
    ensures InBounds(s.head, size) ==> forall i :: 0 <= i < |w| ==> InBounds(w[i], size)
    ensures Trace(s, size) == [s.head] + w
  {
    var d := Opposite(s.facing);
    Walk(NextPixel(d, s.head, size), d, s.toFirstBend - 1, s.bends, size)
  }

  /** The occupancy raster of every body cell except the head. */
  function Rasterize(s: Snake, size: Pixel): (m: Raster)
    requires s.toFirstBend >= 1
    ensures forall p :: In(p, m) <==> p in Trace(s, size)[1..]
    ensures |Cells(m)| <= Total(s) - 1
    ensures InBounds(s.head, size) ==> forall p :: In(p, m) ==> InBounds(p, size)
  {
    var w := Body(s, size);
    ToRasterCells(w);
    ToRaster(w)
  }
}
