/** How turning, advancing and growing act on the cells the body covers,
    and which invariants of the run-length form they keep. */
module SnakeLemmas {
  import opened Pixels
  import opened Directions
  import opened Snakes

  /** A straight walk one cell shorter is the longer walk without its last cell. */
  lemma {:induction false} StraightWalkPrefix(c: Pixel, d: Direction, n: nat, size: Pixel)
    ensures Walk(c, d, n, [], size) == Walk(c, d, n + 1, [], size)[..n]
    decreases n
  {
    if n > 0 {
      StraightWalkPrefix(NextPixel(d, c, size), d, n - 1, size);
    }
  }

  /** Lengthening the tail-most bend adds exactly one cell at the end of the walk. */
  lemma {:induction false} LongerBackBendWalk(c: Pixel, d: Direction, n: nat, bends: seq<Bend>, size: Pixel)
    requires bends != []
    ensures Walk(c, d, n, bends, size)
            == Walk(c, d, n, LengthenBack(bends), size)[..n + SumLengths(bends)]
    decreases |bends|, n
  {
    var longer := LengthenBack(bends);
    if n > 0 {
      var next := NextPixel(d, c, size);
      LongerBackBendWalk(next, d, n - 1, bends, size);
      var tail := Walk(next, d, n - 1, longer, size);
      assert Walk(c, d, n, longer, size) == [c] + tail;
      assert ([c] + tail)[..n + SumLengths(bends)] == [c] + tail[..n - 1 + SumLengths(bends)];
    } else if |bends| == 1 {
      assert longer == [Bend(bends[0].length + 1, bends[0].dir)];
      StraightWalkPrefix(c, bends[0].dir, bends[0].length, size);
    } else {
      LengthenBackOfTail(bends);
      LongerBackBendWalk(c, bends[0].dir, bends[0].length, bends[1..], size);
    }
  }

  lemma LengthenBackOfTail(bends: seq<Bend>)
    requires |bends| > 1
    ensures LengthenBack(bends)[0] == bends[0]
    ensures LengthenBack(bends)[1..] == LengthenBack(bends[1..])
  {
  }

  /** An empty bend at the tail end contributes no cells. */
  lemma {:induction false} EmptyBackBendWalk(c: Pixel, d: Direction, n: nat, bends: seq<Bend>, e: Direction, size: Pixel)
    ensures Walk(c, d, n, bends + [Bend(0, e)], size) == Walk(c, d, n, bends, size)
    decreases |bends|, n
  {
    if n > 0 {
      EmptyBackBendWalk(NextPixel(d, c, size), d, n - 1, bends, e, size);
    } else if bends != [] {
      assert (bends + [Bend(0, e)])[1..] == bends[1..] + [Bend(0, e)];
      EmptyBackBendWalk(c, bends[0].dir, bends[0].length, bends[1..], e, size);
    }
  }

  /** A legal or illegal turn leaves the covered cells as they were: the new
      front bend is walked exactly where the old stretch behind the head was. */
  lemma TurnKeepsTrace(s: Snake, e: Direction, size: Pixel)
    ensures Trace(Turn(s, e), size) == Trace(s, size)
  {
  }

  /** Growing keeps every cell and appends one new cell at the tail. */
  lemma GrowExtendsTrace(s: Snake, size: Pixel)
    ensures |Trace(Grow(s), size)| == |Trace(s, size)| + 1
    ensures Trace(Grow(s), size)[..Total(s)] == Trace(s, size)
  {
    var d := Opposite(s.facing);
    if s.bends == [] {
      StraightWalkPrefix(s.head, d, s.toFirstBend, size);
    } else {
      LongerBackBendWalk(s.head, d, s.toFirstBend, s.bends, size);
    }
  }

  /** Shortening the tail-most bend removes exactly the last cell of the walk. */
  lemma ShorterBackBendWalk(c: Pixel, d: Direction, n: nat, bends: seq<Bend>, size: Pixel)
    requires bends != [] && bends[|bends| - 1].length >= 1
    ensures Walk(c, d, n, ShortenBack(bends), size)
            == Walk(c, d, n, bends, size)[..n + SumLengths(bends) - 1]
  {
    var k := |bends| - 1;
    if bends[k].length == 1 {
      DroppedBackBendWalk(c, d, n, bends, size);
    } else {
      assert LengthenBack(ShortenBack(bends)) == bends;
      LongerBackBendWalk(c, d, n, ShortenBack(bends), size);
    }
  }

  /** Dropping a one-cell tail-most bend removes the last cell of the walk. */
  lemma DroppedBackBendWalk(c: Pixel, d: Direction, n: nat, bends: seq<Bend>, size: Pixel)
    requires bends != [] && bends[|bends| - 1].length == 1
    ensures ShortenBack(bends) == bends[..|bends| - 1]
    ensures Walk(c, d, n, ShortenBack(bends), size)
            == Walk(c, d, n, bends, size)[..n + SumLengths(bends) - 1]
  {
    var k := |bends| - 1;
    var padded := bends[..k] + [Bend(0, bends[k].dir)];
    EmptyBackBendWalk(c, d, n, bends[..k], bends[k].dir, size);
    assert LengthenBack(padded) == bends;
    LongerBackBendWalk(c, d, n, padded, size);
  }

  /** Advancing slides the body by one cell: the new head is prepended and the
      old tail cell drops off. */
  lemma AdvanceSlidesTrace(s: Snake, size: Pixel)
    requires CanAdvance(s) && Total(s) >= 1
    requires InBounds(s.head, size)
    ensures Trace(Advance(s, size), size)
            == [NextPixel(s.facing, s.head, size)] + Trace(s, size)[..Total(s) - 1]
  {
    var r := Advance(s, size);
    var d := Opposite(s.facing);
    StepBack(s.facing, s.head, size);
    assert NextPixel(d, r.head, size) == s.head;
    assert r.toFirstBend >= 1;
    assert Trace(r, size) == [r.head] + Walk(s.head, d, r.toFirstBend - 1, r.bends, size);
    if s.bends == [] {
      StraightWalkPrefix(s.head, d, s.toFirstBend - 1, size);
    } else {
      ShorterBackBendWalk(s.head, d, s.toFirstBend, s.bends, size);
    }
  }

  /** A settled snake may advance, and stays settled. */
  lemma AdvanceKeepsSettled(s: Snake, size: Pixel)
    requires Settled(s)
    ensures CanAdvance(s) && Settled(Advance(s, size))
  {
  }

  /** The driver's turn-then-advance step takes a settled snake to a settled
      snake: the empty stretch a legal turn leaves behind the head is filled
      by the advance that follows it. */
  lemma TurnAdvanceKeepsSettled(s: Snake, e: Direction, size: Pixel)
    requires Settled(s)
    ensures CanAdvance(Turn(s, e)) && Settled(Advance(Turn(s, e), size))
  {
  }

  /** Growing keeps a settled snake settled. */
  lemma GrowKeepsSettled(s: Snake)
    requires Settled(s)
    ensures Settled(Grow(s))
  {
  }

  /** Two legal turns without an advance in between leave an empty bend
      behind, which the next rasterization would skip and the next advance
      would have to decrement once it reaches the tail. */
  lemma TwoTurnsLeaveEmptyBend(s: Snake, e: Direction, f: Direction)
    requires CanTurn(s.facing, e) && CanTurn(e, f)
    ensures Turn(Turn(s, e), f).bends[0] == Bend(0, Opposite(e))
    ensures !Settled(Turn(Turn(s, e), f))
  {
  }
}
