/** Concrete runs of the snake on the grid of size 20 × 20, that is 21 × 21
    cells (columns and rows 0 through 20), and one step on a grid that has
    shrunk below the head. */
module Scenarios {
  import opened Pixels
  import opened Directions
  import opened Snakes

  const Grid: Pixel := Pixel(20, 20)

  /** Three advances of a fresh snake at (5,5): the head reaches (8,5) and
      the rest of the body is the three cells to its left. */
  lemma StraightSlideMoves()
    ensures Advance(Advance(Advance(New(Pixel(5, 5)), Grid), Grid), Grid)
            == Snake(Pixel(8, 5), Right, 4, [])
  {
    RightwardStep(5, 5);
    RightwardStep(6, 5);
    RightwardStep(7, 5);
  }

  /** A straight snake facing right, away from the right edge. */
  lemma RightwardStep(x: nat, y: nat)
    requires x < Grid.x
    ensures Advance(Snake(Pixel(x, y), Right, 4, []), Grid) == Snake(Pixel(x + 1, y), Right, 4, [])
  {
  }

  lemma StraightSlideBody()
    ensures Body(Snake(Pixel(8, 5), Right, 4, []), Grid) == [Pixel(7, 5), Pixel(6, 5), Pixel(5, 5)]
  {
    assert Body(Snake(Pixel(8, 5), Right, 4, []), Grid) == Walk(Pixel(7, 5), Left, 3, [], Grid);
    LeftwardRow(5, 7, 3);
    assert seq(3, i requires 0 <= i < 3 => Pixel(7 - i, 5)) == [Pixel(7, 5), Pixel(6, 5), Pixel(5, 5)];
  }

  /** A leftward straight walk along row `y` from column `x`. */
  lemma {:induction false} LeftwardRow(y: nat, x: nat, n: nat)
    requires n <= x && x <= Grid.x && y <= Grid.y
    ensures Walk(Pixel(x, y), Left, n, [], Grid) == seq(n, i requires 0 <= i < n => Pixel(x - i, y))
    decreases n
  {
    if n > 0 {
      LeftwardRow(y, x - 1, n - 1);
    }
  }

  /** From that state, turning down and advancing moves the head below the old
      head; the old head cell and the two cells to its left make up the rest
      of the body, recorded as one bend of three cells walked leftwards. */
  lemma OneTurn()
    ensures Turn(Snake(Pixel(8, 5), Right, 4, []), Down) == Snake(Pixel(8, 5), Down, 0, [Bend(4, Left)])
    ensures Advance(Snake(Pixel(8, 5), Down, 0, [Bend(4, Left)]), Grid)
            == Snake(Pixel(8, 6), Down, 1, [Bend(3, Left)])
    ensures Body(Snake(Pixel(8, 6), Down, 1, [Bend(3, Left)]), Grid)
            == [Pixel(8, 5), Pixel(7, 5), Pixel(6, 5)]
  {
    var bent := Snake(Pixel(8, 6), Down, 1, [Bend(3, Left)]);
    assert Body(bent, Grid) == Walk(Pixel(8, 5), Left, 3, [], Grid);
    LeftwardRow(5, 8, 3);
    assert seq(3, i requires 0 <= i < 3 => Pixel(8 - i, 5)) == [Pixel(8, 5), Pixel(7, 5), Pixel(6, 5)];
  }

  /** Eating once and advancing: a score of one and four body cells besides
      the head. */
  lemma GrowThenAdvanceMoves()
    ensures Grow(Snake(Pixel(5, 5), Right, 4, [])) == Snake(Pixel(5, 5), Right, 5, [])
    ensures Advance(Snake(Pixel(5, 5), Right, 5, []), Grid) == Snake(Pixel(6, 5), Right, 5, [])
    ensures Len(Snake(Pixel(6, 5), Right, 5, [])) == 1
  {
  }

  lemma GrowThenAdvanceBody()
    ensures Body(Snake(Pixel(6, 5), Right, 5, []), Grid)
            == [Pixel(5, 5), Pixel(4, 5), Pixel(3, 5), Pixel(2, 5)]
  {
    assert Body(Snake(Pixel(6, 5), Right, 5, []), Grid) == Walk(Pixel(5, 5), Left, 4, [], Grid);
    LeftwardRow(5, 5, 4);
    assert seq(4, i requires 0 <= i < 4 => Pixel(5 - i, 5))
           == [Pixel(5, 5), Pixel(4, 5), Pixel(3, 5), Pixel(2, 5)];
  }

  /** Facing right, an attempt to turn left is ignored. */
  lemma ReversalIgnored(head: Pixel)
    ensures Turn(New(head), Left) == New(head)
  {
  }

  /** After the grid shrinks from size 20 to size 10, a head left at column
      20 no longer meets the right edge: stepping right moves it further out
      instead of wrapping to column 0. */
  lemma NoWrapPastShrunkEdge()
    ensures !InBounds(Pixel(20, 5), Pixel(10, 10))
    ensures NextPixel(Right, Pixel(20, 5), Pixel(10, 10)) == Pixel(21, 5)
  {
  }

  /** Stepping right off the right edge re-enters at column 0, and stepping
      left off column 0 re-enters at the right edge. */
  lemma WrapAtEdges()
    ensures NextPixel(Right, Pixel(20, 7), Grid) == Pixel(0, 7)
    ensures NextPixel(Left, Pixel(0, 7), Grid) == Pixel(20, 7)
    ensures NextPixel(Down, Pixel(3, 20), Grid) == Pixel(3, 0)
    ensures NextPixel(Up, Pixel(3, 0), Grid) == Pixel(3, 20)
  {
  }
}
