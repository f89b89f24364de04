/** The four compass directions of src/direction.rs: reversal, turn
    legality, and the one-cell step on the wrap-around grid. */
module Directions {
  import opened Pixels

  datatype Direction = Left | Down | Up | Right

  const AllDirections: set<Direction> := {Left, Down, Up, Right}

  /** Left and Right move along a row; Up and Down move along a column. */
  predicate Horizontal(d: Direction) {
    d == Left || d == Right
  }

  /** Signed change of the column under one step in direction `d`. */
  function DeltaX(d: Direction): int {
    match d
    case Left => -1
    case Right => 1
    case _ => 0
  }

  /** Signed change of the row under one step; rows grow downwards. */
  function DeltaY(d: Direction): int {
    match d
    case Up => -1
    case Down => 1
    case _ => 0
  }

  /** The reverse direction: the other direction on the same axis. */
  function Opposite(d: Direction): (r: Direction)
    ensures r != d
    ensures Horizontal(r) == Horizontal(d)
    ensures DeltaX(r) == -DeltaX(d) && DeltaY(r) == -DeltaY(d)
  {
    match d
    case Left => Right
    case Down => Up
    case Up => Down
    case Right => Left
  }

  lemma OppositeInvolution(d: Direction)
    ensures Opposite(Opposite(d)) == d
  {
  }

  /** A turn is legal exactly when it changes the axis of motion: neither
      keeping the direction nor reversing it is allowed. */
  function CanTurn(d: Direction, other: Direction): (r: bool)
    ensures r <==> Horizontal(d) != Horizontal(other)
  {
    other != d && other != Opposite(d)
  }

  /** Each direction has exactly two legal turns: the two perpendicular ones. */
  lemma ExactlyTwoLegalTurns(d: Direction)
    ensures (set e | e in AllDirections && CanTurn(d, e))
            == (if Horizontal(d) then {Up, Down} else {Left, Right})
    ensures |set e | e in AllDirections && CanTurn(d, e)| == 2
  {
  }

  /** One step in direction `d`. Leaving the grid at one edge re-enters it at
      the opposite edge (the grid is a torus); otherwise the coordinate on the
      axis of motion moves by one and the other coordinate stays put. */
  function NextPixel(d: Direction, p: Pixel, size: Pixel): (r: Pixel)
    ensures Horizontal(d) ==> r.y == p.y
    ensures !Horizontal(d) ==> r.x == p.x
    ensures InBounds(p, size) ==> InBounds(r, size)
  {
    match d
    case Left => if p.x == 0 then p.(x := size.x) else p.(x := p.x - 1)
    case Down => if p.y == size.y then p.(y := 0) else p.(y := p.y + 1)
    case Up => if p.y == 0 then p.(y := size.y) else p.(y := p.y - 1)
    case Right => if p.x == size.x then p.(x := 0) else p.(x := p.x + 1)
  }

  /** `v mod (n + 1)` for a value at most one step outside 0..=n. */
  lemma WrapOne(v: int, n: nat)
    requires -1 <= v <= n + 1
    ensures v % (n + 1) == (if v < 0 then n else if v > n then 0 else v)
  {
  }

  /** On an in-bounds cell a step is addition of the direction's unit vector
      modulo the number of cells on each axis. */
  lemma NextPixelIsModularStep(d: Direction, p: Pixel, size: Pixel)
    requires InBounds(p, size)
    ensures NextPixel(d, p, size).x == (p.x + DeltaX(d)) % (size.x + 1)
    ensures NextPixel(d, p, size).y == (p.y + DeltaY(d)) % (size.y + 1)
  {
    WrapOne(p.x + DeltaX(d), size.x);
    WrapOne(p.y + DeltaY(d), size.y);
  }

  /** A step followed by a step in the opposite direction returns to the
      starting cell, at both edges of the grid as well as inside it. */
  lemma StepBack(d: Direction, p: Pixel, size: Pixel)
    requires InBounds(p, size)
    ensures NextPixel(Opposite(d), NextPixel(d, p, size), size) == p
  {
  }
}
