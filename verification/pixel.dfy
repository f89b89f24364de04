/** Grid cells and the row-indexed occupancy raster of src/snake.rs.

    The source stores both coordinates as u16. Here they are unbounded
    naturals; the operations that move cells keep them inside the grid. */
module Pixels {

  /** One cell of the grid: column `x`, row `y`. */
  datatype Pixel = Pixel(x: nat, y: nat)

  /** Occupied cells grouped by row: each row maps to its occupied columns.
      The source keeps each row as an ordered set for the renderer; the
      order plays no part in membership, so a plain set is used here. */
  type Raster = map<nat, set<nat>>

  /** The grid is inclusive on both axes: a grid of size `size` has columns
      0..=size.x and rows 0..=size.y. */
  predicate InBounds(p: Pixel, size: Pixel) {
    p.x <= size.x && p.y <= size.y
  }

  /** The cells a raster marks, as a set of pixels. */
  function Cells(m: Raster): set<Pixel> {
    set y, x | y in m && x in m[y] :: Pixel(x, y)
  }

  /** Membership of a pixel in a raster: look the row up, then the column. */
  function In(p: Pixel, m: Raster): (r: bool)
    ensures r <==> p in Cells(m)
  {
    p.y in m && p.x in m[p.y]
  }

  /** Records one cell in a raster, creating its row when it is new. */
  function Insert(m: Raster, p: Pixel): (r: Raster)
    ensures forall q :: In(q, r) <==> In(q, m) || q == p
    ensures r.Keys == m.Keys + {p.y}
    ensures forall y :: y in m && y != p.y ==> r[y] == m[y]
  {
    if p.y in m then m[p.y := m[p.y] + {p.x}] else m[p.y := {p.x}]
  }

  /** The raster of a sequence of visited cells, inserted in visiting order. */
  function ToRaster(w: seq<Pixel>): (m: Raster)
    ensures forall p :: In(p, m) <==> p in w
    ensures forall y :: y in m ==> m[y] != {}
  {
    if w == [] then map[] else Insert(ToRaster(w[..|w| - 1]), w[|w| - 1])
  }

  /** A raster built from a walk marks exactly the walk's cells, so it marks
      no more distinct cells than the walk has steps. */
  lemma ToRasterCells(w: seq<Pixel>)
    ensures Cells(ToRaster(w)) == set p | p in w
    ensures |Cells(ToRaster(w))| <= |w|
  {
    var m := ToRaster(w);
    forall p | p in Cells(m) ensures p in w {
      assert In(p, m);
    }
    forall p | p in w ensures p in Cells(m) {
      assert In(p, m);
    }
    DistinctAtMostLength(w);
  }

  /** A sequence has at most as many distinct elements as it has positions. */
  lemma {:induction false} DistinctAtMostLength<T>(w: seq<T>)
    ensures |set p | p in w| <= |w|
  {
    if w != [] {
      var front := w[..|w| - 1];
      DistinctAtMostLength(front);
      assert (set p | p in w) == (set p | p in front) + {w[|w| - 1]} by {
        assert w == front + [w[|w| - 1]];
      }
    }
  }

  /** A pseudo-random cell from a clock reading split into nanoseconds and
      milliseconds since the epoch; the clock itself is outside the model.
      A zero-sized axis would divide by zero, so both axes must be positive. */
  function Randomize(size: Pixel, nanos: nat, millis: nat): (r: Pixel)
    requires size.x > 0 && size.y > 0
    ensures r.x < size.x && r.y < size.y
    ensures nanos < size.x ==> r.x == nanos
    ensures millis < size.y ==> r.y == millis
  {
    Pixel(nanos % size.x, millis % size.y)
  }
}
