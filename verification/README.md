# snek: the snake's movement and geometry, in Dafny

This project models the core of `snek`, a terminal snake game played on a
wrap-around (toroidal) grid. The core has two parts.

- **Directions** (`src/direction.rs`). There are four directions. Each one
  has an opposite, a rule for which turns are legal, and a one-cell step
  that wraps at the edges. The grid is inclusive: a grid of size `s` has
  columns `0..=s.x` and rows `0..=s.y`.
- **The snake** (`src/snake.rs`). The body is stored run-length encoded,
  not cell by cell. It holds the head, the direction it faces, the length
  of the straight stretch behind the head (`toFirstBend`), and a list of
  bends `(length, direction)` ordered from head to tail. Turning, advancing
  and growing are O(1) updates of that record. `rasterize` rebuilds every
  body cell except the head as a row → columns map, and `Pixel::in`
  tests membership in that map.

Files and modules:

- `pixel.dfy`, module `Pixels`: cells, the raster, membership, raster
  construction, and the clock-seeded random cell.
- `direction.dfy`, module `Directions`: `Opposite`, `CanTurn` and `NextPixel`.
- `snake.dfy`, module `Snakes`: the snake record and its operations.
  - `Walk` is the rasterizing walk, recursive over the bends.
  - `Trace` is the whole body, head first.
  - `Body` is the body without the head, as `rasterize` walks it.
- `snake_lemmas.dfy`, module `SnakeLemmas`: how the operations act on the
  body.
  - A turn keeps the trace.
  - An advance slides it one cell.
  - A grow appends one tail cell.
  - The "settled" invariant (no empty stretch or bend) is preserved.
- `driver.dfy`, module `Driver`: the game loop's calling protocol from
  `src/main.rs`. Each tick runs a collision test, an optional grow, and
  then either turn-then-advance or advance alone.
- `scenarios.dfy`, module `Scenarios`: concrete runs on the grid of size
  20 × 20, that is 21 × 21 cells.

Coordinates are unbounded naturals. Nothing keeps the head inside the grid
for good: the loop re-reads the terminal size on every tick
(`src/main.rs:120`), and a shrink can leave the head outside the new grid.
The results about in-bounds cells (`Directions.NextPixelIsModularStep`,
`Directions.StepBack`, `SnakeLemmas.AdvanceSlidesTrace`,
`Driver.StepSlidesTrace`) therefore require the head to be in bounds, and
`Driver.Step` states that a tick keeps an in-bounds head in bounds.
`Scenarios.NoWrapPastShrunkEdge` shows a head past a shrunk edge stepping
further out instead of wrapping.

Some operations fail in the source on an unsigned underflow or a division
by zero. The underflows panic when overflow checks are on (debug builds);
in a release build they wrap instead, for example a zero-length bend
decremented by `advance` becomes 65535. The model keeps each failing input
out by a precondition:

- `rasterize` subtracts 1 from `to_first_bend` (`src/snake.rs:66`), so
  `Body` and `Rasterize` require `toFirstBend >= 1`.
- `advance` decrements the tail-most bend (`src/snake.rs:112`), so
  `Advance` requires that bend to be non-empty (`CanAdvance`).
- `len` subtracts the initial length (`src/snake.rs:129`), so `Len`
  requires the body to be at least that long.
- `randomize` takes the clock modulo the grid size (`src/snake.rs:33-34`),
  so `Randomize` requires both sizes to be positive. The grid size is half
  of one less than the terminal's columns and one less than its rows
  (`src/main.rs:26-29`), so a terminal under 3 columns wide or a single row
  high would divide by zero.

Under the driver's protocol every turn is followed at once by an advance.
`Settled` holds after every tick (`Driver.Step`, `Driver.Play`). It gives
`toFirstBend >= 1`, which `Body` and `Rasterize` need, and a non-empty
tail-most bend, which `Advance` needs (`SnakeLemmas.AdvanceKeepsSettled`,
`SnakeLemmas.TurnAdvanceKeepsSettled`). `Len` needs the body to be at least
the initial length. That does not follow from `Settled`: it holds because a
round starts from `New` and `Driver.Play` only adds meals to the length
(`Driver.ScoreCountsMeals`).

## Model

| member | source | states |
|---|---|---|
| Pixels.In | src/snake.rs:20-26 | a pixel is in a raster exactly when it is one of the cells the raster marks |
| Pixels.Insert | src/snake.rs:71-77 | recording a cell marks exactly the old cells plus that one; its row becomes a key and other rows are untouched |
| Pixels.ToRaster | src/snake.rs:68-80 | the raster built by inserting a walk's cells marks exactly the cells of the walk and has no empty row |
| Pixels.ToRasterCells | src/snake.rs:61-90 | the raster's cells are the set of the walk's cells, so there are at most as many as the walk has steps |
| Pixels.Randomize | src/snake.rs:28-36 | with both grid sizes positive, the random cell lies in `0..size.x` × `0..size.y`; a clock value already below the size is used unchanged |
| Directions.Opposite | src/direction.rs:12-19 | the opposite differs from the direction, lies on the same axis, and has the negated unit vector |
| Directions.OppositeInvolution | src/direction.rs:12-19 | taking the opposite twice gives back the direction |
| Directions.CanTurn | src/direction.rs:21-23 | a turn is legal exactly when it switches between the horizontal and vertical axis |
| Directions.ExactlyTwoLegalTurns | src/direction.rs:21-23 | every direction has exactly two legal turns, the two perpendicular directions |
| Directions.NextPixel | src/direction.rs:25-38 | a step changes only the coordinate on its axis of motion and keeps an in-bounds cell in bounds |
| Directions.NextPixelIsModularStep | src/direction.rs:25-38 | on an in-bounds cell, a step adds the unit vector modulo the number of cells per axis (size + 1), so it wraps at both edges |
| Directions.StepBack | src/direction.rs:25-38 | stepping in the opposite direction undoes a step for every in-bounds cell, edges included |
| Snakes.New | src/snake.rs:48-55 | a new snake has the given head, faces right, has no bends, is `INITIAL_LENGTH` (4) cells long, is settled, and has score 0 |
| Snakes.Head | src/snake.rs:57-59 | the reported head is the first cell of the body's trace |
| Snakes.Turn | src/snake.rs:92-101 | an illegal turn changes nothing; a legal one pushes the old stretch, walked away from the head, as the new front bend, faces the new direction with an empty stretch, and keeps the total length |
| Snakes.ShortenBack | src/snake.rs:106-114 | the tail-most bend loses one cell and is dropped exactly when that empties it; a surviving tail-most bend keeps its direction and is one cell shorter; the bend lengths sum to one less, and the earlier bends are unchanged |
| Snakes.Advance | src/snake.rs:103-115 | the head takes one step in the facing direction, and the total length is unchanged; with bends, the stretch behind the head grows by one, the tail-most bend loses one cell (keeping its direction) and is dropped exactly when that empties it, and the earlier bends are unchanged; without bends, only the head moves |
| Snakes.LengthenBack | src/snake.rs:118-119 | the tail-most bend gains one cell, keeps its direction, and the earlier bends are unchanged |
| Snakes.Grow | src/snake.rs:117-123 | total length rises by exactly one; the head, the facing direction and every bend direction are unchanged, and only the tail-most segment changes |
| Snakes.FoldLengths | src/snake.rs:126-128 | the left fold over the bends adds their total length to the starting value |
| Snakes.Len | src/snake.rs:125-130 | the score is the total body length minus `INITIAL_LENGTH` |
| Snakes.Walk | src/snake.rs:61-90 | the walk has as many cells as its first stretch plus all bend lengths; it starts at the cursor, each cell is one grid step from the previous one, and all cells are in bounds when the cursor is |
| Snakes.Trace | src/snake.rs:61-90 | the full body has exactly the total length in cells and starts at the head |
| Snakes.Body | src/snake.rs:61-90 | the cells `rasterize` visits are the trace without the head: total − 1 cells, first one step behind the head, contiguous and in bounds |
| Snakes.Rasterize | src/snake.rs:61-90 | the raster marks exactly the body cells other than the head, at most total − 1 distinct cells, all in bounds when the head is |
| SnakeLemmas.StraightWalkPrefix | src/snake.rs:120-122 | a straight walk one cell shorter is the longer walk without its last cell |
| SnakeLemmas.LongerBackBendWalk | src/snake.rs:117-120 | lengthening the tail-most bend appends exactly one cell to the walk |
| SnakeLemmas.EmptyBackBendWalk | src/snake.rs:82-88 | a zero-length bend at the tail end adds no cells to the walk |
| SnakeLemmas.ShorterBackBendWalk | src/snake.rs:106-114 | shortening the tail-most bend removes exactly the last cell of the walk |
| SnakeLemmas.DroppedBackBendWalk | src/snake.rs:109-110 | popping a one-cell tail-most bend removes exactly the last cell of the walk |
| SnakeLemmas.TurnKeepsTrace | src/snake.rs:92-101 | a turn, legal or not, leaves the covered cells and their order unchanged |
| SnakeLemmas.GrowExtendsTrace | src/snake.rs:117-123 | growing keeps every body cell in place and appends one cell at the tail |
| SnakeLemmas.AdvanceSlidesTrace | src/snake.rs:103-115 | advancing prepends the new head and drops the old tail cell |
| SnakeLemmas.AdvanceKeepsSettled | src/snake.rs:103-115 | a settled snake may advance and stays settled |
| SnakeLemmas.TurnAdvanceKeepsSettled | src/main.rs:123-126 | turn followed by advance takes a settled snake to a settled one, so the empty stretch a turn leaves is filled before the next rasterization |
| SnakeLemmas.GrowKeepsSettled | src/snake.rs:117-123 | growing keeps a settled snake settled |
| SnakeLemmas.TwoTurnsLeaveEmptyBend | src/snake.rs:92-101 | two legal turns with no advance between them push a zero-length bend, so the snake is no longer settled |
| Driver.SelfCollision | src/main.rs:73-78 | the game is lost exactly when the head cell occurs again later in the body |
| Driver.Prepare | src/main.rs:80-126 | eating adds one cell and a steer faces the new direction only when the turn is legal; the head stays put, and the result may advance and settles after it |
| Driver.PrepareKeepsTrace | src/main.rs:80-126 | growing and turning before the advance keep every body cell of the tick's starting state in place |
| Driver.Step | src/main.rs:71-136 | one tick keeps the snake settled, adds one cell only when it eats, faces the new direction only after a legal turn, and moves the head one step that way, keeping an in-bounds head in bounds |
| Driver.StepSlidesTrace | src/main.rs:121-135 | over one tick the body slides forward one cell: the new head is prepended, and the old tail cell drops off unless the snake ate |
| Driver.Play | src/main.rs:71-136 | over any sequence of ticks the snake stays settled, and its length changes by exactly the number of meals |
| Driver.ScoreCountsMeals | src/main.rs:146 | the score reported for a round equals the number of meals |
| Scenarios.StraightSlideMoves | src/snake.rs:103-115 | three advances from (5,5) on the grid of size 20 × 20 (21 × 21 cells) bring the head to (8,5) |
| Scenarios.StraightSlideBody | src/snake.rs:61-90 | after those advances, the body behind the head is (7,5), (6,5), (5,5) |
| Scenarios.OneTurn | src/snake.rs:92-115 | turning down and advancing puts the head at (8,6); the rest of the body is one bend of three cells walked left from the old head (8,5) |
| Scenarios.GrowThenAdvanceMoves | src/snake.rs:103-130 | a grow followed by an advance gives score 1 |
| Scenarios.GrowThenAdvanceBody | src/snake.rs:61-90 | the body then has four cells besides the head, (5,5) to (2,5) |
| Scenarios.ReversalIgnored | src/snake.rs:92-95 | facing right, a turn to the left changes nothing |
| Scenarios.WrapAtEdges | src/direction.rs:27-33 | each of the four edges wraps to the opposite edge |
| Scenarios.NoWrapPastShrunkEdge | src/direction.rs:33-34 | a head at column 20, outside a grid that has shrunk to size 10, steps right to column 21 instead of wrapping |

Three points about the code's behaviour are easy to misread:

- **The operations are partial.** They are not total: the source fails on
  the underflows and the division by zero listed above, and the model keeps
  them as preconditions.
- **Cell count of `rasterize`.** The walk (`Body`) always visits exactly
  total − 1 cells. The raster is a set, so it holds at most total − 1
  distinct cells: a body that crosses itself marks the shared cell once.
  `Rasterize` therefore states "at most".
- **What a turn-then-advance leaves behind.** After a turn down and an
  advance, the new head is the cell below the old head. The raster holds
  the old head cell and the two cells to its left; the old tail cell drops
  off. From head (8,5), a turn down and an advance leave the raster
  (8,5), (7,5), (6,5), and (5,5) is gone (`Scenarios.OneTurn`).

## Left out

- Integer width: the source's coordinates, lengths and score are `u16`. Two effects are not modelled:
  - `grow` overflowing past 65535;
  - a Right/Down step overflowing at 65535 when the grid has shrunk below the coordinate.

  The model uses unbounded naturals. Lengths stay far below the limit in any game a terminal can show. The `as u16` casts in `randomize` cannot truncate, because their values are below the grid size.
- SnakeLemmas.AdvanceSlidesTrace: holds only while the head lies inside the grid the step uses. After the terminal shrinks, an out-of-bounds head can step further out (`Scenarios.NoWrapPastShrunkEdge`), and the body rebuilt under the new size need not be the old body slid by one cell.
- Driver.StepSlidesTrace: likewise holds only for a tick whose grid contains the head at the start of the tick.
- Pixels.Randomize: the time source is not modelled. The clock reading becomes two explicit parameters (nanoseconds and milliseconds since the epoch), because the model has no clock.
- The raster's ordering and hashing are not modelled. The source stores each row as a `BTreeSet` inside a `HashMap`. Here a row is a plain set, because the ordering serves only the renderer and plays no part in membership.
- `src/main.rs` apart from the turn-then-advance protocol is not modelled, because it is I/O and concurrency glue. This covers:
  - terminal size queries, raw mode and rendering;
  - the key-reading thread and the timed channel receive;
  - resampling the food position;
  - the `NewGame` and `Quit` events;
  - the loop ending on a self-collision (`src/main.rs:76-77`). `Driver.Play` keeps stepping after a collision, so its runs include every run of the source as a prefix, and `Driver.SelfCollision` says when the source would stop.

  `Driver.Step` takes the tick's outcome (ate or not, input or timeout, grid size) as a parameter.
- `generate_game` (`src/main.rs:32-37`) is not modelled, because it only combines `Snakes.New` with `Pixels.Randomize`.
