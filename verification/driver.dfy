/** The calling protocol of the game loop in src/main.rs, reduced to the
    snake: each tick the loop checks for a self-collision, grows the snake
    when the head is on the food, and then either turns and advances (a
    direction key arrived) or only advances (the wait for input timed out).
    Terminal I/O, the input thread, food placement, quitting and starting a
    new round are outside the model. */
module Driver {
  import opened Pixels
  import opened Directions
  import opened Snakes
  import opened SnakeLemmas

  /** What the input thread delivered within one tick. */
  datatype Input = Timeout | Steer(dir: Direction)

  /** One tick: whether the head was on the food, the input that arrived,
      and the grid size read for this tick (the terminal may be resized). */
  datatype Tick = Tick(eats: bool, input: Input, size: Pixel)

  /** The game is lost when the head lies on a cell of the rest of the body,
      that is, when the head cell comes up again later in the body. */
  function SelfCollision(s: Snake, size: Pixel): (lost: bool)
    requires Settled(s)
    ensures lost <==> s.head in Trace(s, size)[1..]
  {
    In(s.head, Rasterize(s, size))
  }

  /** The snake just before the tick's advance: grown if the head was on the
      food, then turned if a direction arrived. */
  function Prepare(s: Snake, t: Tick): (p: Snake)
    requires Settled(s)
    ensures CanAdvance(p) && Settled(Advance(p, t.size))
    ensures Total(p) == Total(s) + (if t.eats then 1 else 0)
    ensures p.head == s.head
    ensures p.facing == (if t.input.Steer? && CanTurn(s.facing, t.input.dir) then t.input.dir else s.facing)
  {
    var fed := if t.eats then Grow(s) else s;
    assert Settled(fed) by {
      if t.eats { GrowKeepsSettled(s); }
    }
    var turned := if t.input.Steer? then Turn(fed, t.input.dir) else fed;
    assert CanAdvance(turned) && Settled(Advance(turned, t.size)) by {
      if t.input.Steer? {
        TurnAdvanceKeepsSettled(fed, t.input.dir, t.size);
      } else {
        AdvanceKeepsSettled(fed, t.size);
      }
    }
    turned
  }

  /** Growing and turning keep every body cell in place. */
  lemma PrepareKeepsTrace(s: Snake, t: Tick)
    requires Settled(s)
    ensures Trace(Prepare(s, t), t.size)[..Total(s)] == Trace(s, t.size)
  {
    var fed := if t.eats then Grow(s) else s;
    if t.eats {
      GrowExtendsTrace(s, t.size);
    }
    assert Trace(fed, t.size)[..Total(s)] == Trace(s, t.size);
    if t.input.Steer? {
      TurnKeepsTrace(fed, t.input.dir, t.size);
    }
  }

  /** The snake after one tick. */
  function Step(s: Snake, t: Tick): (r: Snake)
    requires Settled(s)
    ensures Settled(r)
    ensures Total(r) == Total(s) + (if t.eats then 1 else 0)
    ensures r.facing == (if t.input.Steer? && CanTurn(s.facing, t.input.dir) then t.input.dir else s.facing)
    ensures r.head == NextPixel(r.facing, s.head, t.size)
    ensures InBounds(s.head, t.size) ==> InBounds(r.head, t.size)
  {
    Advance(Prepare(s, t), t.size)
  }

  /** Over one tick the body slides forward by a cell: the new head is
      prepended, and the old tail cell drops off unless the snake ate. */
  lemma StepSlidesTrace(s: Snake, t: Tick)
    requires Settled(s) && InBounds(s.head, t.size)
    ensures Trace(Step(s, t), t.size)
            == [Step(s, t).head] + Trace(s, t.size)[..Total(Step(s, t)) - 1]
  {
    var p := Prepare(s, t);
    AdvanceSlidesTrace(p, t.size);
    PrepareKeepsTrace(s, t);
    PrefixOfPrefix(Trace(p, t.size), Trace(s, t.size), Total(s), Total(p) - 1);
  }

  lemma PrefixOfPrefix(a: seq<Pixel>, b: seq<Pixel>, n: nat, m: nat)
    requires n <= |a| && b == a[..n] && m <= n
    ensures a[..m] == b[..m]
  {
  }

  /** Number of ticks on which the snake ate. */
  function Meals(ts: seq<Tick>): nat {
    if ts == [] then 0 else (if ts[0].eats then 1 else 0) + Meals(ts[1..])
  }

  /** The snake after a sequence of ticks. It stays settled, and its length
      changes by exactly the number of meals: turning and advancing never
      change it. */
  function Play(s: Snake, ts: seq<Tick>): (r: Snake)
    requires Settled(s)
    ensures Settled(r)
    ensures Total(r) == Total(s) + Meals(ts)
    decreases ts
  {
    if ts == [] then s else Play(Step(s, ts[0]), ts[1..])
  }

  /** The reported score of a round counts its meals. */
  lemma ScoreCountsMeals(head: Pixel, ts: seq<Tick>)
    ensures Len(Play(New(head), ts)) == Meals(ts)
  {
  }
}
