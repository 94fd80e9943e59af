/** A new wave of asteroids (main.c `spawn_asteroid`, `respawn_asteroid`, `led_warning`):
    three asteroids are placed above the screen at random columns, redrawing whenever a
    column would overlap an asteroid already in the list, and the side where more of them
    were drawn is announced by flashing the LED on that side. `rand()` is a parameter: draw
    number k is `rand(k)`. */
module Waves {
  import opened CRuntime
  import opened Shapes
  import opened Pools

  /** The row where new asteroids wait above the screen. */
  const SpawnY: real := -8.0

  /** `LED_side` after a flash: neither LED. */
  const NoSide: int := 4

  /** `asteroid_collision_asteroid(x, -8, x', -8)` on whole columns: asteroids at columns x
      and x' of the spawn row overlap. */
  predicate Overlap(x: int, x': int) {
    ShapesValid();
    PixelCollision(Asteroid, x, -8, Asteroid, x', -8)
  }

  /** An asteroid at column x would overlap `other`; the double `other.x` is truncated by the
      call. */
  predicate Clash(x: int, other: Entity) {
    Overlap(x, TruncToInt(other.x))
  }

  /** The wave being placed: the asteroid slots, the `leftcounter` / `rightcounter` tallies and
      the number of draws used so far. */
  datatype Wave = Wave(slots: seq<Entity>, left: int, right: int, drawn: nat)

  /** The placement loop either finishes or is still redrawing when the draws allowed run out
      (the rejection loop has no bound of its own). */
  datatype Placement = Done(wave: Wave) | Unfinished

  /** One pass of the loop of `spawn_asteroid` at slot a: draw a column in [0, 76]; if it
      clashes with any of the three slots (stale ones included), start over by writing slot 0;
      either way store it and count it as left when its centre `x + 4` is left of column 42.
      The result is the wave and the slot the loop goes on with. */
  function Draw(w: Wave, a: nat, rand: nat -> nat): (r: (Wave, nat))
    requires |w.slots| >= 3 && a < 3
    ensures |r.0.slots| == |w.slots| && r.0.drawn == w.drawn + 1
    ensures r.0.left + r.0.right == w.left + w.right + 1
    ensures forall k :: 3 <= k < |w.slots| ==> r.0.slots[k] == w.slots[k]
    ensures 1 <= r.1 <= a + 1
  {
    var x := rand(w.drawn) % 77;
    var a' := if Clash(x, w.slots[0]) || Clash(x, w.slots[1]) || Clash(x, w.slots[2]) then 0 else a;
    var isLeft := x + 4 < 42;
    (Wave(w.slots[a' := w.slots[a'].(x := x as real, y := SpawnY)],
          if isLeft then w.left + 1 else w.left,
          if isLeft then w.right else w.right + 1,
          w.drawn + 1),
     a' + 1)
  }

  /** The loop of `spawn_asteroid` from slot a, allowed `fuel` more draws. */
  function PlaceFrom(w: Wave, a: nat, rand: nat -> nat, fuel: nat): (r: Placement)
    requires |w.slots| >= 3 && a <= 3
    ensures r.Done? ==> |r.wave.slots| == |w.slots| && r.wave.drawn >= w.drawn
    ensures r.Done? ==> r.wave.left + r.wave.right == w.left + w.right + (r.wave.drawn - w.drawn)
    ensures r.Done? ==> forall k :: 3 <= k < |w.slots| ==> r.wave.slots[k] == w.slots[k]
    decreases fuel
  {
    if a >= 3 then Done(w)
    else if fuel == 0 then Unfinished
    else
      var d := Draw(w, a, rand);
      PlaceFrom(d.0, d.1, rand, fuel - 1)
  }

  /** The first a slots hold asteroids on the spawn row at whole columns in [0, 76], each
      placed so that it does not overlap any slot before it. */
  ghost predicate Placed(slots: seq<Entity>, a: nat)
    requires a <= |slots|
  {
    OnRow(slots, a) && Separated(slots, a)
  }

  ghost predicate OnRow(slots: seq<Entity>, a: nat)
    requires a <= |slots|
  {
    forall k :: 0 <= k < a ==> slots[k].y == SpawnY && 0.0 <= slots[k].x < 77.0
                               && slots[k].x == TruncToInt(slots[k].x) as real
  }

  ghost predicate Separated(slots: seq<Entity>, a: nat)
    requires a <= |slots|
  {
    forall i, j :: 0 <= i < j < a ==> !Clash(TruncToInt(slots[j].x), slots[i])
  }

  lemma PlacedStep(w: Wave, a: nat, rand: nat -> nat)
    requires |w.slots| >= 3 && a < 3 && Placed(w.slots, a)
    ensures Placed(Draw(w, a, rand).0.slots, Draw(w, a, rand).1)
  {
    var x := rand(w.drawn) % 77;
    var clash := Clash(x, w.slots[0]) || Clash(x, w.slots[1]) || Clash(x, w.slots[2]);
    var a' := if clash then 0 else a;
    var s := w.slots[a' := w.slots[a'].(x := x as real, y := SpawnY)];
    assert Draw(w, a, rand).0.slots == s && Draw(w, a, rand).1 == a' + 1;
    assert TruncToInt(x as real) == x;
    forall i, j | 0 <= i < j < a' + 1
      ensures !Clash(TruncToInt(s[j].x), s[i])
    {
      assert s[i] == w.slots[i];
      if j < a' {
        assert s[j] == w.slots[j];
      } else {
        assert !clash && i < 3;
      }
    }
  }

  lemma {:induction false} PlaceFromSettles(w: Wave, a: nat, rand: nat -> nat, fuel: nat)
    requires |w.slots| >= 3 && a <= 3 && Placed(w.slots, a)
    ensures PlaceFrom(w, a, rand, fuel).Done? ==> Placed(PlaceFrom(w, a, rand, fuel).wave.slots, 3)
    decreases fuel
  {
    if a < 3 && fuel > 0 {
      var d := Draw(w, a, rand);
      PlacedStep(w, a, rand);
      PlaceFromSettles(d.0, d.1, rand, fuel - 1);
    }
  }

  /** The outcome of `spawn_asteroid`: the asteroid list, the tallies, `LED_side`, and the
      draws used. */
  datatype Spawn = Spawned(asteroids: Pool, left: int, right: int, side: int, drawn: nat) | Stalled

  /** `spawn_asteroid`: place three asteroids, set the counter to 3, and point `LED_side` at
      the side with more draws (0 left, 1 right), leaving it as it was on a tie. The
      tallies are not reset here, so draws of earlier waves still count. */
  function SpawnAsteroid(p: Pool, left: int, right: int, side: int, rand: nat -> nat, drawn: nat, fuel: nat): (r: Spawn)
    requires ValidPool(p) && |p.slots| >= MaxAsteroid
    ensures r.Spawned? ==> ValidPool(r.asteroids) && r.asteroids.count == 3 && |r.asteroids.slots| == |p.slots|
    ensures r.Spawned? ==> r.left + r.right >= left + right + 3
    ensures r.Spawned? ==> (r.side == 0 <==> r.left > r.right) || (r.left == r.right && r.side == side)
    ensures r.Spawned? ==> (r.side == 1 <==> r.left < r.right) || (r.left == r.right && r.side == side)
  {
    match PlaceFrom(Wave(p.slots, left, right, drawn), 0, rand, fuel)
    case Unfinished => Stalled
    case Done(w) =>
      assert w.drawn - drawn >= 3 by { PlaceFromCounts(Wave(p.slots, left, right, drawn), 0, rand, fuel); }
      var side' := if w.left > w.right then 0 else if w.left < w.right then 1 else side;
      Spawned(Pool(w.slots, 3), w.left, w.right, side', w.drawn)
  }

  /** A finished placement draws at least once for every slot still to fill. */
  lemma {:induction false} PlaceFromCounts(w: Wave, a: nat, rand: nat -> nat, fuel: nat)
    requires |w.slots| >= 3 && a <= 3
    ensures PlaceFrom(w, a, rand, fuel).Done? ==> PlaceFrom(w, a, rand, fuel).wave.drawn >= w.drawn + (3 - a)
    decreases fuel
  {
    if a < 3 && fuel > 0 {
      var d := Draw(w, a, rand);
      PlaceFromCounts(d.0, d.1, rand, fuel - 1);
    }
  }

  /** A completed wave is three asteroids on the spawn row, no two of which overlap. */
  lemma WaveDoesNotOverlap(p: Pool, left: int, right: int, side: int, rand: nat -> nat, drawn: nat, fuel: nat)
    requires ValidPool(p) && |p.slots| >= MaxAsteroid
    requires SpawnAsteroid(p, left, right, side, rand, drawn, fuel).Spawned?
    ensures var q := SpawnAsteroid(p, left, right, side, rand, drawn, fuel).asteroids;
            (forall k :: 0 <= k < 3 ==> q.slots[k].y == SpawnY && 0.0 <= q.slots[k].x < 77.0)
            && forall i, j :: 0 <= i < 3 && 0 <= j < 3 && i != j ==>
                 !Overlap(TruncToInt(q.slots[i].x), TruncToInt(q.slots[j].x))
  {
    ShapesValid();
    PlaceFromSettles(Wave(p.slots, left, right, drawn), 0, rand, fuel);
    var q := SpawnAsteroid(p, left, right, side, rand, drawn, fuel).asteroids;
    forall i, j | 0 <= i < 3 && 0 <= j < 3 && i != j
      ensures !Overlap(TruncToInt(q.slots[i].x), TruncToInt(q.slots[j].x))
    {
      if i < j {
        assert !Clash(TruncToInt(q.slots[j].x), q.slots[i]);
        CollisionSymmetric(Asteroid, TruncToInt(q.slots[j].x), -8, Asteroid, TruncToInt(q.slots[i].x), -8);
      } else {
        assert !Clash(TruncToInt(q.slots[i].x), q.slots[j]);
      }
    }
  }

  /** `respawn_asteroid`: a new wave comes only when no asteroid, boulder or fragment is left. */
  predicate WaveDue(asteroids: Pool, boulders: Pool, fragments: Pool) {
    asteroids.count == 0 && boulders.count == 0 && fragments.count == 0
  }

  /** The LED state of `led_warning`: `LED_side` and the two tallies. */
  datatype Leds = Leds(side: int, left: int, right: int)

  /** `led_warning`: when `LED_side` names a side (0 or 1) that LED flashes and a wave is
      requested; in every case the side becomes 4 and both tallies return to 0. The result
      says whether a wave was requested. */
  function LedWarning(l: Leds): (r: (Leds, bool))
    ensures r.0 == Leds(NoSide, 0, 0)
    ensures r.1 <==> l.side == 0 || l.side == 1
  {
    (Leds(NoSide, 0, 0), l.side == 0 || l.side == 1)
  }

  /** After a flash nothing flashes again until the next wave names a side. */
  lemma FlashOnce(l: Leds)
    ensures !LedWarning(LedWarning(l).0).1
  {
  }
}
