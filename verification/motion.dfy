/** The per-tick movement rules of main.c: asteroids falling onto the shield, boulders and
    fragments drifting and bouncing, plasma bolts flying, the spaceship patrolling, and the
    turret and cannon that aim the bolts. Trigonometry is a parameter: `sinDeg(a)` and
    `cosDeg(a)` stand for `sin(a * M_PI / 180)` and `cos(a * M_PI / 180)`. */
module Motion {
  import opened CRuntime
  import opened Pools

  /** `SHIELD_Y`: the top row of the shield. */
  const ShieldY: real := 39.0

  /** `PLASMA_LENGTH`: the distance a bolt travels per tick. */
  const PlasmaLength: real := 2.0

  /** `ship.y`: the spaceship never leaves row 46. */
  const ShipY: int := 46

  /** The trigonometric functions stay within [-1, 1], as the real ones do. */
  ghost predicate BoundedTrig(sinDeg: real -> real, cosDeg: real -> real) {
    forall a :: -1.0 <= sinDeg(a) <= 1.0 && -1.0 <= cosDeg(a) <= 1.0
  }

  // ---------------------------------------------------------------- asteroids

  /** An asteroid whose bottom row reaches the shield and whose box lies on the screen. */
  predicate OnShield(e: Entity) {
    e.y + 7.0 >= ShieldY && e.x >= 0.0 && e.x <= 77.0
  }

  /** Where an asteroid is after falling for one tick: `speed` rows lower, or where it was
      when paused. */
  function Fallen(e: Entity, paused: bool, speed: real): Entity {
    if paused then e else e.(y := e.y + speed)
  }

  /** One asteroid's turn inside `update_asteroid`: fall by `speed` unless paused, then vanish
      (y becomes `VANISH`) when it touches the shield. */
  function FallStep(e: Entity, paused: bool, speed: real): (r: Entity)
    ensures r.x == e.x && r.angle == e.angle
    ensures OnShield(Fallen(e, paused, speed)) ==> r.y == Vanish
    ensures !OnShield(Fallen(e, paused, speed)) ==> r == Fallen(e, paused, speed)
    ensures r.y == Vanish || r.y == (if paused then e.y else e.y + speed)
  {
    var moved := Fallen(e, paused, speed);
    if OnShield(moved) then moved.(y := Vanish) else moved
  }

  /** The result of `update_asteroid`: the slots, the new `asteroid_counter`, and the shield. */
  datatype Fall = Fall(slots: seq<Entity>, count: nat, shield: int)

  /** The loop of `update_asteroid` from index a: the loop bound `asteroid_counter` is
      decremented inside the loop, so an asteroid that vanishes shortens the walk and the
      index still advances. The shield is hit exactly when some asteroid still to be walked
      over reaches it: every asteroid before the first such one leaves the bound alone, so
      the walk gets there. */
  function FallFrom(slots: seq<Entity>, count: nat, a: nat, shield: int, paused: bool, speed: real): (r: Fall)
    requires count <= |slots|
    ensures |r.slots| == |slots| && r.count <= count
    ensures shield - r.shield == count - r.count
    ensures r.shield < shield <==> exists i :: a <= i < count && OnShield(Fallen(slots[i], paused, speed))
    ensures forall i :: 0 <= i < |slots| ==> r.slots[i].x == slots[i].x
    ensures forall i :: 0 <= i < |slots| && (i < a || i >= count) ==> r.slots[i] == slots[i]
    decreases count - a
  {
    if a >= count then Fall(slots, count, shield)
    else
      var slots' := slots[a := FallStep(slots[a], paused, speed)];
      if OnShield(Fallen(slots[a], paused, speed))
      then FallFrom(slots', count - 1, a + 1, shield - 1, paused, speed)
      else
        var r := FallFrom(slots', count, a + 1, shield, paused, speed);
        assert forall i :: a < i < count ==> slots'[i] == slots[i];
        r
  }

  /** `update_asteroid`: nothing moves during the first two seconds of a round. Every
      asteroid that reaches the shield costs one shield life and one unit of the counter, and
      the shield is hit exactly when some live asteroid, once moved, reaches row `SHIELD_Y`
      with its box on the screen. */
  function UpdateAsteroids(p: Pool, shield: int, time: real, paused: bool, speed: real): (r: (Pool, int))
    requires ValidPool(p)
    ensures ValidPool(r.0) && |r.0.slots| == |p.slots|
    ensures r.0.count <= p.count
    ensures shield - r.1 == p.count - r.0.count
    ensures time < 2.0 ==> r == (p, shield)
    ensures time >= 2.0 ==>
              (r.1 < shield <==> exists i :: 0 <= i < p.count && OnShield(Fallen(p.slots[i], paused, speed)))
  {
    if time < 2.0 then (p, shield)
    else
      var f := FallFrom(p.slots, p.count, 0, shield, paused, speed);
      (Pool(f.slots, f.count), f.shield)
  }

  /** An asteroid that vanished on the shield: its y is `VANISH` but its x is untouched, so
      `release_asteroid_list` (which removes only asteroids with `x > LCD_X`) keeps it. */
  const Parked := Entity(10.0, Vanish, 0.0)

  /** A vanished asteroid is still tested against the shield on later ticks: three asteroids
      with the first one parked lose a life on every tick, and the asteroids after it drop
      out of the counted part of the list after one step, never reaching the shield. */
  lemma ParkedAsteroidDrains()
    ensures var p := Pool([Parked, Entity(20.0, 0.0, 0.0), Entity(40.0, 0.0, 0.0)], 3);
            var t1 := UpdateAsteroids(p, 5, 3.0, false, 1.0);
            var t2 := UpdateAsteroids(t1.0, t1.1, 3.0, false, 1.0);
            var t3 := UpdateAsteroids(t2.0, t2.1, 3.0, false, 1.0);
            t1.1 == 4 && t2.1 == 3 && t3.1 == 2 && t3.0.count == 0
            && t3.0.slots[1].y == 1.0 && t3.0.slots[2].y == 0.0
  {
    var p := Pool([Parked, Entity(20.0, 0.0, 0.0), Entity(40.0, 0.0, 0.0)], 3);
    var t1 := UpdateAsteroids(p, 5, 3.0, false, 1.0);
    assert t1.0 == Pool([Parked, Entity(20.0, 1.0, 0.0), Entity(40.0, 0.0, 0.0)], 2);
    var t2 := UpdateAsteroids(t1.0, t1.1, 3.0, false, 1.0);
    assert t2.0 == Pool([Parked, Entity(20.0, 1.0, 0.0), Entity(40.0, 0.0, 0.0)], 1);
    var t3 := UpdateAsteroids(t2.0, t2.1, 3.0, false, 1.0);
    assert t3.0 == Pool([Parked, Entity(20.0, 1.0, 0.0), Entity(40.0, 0.0, 0.0)], 0);
  }

  // ---------------------------------------------------------------- boulders and fragments

  /** Boulders and fragments differ only in their size, which sets where they bounce and
      where they hit the shield. */
  datatype Rock = BoulderRock | FragmentRock

  /** The rightmost x before a bounce: `LCD_X - 5` for boulders, `LCD_X - 3` for fragments. */
  function RightWall(k: Rock): real {
    match k
    case BoulderRock => 79.0
    case FragmentRock => 81.0
  }

  /** A rock touches the shield: boulders when `y > SHIELD_Y - 4` and `0 <= x < LCD_X - 5`,
      fragments when `y > SHIELD_Y - 2` and `0 <= x <= LCD_X - 3`. */
  predicate Touches(k: Rock, e: Entity) {
    match k
    case BoulderRock => e.y > ShieldY - 4.0 && e.x >= 0.0 && e.x < 79.0
    case FragmentRock => e.y > ShieldY - 2.0 && e.x >= 0.0 && e.x <= 81.0
  }

  /** Where a rock drifts in one tick: `speed` along its heading, or nowhere when paused. */
  function Drift(e: Entity, paused: bool, speed: real, sinDeg: real -> real, cosDeg: real -> real): Entity {
    if paused then e
    else e.(x := e.x + speed * sinDeg(e.angle), y := e.y + speed * cosDeg(e.angle))
  }

  /** A rock at a side wall: left of column 1 or right of its `RightWall`. */
  predicate Bounces(k: Rock, e: Entity) {
    e.x < 1.0 || e.x > RightWall(k)
  }

  /** One rock's turn and whether it cost a shield life. */
  datatype RockTurn = RockTurn(e: Entity, lost: bool)

  /** One rock's turn inside `update_boulders` / `update_fragments`: drift, bounce off a side
      wall by negating the heading, then vanish (x becomes `VANISH`) on touching the shield. */
  function RockStep(k: Rock, e: Entity, paused: bool, speed: real, sinDeg: real -> real, cosDeg: real -> real): (r: RockTurn)
    ensures r.e.y == Drift(e, paused, speed, sinDeg, cosDeg).y
    ensures r.e.angle == (if Bounces(k, Drift(e, paused, speed, sinDeg, cosDeg)) then -e.angle else e.angle)
    ensures r.lost <==> Touches(k, Drift(e, paused, speed, sinDeg, cosDeg))
    ensures r.lost ==> r.e.x == Vanish && Gone(RockRule, r.e)
    ensures !r.lost ==> r.e.x == Drift(e, paused, speed, sinDeg, cosDeg).x
  {
    var moved := Drift(e, paused, speed, sinDeg, cosDeg);
    var bounced := if Bounces(k, moved) then moved.(angle := -moved.angle) else moved;
    if Touches(k, bounced) then RockTurn(bounced.(x := Vanish), true) else RockTurn(bounced, false)
  }

  /** Rocks are tested against the shield on every tick until released, but one that has
      vanished (x is `VANISH`) sits far off to the right and never costs a second life. */
  lemma VanishedRockIsHarmless(k: Rock, e: Entity, paused: bool, speed: real, sinDeg: real -> real, cosDeg: real -> real)
    requires BoundedTrig(sinDeg, cosDeg)
    requires 0.0 <= speed <= 1.0 && e.x == Vanish
    ensures !RockStep(k, e, paused, speed, sinDeg, cosDeg).lost
  {
    var s := sinDeg(e.angle);
    assert -1.0 <= s <= 1.0;
    assert -1.0 <= speed * s by {
      if s < 0.0 {
        assert speed * s >= 1.0 * s;
      }
    }
  }

  /** The number of rocks among the first n turns that cost a life. */
  function LostAmong(k: Rock, slots: seq<Entity>, n: nat, paused: bool, speed: real,
                     sinDeg: real -> real, cosDeg: real -> real): (m: nat)
    requires n <= |slots|
    ensures m <= n
  {
    if n == 0 then 0
    else LostAmong(k, slots, n - 1, paused, speed, sinDeg, cosDeg)
         + (if RockStep(k, slots[n - 1], paused, speed, sinDeg, cosDeg).lost then 1 else 0)
  }

  /** The first n rocks after their turns. */
  function Turned(k: Rock, slots: seq<Entity>, n: nat, paused: bool, speed: real,
                  sinDeg: real -> real, cosDeg: real -> real): (r: seq<Entity>)
    requires n <= |slots|
    ensures |r| == |slots|
    ensures forall i :: 0 <= i < n ==> r[i] == RockStep(k, slots[i], paused, speed, sinDeg, cosDeg).e
    ensures forall i :: n <= i < |slots| ==> r[i] == slots[i]
  {
    if n == 0 then slots
    else
      var prev := Turned(k, slots, n - 1, paused, speed, sinDeg, cosDeg);
      prev[n - 1 := RockStep(k, slots[n - 1], paused, speed, sinDeg, cosDeg).e]
  }

  /** `update_boulders` / `update_fragments`: every live rock takes its turn, each one that
      touches the shield costs exactly one life, and the counter does not change (vanished
      rocks are removed by the next release pass). */
  function UpdateRocks(k: Rock, p: Pool, shield: int, paused: bool, speed: real,
                       sinDeg: real -> real, cosDeg: real -> real): (r: (Pool, int))
    requires ValidPool(p)
    ensures ValidPool(r.0) && r.0.count == p.count && |r.0.slots| == |p.slots|
    ensures forall i :: 0 <= i < p.count ==> r.0.slots[i] == RockStep(k, p.slots[i], paused, speed, sinDeg, cosDeg).e
    ensures forall i :: 0 <= i < p.count ==>
              r.0.slots[i].angle == (if Bounces(k, Drift(p.slots[i], paused, speed, sinDeg, cosDeg)) then -p.slots[i].angle else p.slots[i].angle)
    ensures forall i :: p.count <= i < |p.slots| ==> r.0.slots[i] == p.slots[i]
    ensures r.1 == shield - LostAmong(k, p.slots, p.count, paused, speed, sinDeg, cosDeg)
    ensures shield - p.count <= r.1 <= shield
  {
    (Pool(Turned(k, p.slots, p.count, paused, speed, sinDeg, cosDeg), p.count),
     shield - LostAmong(k, p.slots, p.count, paused, speed, sinDeg, cosDeg))
  }

  /** A rock that touches the shield is removed by the release pass that follows. */
  lemma TouchedRockIsReleased(k: Rock, e: Entity, paused: bool, speed: real, sinDeg: real -> real, cosDeg: real -> real)
    requires RockStep(k, e, paused, speed, sinDeg, cosDeg).lost
    ensures Gone(RockRule, RockStep(k, e, paused, speed, sinDeg, cosDeg).e)
  {
  }

  // ---------------------------------------------------------------- plasma bolts

  /** One bolt's flight in `update_plasmas`: `PLASMA_LENGTH` along its heading (y decreasing,
      since bolts fly upwards), at full length whatever the speed setting. */
  function Fly(e: Entity, paused: bool, sinDeg: real -> real, cosDeg: real -> real): (r: Entity)
    ensures r.angle == e.angle
    ensures paused ==> r == e
  {
    if paused then e
    else e.(x := e.x + PlasmaLength * sinDeg(e.angle), y := e.y - PlasmaLength * cosDeg(e.angle))
  }

  function Flown(slots: seq<Entity>, n: nat, paused: bool, sinDeg: real -> real, cosDeg: real -> real): (r: seq<Entity>)
    requires n <= |slots|
    ensures |r| == |slots|
    ensures forall i :: 0 <= i < n ==> r[i] == Fly(slots[i], paused, sinDeg, cosDeg)
    ensures forall i :: n <= i < |slots| ==> r[i] == slots[i]
  {
    if n == 0 then slots
    else Flown(slots, n - 1, paused, sinDeg, cosDeg)[n - 1 := Fly(slots[n - 1], paused, sinDeg, cosDeg)]
  }

  /** `update_plasmas`: every live bolt flies; the counter and the slots past it stay. */
  function UpdatePlasmas(p: Pool, paused: bool, sinDeg: real -> real, cosDeg: real -> real): (r: Pool)
    requires ValidPool(p)
    ensures ValidPool(r) && r.count == p.count && |r.slots| == |p.slots|
    ensures forall i :: 0 <= i < p.count ==> r.slots[i] == Fly(p.slots[i], paused, sinDeg, cosDeg)
    ensures forall i :: p.count <= i < |p.slots| ==> r.slots[i] == p.slots[i]
  {
    Pool(Flown(p.slots, p.count, paused, sinDeg, cosDeg), p.count)
  }

  /** A bolt climbs at least one pixel per tick while its heading is within 60 degrees of
      vertical (cos >= 1/2), so it eventually leaves the top of the screen. */
  lemma BoltClimbs(e: Entity, sinDeg: real -> real, cosDeg: real -> real)
    requires cosDeg(e.angle) >= 0.5
    ensures Fly(e, false, sinDeg, cosDeg).y <= e.y - 1.0
  {
  }

  // ---------------------------------------------------------------- spaceship

  /** The spaceship: its left column and its heading (0 right, 1 left, 2 stopped). */
  datatype Ship = Ship(x: int, angle: int)

  predicate ValidHeading(a: int) {
    a == 0 || a == 1 || a == 2
  }

  /** `update_spaceship`. A heading outside {0, 1, 2} is replaced by `rand() % 2` (the draw
      `r`). Unless paused the ship moves one column along its heading, not past column 0 on the
      left or `LCD_X - 6` on the right, and not while the cannon tip is within a column of
      the edge. Then the controls act: pushing against the direction of travel stops the ship
      (heading 2); otherwise left heads left and right heads right. */
  function UpdateShip(s: Ship, cx: real, paused: bool, left: bool, right: bool, r: nat): (t: Ship)
    ensures ValidHeading(t.angle)
    ensures t.x == s.x || t.x == s.x - 1 || t.x == s.x + 1
    ensures 0 <= s.x <= 78 ==> 0 <= t.x <= 78
    ensures paused ==> t.x == s.x
    ensures t.x < s.x ==> cx >= 1.0
    ensures t.x > s.x ==> cx <= 82.0
  {
    var a := if !ValidHeading(s.angle) then r % 2 else s.angle;
    var x := if a == 1 && s.x > 0 && !paused && !(s.x < 1 || cx < 1.0) then s.x - 1
             else if a == 0 && s.x < 78 && !paused && !(s.x > 77 || cx > 82.0) then s.x + 1
             else s.x;
    var a' := if (left && a == 0) || (right && a == 1) then 2
              else if left then 1
              else if right then 0
              else a;
    Ship(x, a')
  }

  /** The heading decides the step: a stopped ship stays, and a ship heading one way never
      moves the other way. */
  lemma ShipFollowsHeading(s: Ship, cx: real, paused: bool, left: bool, right: bool, r: nat)
    requires ValidHeading(s.angle)
    ensures s.angle == 2 ==> UpdateShip(s, cx, paused, left, right, r).x == s.x
    ensures s.angle == 0 ==> UpdateShip(s, cx, paused, left, right, r).x >= s.x
    ensures s.angle == 1 ==> UpdateShip(s, cx, paused, left, right, r).x <= s.x
    ensures (s.angle == 0 && !paused && 0 <= s.x < 78 && cx <= 82.0) ==> UpdateShip(s, cx, paused, left, right, r).x == s.x + 1
  {
  }

  /** Pushing against the direction of travel stops the ship; pushing again turns it. */
  lemma PushStopsThenTurns(s: Ship, cx: real, paused: bool, r: nat)
    requires s.angle == 0
    ensures UpdateShip(s, cx, paused, true, false, r).angle == 2
    ensures UpdateShip(UpdateShip(s, cx, paused, true, false, r), cx, paused, true, false, r).angle == 1
  {
  }

  // ---------------------------------------------------------------- cannon and turret

  /** `draw_cannon`: the tip sits `ship.y - SHIELD_Y - 2` = 5 pixels from the ship's centre
      column, along the turret angle; a tip left of the screen is pinned to (0, 41) and one
      right of it to (`LCD_X - 1`, 41). */
  function CannonTip(shipX: int, turret: real, sinDeg: real -> real, cosDeg: real -> real): (r: (real, real))
    ensures 0.0 <= r.0 <= 84.0
    ensures ((r.0 == 0.0 || r.0 == 83.0) && r.1 == 41.0) || r.1 == (ShipY as real) - 5.0 * cosDeg(turret)
    ensures (shipX + 2) as real + 5.0 * sinDeg(turret) < 0.0 ==> r == (0.0, 41.0)
    ensures (shipX + 2) as real + 5.0 * sinDeg(turret) > 84.0 ==> r == (83.0, 41.0)
    ensures 0.0 <= (shipX + 2) as real + 5.0 * sinDeg(turret) <= 84.0 ==>
              r == ((shipX + 2) as real + 5.0 * sinDeg(turret), (ShipY as real) - 5.0 * cosDeg(turret))
  {
    var cx := (shipX + 2) as real + 5.0 * sinDeg(turret);
    var cy := (ShipY as real) - 5.0 * cosDeg(turret);
    if cx < 0.0 then (0.0, 41.0)
    else if cx > 84.0 then (83.0, 41.0)
    else (cx, cy)
  }

  /** Within the screen the tip is exactly the point 5 pixels along the turret. */
  lemma CannonTipUnclamped(shipX: int, turret: real, sinDeg: real -> real, cosDeg: real -> real)
    requires 0.0 <= (shipX + 2) as real + 5.0 * sinDeg(turret) <= 84.0
    ensures CannonTip(shipX, turret, sinDeg, cosDeg) == ((shipX + 2) as real + 5.0 * sinDeg(turret), (ShipY as real) - 5.0 * cosDeg(turret))
  {
  }

  /** The turret angle a potentiometer reading selects: `round(adc / 8.5) - 60`. */
  function TurretOf(adc: nat): (t: int)
    ensures adc <= 1023 ==> -60 <= t <= 60
  {
    var v := adc as real / 8.5;
    assert adc <= 1023 ==> v <= 121.0 by {
      if adc <= 1023 {
        assert v * 8.5 == adc as real;
      }
    }
    Round(v) - 60
  }

  /** The turret and the time of the last serial override (`o_timer`, -1 when none). */
  datatype Aim = Aim(turret: real, override: real)

  /** `set_cannon_angle`: the left potentiometer sets the turret unless an 'o' command
      overrode it less than one second ago (or at most one second ago: the test is
      `time - o_timer > 1`); once it takes over again the override is forgotten. */
  function SetCannonAngle(a: Aim, time: real, adc: nat): (r: Aim)
    ensures (a.override == -1.0 || time - a.override > 1.0) ==> r == Aim(TurretOf(adc) as real, -1.0)
    ensures !(a.override == -1.0 || time - a.override > 1.0) ==> r == a
  {
    if a.override == -1.0 || time - a.override > 1.0 then Aim(TurretOf(adc) as real, -1.0) else a
  }

  /** An override holds the turret for one second, whatever the potentiometer says. */
  lemma OverrideHolds(turret: real, at: real, time: real, adc: nat)
    requires at != -1.0 && at <= time <= at + 1.0
    ensures SetCannonAngle(Aim(turret, at), time, adc).turret == turret
  {
  }

  /** With the potentiometer in range the turret always points within 60 degrees of vertical
      once no override is active. */
  lemma TurretRange(a: Aim, time: real, adc: nat)
    requires adc <= 1023 && a.override == -1.0
    ensures -60.0 <= SetCannonAngle(a, time, adc).turret <= 60.0
  {
  }

  /** `setSpeed`: the right potentiometer sets the speed `adc / 1023` unless an 'm' command
      set it one second ago or less. */
  function SetSpeed(speed: real, mTimer: real, time: real, adc: nat): (r: (real, real))
    ensures adc <= 1023 && (mTimer == -1.0 || time - mTimer > 1.0) ==> 0.0 <= r.0 <= 1.0
    ensures (mTimer == -1.0 || time - mTimer > 1.0) ==> r.0 * 1023.0 == adc as real && r.1 == -1.0
    ensures !(mTimer == -1.0 || time - mTimer > 1.0) ==> r == (speed, mTimer)
  {
    if mTimer == -1.0 || time - mTimer > 1.0 then (adc as real / 1023.0, -1.0) else (speed, mTimer)
  }

  // ---------------------------------------------------------------- firing

  /** The result of `fire_cannon`: the bolts, `plasma_timer`, and whether a shot left. */
  datatype Shot = Shot(bolts: Pool, timer: real, fired: bool)

  /** `fire_cannon`: with the joystick up (or 'w' from the serial line), fewer than
      `MAX_PLASMA` bolts, at least 0.2 s since the last shot and the game running, a bolt
      appears `PLASMA_LENGTH` beyond the cannon tip, heading along the turret. */
  function FireCannon(p: Pool, up: bool, time: real, timer: real, paused: bool,
                      cx: real, cy: real, turret: real, sinDeg: real -> real, cosDeg: real -> real): (r: Shot)
    requires ValidPool(p)
    ensures ValidPool(r.bolts) && |r.bolts.slots| >= |p.slots|
    ensures r.bolts.slots[..p.count] == p.slots[..p.count]
    ensures r.fired <==> up && p.count < MaxPlasma && time - timer >= 0.2 && !paused
    ensures r.fired ==> r.bolts.count == p.count + 1 && r.timer == time
    ensures r.fired ==> r.bolts.slots[p.count]
                        == Entity(cx + PlasmaLength * sinDeg(turret), cy - PlasmaLength * cosDeg(turret), turret)
    ensures !r.fired ==> r == Shot(p, timer, false)
  {
    if up && p.count < MaxPlasma && time - timer >= 0.2 && !paused then
      var bolt := Entity(cx + PlasmaLength * sinDeg(turret), cy - PlasmaLength * cosDeg(turret), turret);
      Shot(Pool(Put(p.slots, p.count, bolt), p.count + 1), time, true)
    else Shot(p, timer, false)
  }

  /** Shots are at least 0.2 s apart: right after a shot, another fires only once the clock
      has moved on by 0.2 s. */
  lemma ShotsSpaced(p: Pool, time: real, time': real, paused: bool, cx: real, cy: real,
                    turret: real, sinDeg: real -> real, cosDeg: real -> real)
    requires ValidPool(p)
    requires FireCannon(p, true, time, time - 1.0, paused, cx, cy, turret, sinDeg, cosDeg).fired
    ensures var s := FireCannon(p, true, time, time - 1.0, paused, cx, cy, turret, sinDeg, cosDeg);
            FireCannon(s.bolts, true, time', s.timer, paused, cx, cy, turret, sinDeg, cosDeg).fired
            ==> time' >= time + 0.2
  {
  }

  /** No more than `MAX_PLASMA` bolts are ever live, starting from a legal count. */
  lemma FireBounded(p: Pool, up: bool, time: real, timer: real, paused: bool,
                    cx: real, cy: real, turret: real, sinDeg: real -> real, cosDeg: real -> real)
    requires ValidPool(p) && p.count <= MaxPlasma
    ensures FireCannon(p, up, time, timer, paused, cx, cy, turret, sinDeg, cosDeg).bolts.count <= MaxPlasma
  {
  }
}
