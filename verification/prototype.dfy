/** The earlier variant of the game (cab202_adc/main.c), only where it differs from main.c: the
    integer `pixel_collision`, the LED side chosen by `spawn_asteroid`, `led_flash`,
    `restart_game`, `set_pause`, `update_plasmas` scaled by the speed setting, and the list of
    controls. Everything else is shared with the model of main.c. */
module Prototype {
  import opened CRuntime
  import opened Shapes
  import opened Pools
  import opened Console
  import opened State
  import Graphics
  import Motion
  import Waves
  import Game
  import Report

  // ---------------------------------------------------------------- pixel_collision

  /** `pixel_collision` returning `int`: the two loops of main.c's version, answering 1 at the
      first cell solid in both stencils and 0 when there is none. */
  method PixelCollisionInt(s0: Stencil, x0: int, y0: int, s1: Stencil, x1: int, y1: int) returns (r: int)
    requires ValidStencil(s0) && ValidStencil(s1)
    ensures r == 0 || r == 1
    ensures r == 1 <==> PixelCollision(s0, x0, y0, s1, x1, y1)
  {
    var j := y0;
    while j < y0 + s0.h
      invariant y0 <= j <= y0 + s0.h
      invariant forall i', j' :: y0 <= j' < j ==> !CommonCell(s0, x0, y0, s1, x1, y1, i', j')
    {
      var i := x0;
      while i < x0 + s0.w
        invariant x0 <= i <= x0 + s0.w
        invariant forall i' :: x0 <= i' < i ==> !CommonCell(s0, x0, y0, s1, x1, y1, i', j)
      {
        if CellTest(s0, x0, y0, s1, x1, y1, i, j) {
          assert CommonCell(s0, x0, y0, s1, x1, y1, i, j);
          return 1;
        }
        i := i + 1;
      }
      j := j + 1;
    }
    return 0;
  }

  // ---------------------------------------------------------------- the LED side of a wave

  /** `LED_side` values of this variant: the PORTB pins of the two LEDs, and 0 for none. */
  const LeftLed: int := 2
  const RightLed: int := 3
  const NoLed: int := 0

  /** Where an asteroid at column x is counted: on the left only when wholly left of the
      centre column 42 and not at column 0, on the right only when wholly right of it and
      inside the screen, and nowhere otherwise. */
  datatype Half = LeftHalf | RightHalf | Neither

  function Classify(x: int): (h: Half)
    ensures h == LeftHalf <==> 0 < x && x + 6 < Graphics.LcdX / 2
    ensures h == RightHalf <==> Graphics.LcdX / 2 < x && x + 6 < Graphics.LcdX
  {
    if x + 6 < Graphics.LcdX / 2 && x > 0 then LeftHalf
    else if x > Graphics.LcdX / 2 && x + 6 < Graphics.LcdX then RightHalf
    else Neither
  }

  /** Each asteroid this variant counts is counted on the side main.c counts it (main.c
      counts every asteroid, by its centre `x + 4`); asteroids over the centre line and at
      column 0 are not counted at all. */
  lemma ClassifyRefinesMain(x: int)
    ensures Classify(x) == LeftHalf ==> x + 4 < 42
    ensures Classify(x) == RightHalf ==> !(x + 4 < 42)
    ensures x == 0 || 36 <= x <= 42 ==> Classify(x) == Neither
  {
  }

  /** One pass of the loop of `spawn_asteroid`: as in main.c, except that a clash also sets
      both tallies back to 0 before the new column is counted. */
  function Draw(w: Waves.Wave, a: nat, rand: nat -> nat): (r: (Waves.Wave, nat))
    requires |w.slots| >= 3 && a < 3
    ensures |r.0.slots| == |w.slots| && r.0.drawn == w.drawn + 1 && 1 <= r.1 <= a + 1
    ensures w.left >= 0 && w.right >= 0 ==>
              r.0.left >= 0 && r.0.right >= 0
              && r.0.left + r.0.right <= (if r.1 == a + 1 then w.left + w.right + 1 else 1)
  {
    var x := rand(w.drawn) % 77;
    var clash := Waves.Clash(x, w.slots[0]) || Waves.Clash(x, w.slots[1]) || Waves.Clash(x, w.slots[2]);
    var a' := if clash then 0 else a;
    var left := if clash then 0 else w.left;
    var right := if clash then 0 else w.right;
    var h := Classify(x);
    (Waves.Wave(w.slots[a' := w.slots[a'].(x := x as real, y := Waves.SpawnY)],
                if h == LeftHalf then left + 1 else left,
                if h == RightHalf then right + 1 else right,
                w.drawn + 1),
     a' + 1)
  }

  /** A pass writes the same slot with the same column as main.c's and goes on with the same
      slot. */
  lemma DrawLikeMain(w: Waves.Wave, a: nat, rand: nat -> nat)
    requires |w.slots| >= 3 && a < 3
    ensures Draw(w, a, rand).0.slots == Waves.Draw(w, a, rand).0.slots
    ensures Draw(w, a, rand).1 == Waves.Draw(w, a, rand).1
    ensures Draw(w, a, rand).0.drawn == Waves.Draw(w, a, rand).0.drawn
  {
  }

  /** The loop of `spawn_asteroid` from slot a, allowed `fuel` more draws. */
  function PlaceFrom(w: Waves.Wave, a: nat, rand: nat -> nat, fuel: nat): (r: Waves.Placement)
    requires |w.slots| >= 3 && a <= 3
    ensures r.Done? ==> |r.wave.slots| == |w.slots|
    ensures r.Done? && w.left >= 0 && w.right >= 0 ==>
              r.wave.left >= 0 && r.wave.right >= 0
              && (r.wave.left + r.wave.right <= w.left + w.right + (3 - a) || r.wave.left + r.wave.right <= 3)
    decreases fuel
  {
    if a >= 3 then Waves.Done(w)
    else if fuel == 0 then Waves.Unfinished
    else
      var d := Draw(w, a, rand);
      PlaceFrom(d.0, d.1, rand, fuel - 1)
  }

  /** The columns are drawn and placed exactly as in main.c: only the tallies differ. */
  lemma {:induction false} PlacesLikeMain(w: Waves.Wave, a: nat, rand: nat -> nat, fuel: nat)
    requires |w.slots| >= 3 && a <= 3
    ensures PlaceFrom(w, a, rand, fuel).Done? <==> Waves.PlaceFrom(w, a, rand, fuel).Done?
    ensures PlaceFrom(w, a, rand, fuel).Done? ==>
              PlaceFrom(w, a, rand, fuel).wave.slots == Waves.PlaceFrom(w, a, rand, fuel).wave.slots
    decreases fuel
  {
    if a < 3 && fuel > 0 {
      var d := Draw(w, a, rand);
      var d' := Waves.Draw(w, a, rand);
      DrawLikeMain(w, a, rand);
      PlacesLikeMain(d.0, d.1, rand, fuel - 1);
      PlaceFromSlotsOnly(d.0, d'.0, d.1, rand, fuel - 1);
    }
  }

  /** main.c's placement depends on the slots and the draw count only, not on the tallies. */
  lemma {:induction false} PlaceFromSlotsOnly(w: Waves.Wave, w': Waves.Wave, a: nat, rand: nat -> nat, fuel: nat)
    requires |w.slots| >= 3 && a <= 3 && w.slots == w'.slots && w.drawn == w'.drawn
    ensures Waves.PlaceFrom(w, a, rand, fuel).Done? <==> Waves.PlaceFrom(w', a, rand, fuel).Done?
    ensures Waves.PlaceFrom(w, a, rand, fuel).Done? ==>
              Waves.PlaceFrom(w, a, rand, fuel).wave.slots == Waves.PlaceFrom(w', a, rand, fuel).wave.slots
    decreases fuel
  {
    if a < 3 && fuel > 0 {
      var d, d' := Waves.Draw(w, a, rand), Waves.Draw(w', a, rand);
      DrawSlotsOnly(w, w', a, rand);
      PlaceFromSlotsOnly(d.0, d'.0, d.1, rand, fuel - 1);
    }
  }

  lemma DrawSlotsOnly(w: Waves.Wave, w': Waves.Wave, a: nat, rand: nat -> nat)
    requires |w.slots| >= 3 && a < 3 && w.slots == w'.slots && w.drawn == w'.drawn
    ensures Waves.Draw(w, a, rand).0.slots == Waves.Draw(w', a, rand).0.slots
    ensures Waves.Draw(w, a, rand).0.drawn == Waves.Draw(w', a, rand).0.drawn
    ensures Waves.Draw(w, a, rand).1 == Waves.Draw(w', a, rand).1
  {
  }

  /** `spawn_asteroid` of this variant: place three asteroids, set the counter to 3 and light
      the left LED when more were counted on the left, the right one otherwise, a tie (no
      asteroid counted at all included) going to the right. The tallies start from their
      values after the last wave, since `led_flash` leaves them as they are. */
  function SpawnAsteroid(p: Pool, left: int, right: int, rand: nat -> nat, drawn: nat, fuel: nat): (r: Waves.Spawn)
    requires ValidPool(p) && |p.slots| >= MaxAsteroid
    ensures r.Spawned? ==> ValidPool(r.asteroids) && r.asteroids.count == 3 && |r.asteroids.slots| == |p.slots|
    ensures r.Spawned? ==> (r.side == LeftLed <==> r.left > r.right) && (r.side == RightLed <==> r.left <= r.right)
    ensures r.Spawned? && left >= 0 && right >= 0 ==>
              r.left >= 0 && r.right >= 0 && r.left + r.right <= left + right + 3
  {
    match PlaceFrom(Waves.Wave(p.slots, left, right, drawn), 0, rand, fuel)
    case Unfinished => Waves.Stalled
    case Done(w) =>
      var side := if w.left > w.right then LeftLed else RightLed;
      Waves.Spawned(Pool(w.slots, 3), w.left, w.right, side, w.drawn)
  }

  /** This variant places the same wave as main.c, no two asteroids overlapping; only the
      LED it names may differ. */
  lemma SpawnLikeMain(p: Pool, left: int, right: int, side: int, rand: nat -> nat, drawn: nat, fuel: nat)
    requires ValidPool(p) && |p.slots| >= MaxAsteroid
    ensures SpawnAsteroid(p, left, right, rand, drawn, fuel).Spawned?
            <==> Waves.SpawnAsteroid(p, left, right, side, rand, drawn, fuel).Spawned?
    ensures SpawnAsteroid(p, left, right, rand, drawn, fuel).Spawned? ==>
              SpawnAsteroid(p, left, right, rand, drawn, fuel).asteroids
              == Waves.SpawnAsteroid(p, left, right, side, rand, drawn, fuel).asteroids
  {
    PlacesLikeMain(Waves.Wave(p.slots, left, right, drawn), 0, rand, fuel);
  }

  /** `led_flash`: the LED on pin `LED_side` flashes unless the side is 0; either way the side
      becomes 0. The result is the new side and whether a flash happened. */
  function LedFlash(side: int): (r: (int, bool))
    ensures r.0 == NoLed
    ensures r.1 <==> side != NoLed
  {
    (NoLed, side != NoLed)
  }

  /** Every completed wave is announced by the next `led_warning`, once. */
  lemma EveryWaveFlashesOnce(p: Pool, left: int, right: int, rand: nat -> nat, drawn: nat, fuel: nat)
    requires ValidPool(p) && |p.slots| >= MaxAsteroid
    requires SpawnAsteroid(p, left, right, rand, drawn, fuel).Spawned?
    ensures var side := SpawnAsteroid(p, left, right, rand, drawn, fuel).side;
            (side == LeftLed || side == RightLed) && LedFlash(side).1 && !LedFlash(LedFlash(side).0).1
  {
  }

  // ---------------------------------------------------------------- restart and pause

  /** `restart_game` of this variant: on the left button or 'r' the shield, score, ship column,
      counters, shot timer and speed are reset, the game is paused and the action byte is
      cleared; `release_all_list` then finds nothing live. Unlike main.c it leaves the
      start-up state (which it does not have) alone. Otherwise nothing changes. */
  function RestartGame(s: GameState, lb: bool, past: Entity): (r: GameState)
    requires ValidState(s)
    ensures ValidState(r)
    ensures !(lb || s.line.ingame == 'r') ==> r == s
    ensures (lb || s.line.ingame == 'r') ==>
              r.shield == ShieldLife && r.score == 0 && r.ship == s.ship.(x := 38)
              && r.plasmas.count == 0 && r.asteroids.count == 0 && r.boulders.count == 0 && r.fragments.count == 0
              && r.speed == 1.0 && r.plasmaTimer == 0.0 && r.paused
              && r.line == s.line.(counter := 0, ingame := Idle)
    ensures r.firstStart == s.firstStart && r.time == s.time && r.aim == s.aim && r.leds == s.leds
  {
    if lb || s.line.ingame == 'r' then
      var t := s.(line := s.line.(counter := 0), shield := ShieldLife, score := 0, ship := s.ship.(x := 38),
                  asteroids := s.asteroids.(count := 0), boulders := s.boulders.(count := 0),
                  fragments := s.fragments.(count := 0), plasmas := s.plasmas.(count := 0),
                  plasmaTimer := 0.0, speed := 1.0, paused := true);
      var t := t.(line := t.line.(ingame := Idle));
      ReleaseNoop(t.plasmas, PlasmaRule, past);
      ReleaseNoop(t.asteroids, RockRule, past);
      ReleaseNoop(t.boulders, RockRule, past);
      ReleaseNoop(t.fragments, RockRule, past);
      t.(plasmas := Release(t.plasmas, PlasmaRule, past), asteroids := Release(t.asteroids, RockRule, past),
         boulders := Release(t.boulders, RockRule, past), fragments := Release(t.fragments, RockRule, past))
    else s
  }

  /** When it fires, this variant's restart is main.c's except for the start-up state. */
  lemma RestartAgreesWithMain(s: GameState, lb: bool, past: Entity)
    requires ValidState(s) && (lb || s.line.ingame == 'r')
    ensures RestartGame(s, lb, past) == Game.Restart(s, past).(firstStart := s.firstStart)
  {
  }

  /** `set_pause` of this variant: the joystick centre or 'p' toggles the pause and clears the
      action byte; there is no start-up state and no message. */
  function SetPause(s: GameState, centre: bool): (r: GameState)
    ensures r.paused != s.paused <==> centre || s.line.ingame == 'p'
    ensures r.line.ingame != 'p'
    ensures r == s.(paused := r.paused, line := s.line.(ingame := r.line.ingame))
  {
    if centre || s.line.ingame == 'p' then s.(paused := !s.paused, line := s.line.(ingame := Idle))
    else s
  }

  /** A 'p' toggles the pause once, and the toggle is main.c's. */
  lemma PauseAgreesWithMain(s: GameState, centre: bool)
    requires ValidState(s)
    ensures SetPause(s, centre) == Game.SetPause(s, centre).(firstStart := s.firstStart)
    ensures s.line.ingame == 'p' ==> SetPause(SetPause(s, false), false).paused == !s.paused
  {
  }

  // ---------------------------------------------------------------- plasma bolts

  /** One bolt's flight in this variant's `update_plasmas`: `PLASMA_LENGTH` along its heading
      scaled by the speed setting. */
  function Fly(e: Entity, paused: bool, speed: real, sinDeg: real -> real, cosDeg: real -> real): (r: Entity)
    ensures r.angle == e.angle
    ensures paused || speed == 0.0 ==> r == e
    ensures !paused ==> r.y == e.y - speed * (Motion.PlasmaLength * cosDeg(e.angle))
  {
    if paused then e
    else e.(x := e.x + speed * (Motion.PlasmaLength * sinDeg(e.angle)),
            y := e.y - speed * (Motion.PlasmaLength * cosDeg(e.angle)))
  }

  function Flown(slots: seq<Entity>, n: nat, paused: bool, speed: real, sinDeg: real -> real, cosDeg: real -> real)
    : (r: seq<Entity>)
    requires n <= |slots|
    ensures |r| == |slots|
    ensures forall i :: 0 <= i < n ==> r[i] == Fly(slots[i], paused, speed, sinDeg, cosDeg)
    ensures forall i :: n <= i < |slots| ==> r[i] == slots[i]
  {
    if n == 0 then slots
    else Flown(slots, n - 1, paused, speed, sinDeg, cosDeg)[n - 1 := Fly(slots[n - 1], paused, speed, sinDeg, cosDeg)]
  }

  /** `update_plasmas` of this variant: every live bolt flies at the speed setting. */
  function UpdatePlasmas(p: Pool, paused: bool, speed: real, sinDeg: real -> real, cosDeg: real -> real): (r: Pool)
    requires ValidPool(p)
    ensures ValidPool(r) && r.count == p.count && |r.slots| == |p.slots|
    ensures forall i :: 0 <= i < p.count ==> r.slots[i] == Fly(p.slots[i], paused, speed, sinDeg, cosDeg)
    ensures forall i :: p.count <= i < |p.slots| ==> r.slots[i] == p.slots[i]
  {
    Pool(Flown(p.slots, p.count, paused, speed, sinDeg, cosDeg), p.count)
  }

  /** At speed 0 no bolt moves; at speed 1 the bolts fly as in main.c. */
  lemma SpeedScalesBolts(p: Pool, paused: bool, sinDeg: real -> real, cosDeg: real -> real)
    requires ValidPool(p)
    ensures UpdatePlasmas(p, paused, 0.0, sinDeg, cosDeg) == p
    ensures UpdatePlasmas(p, paused, 1.0, sinDeg, cosDeg) == Motion.UpdatePlasmas(p, paused, sinDeg, cosDeg)
  {
    var q := UpdatePlasmas(p, paused, 0.0, sinDeg, cosDeg);
    assert q.slots == p.slots;
    var q1, m := UpdatePlasmas(p, paused, 1.0, sinDeg, cosDeg), Motion.UpdatePlasmas(p, paused, sinDeg, cosDeg);
    assert forall i :: 0 <= i < p.count ==> Fly(p.slots[i], paused, 1.0, sinDeg, cosDeg) == Motion.Fly(p.slots[i], paused, sinDeg, cosDeg);
    assert q1.slots == m.slots;
  }

  // ---------------------------------------------------------------- cannon

  /** `draw_cannon` of this variant: the tip sits `ship.y - SHIELD_Y - 1` = 6 pixels from the
      ship's centre column, one more than in main.c, and a tip beyond either edge of the screen
      is pinned to row 39 instead of 41. */
  function CannonTip(shipX: int, turret: real, sinDeg: real -> real, cosDeg: real -> real): (r: (real, real))
    ensures 0.0 <= r.0 <= 84.0
    ensures ((r.0 == 0.0 || r.0 == 83.0) && r.1 == 39.0) || r.1 == (Motion.ShipY as real) - 6.0 * cosDeg(turret)
    ensures (shipX + 2) as real + 6.0 * sinDeg(turret) < 0.0 ==> r == (0.0, 39.0)
    ensures (shipX + 2) as real + 6.0 * sinDeg(turret) > 84.0 ==> r == (83.0, 39.0)
    ensures 0.0 <= (shipX + 2) as real + 6.0 * sinDeg(turret) <= 84.0 ==>
              r == ((shipX + 2) as real + 6.0 * sinDeg(turret), (Motion.ShipY as real) - 6.0 * cosDeg(turret))
  {
    var cx := (shipX + 2) as real + 6.0 * sinDeg(turret);
    var cy := (Motion.ShipY as real) - 6.0 * cosDeg(turret);
    if cx < 0.0 then (0.0, 39.0)
    else if cx > 84.0 then (83.0, 39.0)
    else (cx, cy)
  }

  /** Where neither tip is pinned, this variant's tip lies on main.c's line from the ship's
      centre column, six fifths as far out. */
  lemma CannonSixFifthsOfMain(shipX: int, turret: real, sinDeg: real -> real, cosDeg: real -> real)
    requires 0.0 <= (shipX + 2) as real + 6.0 * sinDeg(turret) <= 84.0
    requires 0.0 <= (shipX + 2) as real + 5.0 * sinDeg(turret) <= 84.0
    ensures var t := CannonTip(shipX, turret, sinDeg, cosDeg);
            var m := Motion.CannonTip(shipX, turret, sinDeg, cosDeg);
            (t.0 - (shipX + 2) as real) * 5.0 == (m.0 - (shipX + 2) as real) * 6.0
            && (t.1 - Motion.ShipY as real) * 5.0 == (m.1 - Motion.ShipY as real) * 6.0
  {
    Motion.CannonTipUnclamped(shipX, turret, sinDeg, cosDeg);
  }

  // ---------------------------------------------------------------- game-over menu

  /** What one pass of a game-over menu decides. */
  datatype Choice = Again | Leave | Stay

  /** The menu of this variant's `game_over` reads only the buttons: the left one restarts,
      otherwise the right one quits. */
  function OverChoice(b: Buttons): (c: Choice)
    ensures c == Again <==> b.lb
    ensures c == Leave <==> !b.lb && b.rb
  {
    if b.lb then Again else if b.rb then Leave else Stay
  }

  /** With nothing typed, main.c's menu decides as this one does; a typed 'r' or 'q' is what
      only main.c's menu answers. */
  lemma OverChoiceLikeMain(s: GameState, input: Inputs, env: Game.Env)
    requires ValidState(s) && s.mode == Over
    requires input.overR != 'r' && input.overQ != 'q'
    ensures var r := Game.Tick(s, input, env);
            (r.mode == Playing <==> OverChoice(input.buttons) == Again)
            && (r.mode == Quit <==> OverChoice(input.buttons) == Leave)
            && (r.mode == Over <==> OverChoice(input.buttons) == Stay)
  {
    Game.OverMenu(s, input, env);
  }

  // ---------------------------------------------------------------- list of controls

  /** The separator of this variant's list of controls: an en dash between spaces. Its
      `send_controls` is `Report.ControlsMessage(s, Dash)`. */
  const Dash: string := " – "

  /** Each line of this variant's list is main.c's line with the dash in place of the space
      after the key. */
  lemma DashLine(key: char, topic: string)
    ensures var main := Report.ControlLine(key, " ", topic);
            |main| >= 4 && main[3] == ' ' && Report.ControlLine(key, Dash, topic) == main[..3] + Dash + main[4..]
  {
    var main := Report.ControlLine(key, " ", topic);
    assert main == ['\'', key, '\'', ' '] + (topic + "\r\n");
    assert main[..3] == ['\'', key, '\''];
    assert main[4..] == topic + "\r\n";
  }
}
