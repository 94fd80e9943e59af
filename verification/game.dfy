/** One pass of the main loop of main.c (`main`, `do_all`) and the game-flow rules it runs:
    the clock, the pause, the wave warning, quitting, game over and restarting. */
module Game {
  import opened CRuntime
  import opened Pools
  import opened Detection
  import opened Motion
  import opened Console
  import opened Waves
  import opened State
  import opened Commands

  /** What a pass takes besides the globals and the inputs: the C library's sine and cosine of
      an angle in degrees, `rand()` as a sequence of draws, the number of draws the placement
      loop of `spawn_asteroid` is allowed, and the entity a release pass reads past the end of
      a full list. */
  datatype Env = Env(sinDeg: real -> real, cosDeg: real -> real, rand: nat -> nat, fuel: nat, past: Entity)

  /** The modes that never return to the game: `quit_game`, a placement loop still redrawing,
      and the game-over wait while paused. */
  predicate Stuck(m: Mode) {
    m == Quit || m == Redrawing || m == Frozen
  }

  /** The mode agrees with the state: the game-over menu is reached only with the shield used
      up and the game running, and the game-over wait freezes only while paused. */
  predicate Consistent(s: GameState) {
    (s.mode == Over ==> s.shield <= 0 && !s.paused)
    && (s.mode == Frozen ==> s.shield <= 0 && s.paused)
  }

  /** `collision_detection` on the globals: only the four lists, the score and the draws
      change; the score never drops, no asteroid is removed, and boulders and fragments are
      only added. */
  function Collide(s: GameState, rand: nat -> nat): (r: GameState)
    requires ValidState(s)
    ensures ValidState(r)
    ensures r.score >= s.score && r.drawn >= s.drawn
    ensures r.asteroids.count == s.asteroids.count && r.plasmas.count == s.plasmas.count
    ensures r.boulders.count >= s.boulders.count && r.fragments.count >= s.fragments.count
    ensures r == s.(plasmas := r.plasmas, asteroids := r.asteroids, boulders := r.boulders,
                    fragments := r.fragments, score := r.score, drawn := r.drawn)
  {
    var o := CollisionDetection(Field(s.plasmas, s.asteroids, s.boulders, s.fragments, s.score, s.drawn), rand);
    s.(plasmas := o.field.plasmas, asteroids := o.field.asteroids, boulders := o.field.boulders,
       fragments := o.field.fragments, score := o.field.score, drawn := o.field.drawn)
  }

  /** `set_pause`: the joystick centre or a 'p' from the serial line toggles the pause and
      consumes the key; the first toggle also ends the start-up state. */
  function SetPause(s: GameState, centre: bool): (r: GameState)
    requires ValidState(s)
    ensures ValidState(r)
    ensures r.paused != s.paused <==> centre || s.line.ingame == 'p'
    ensures r.line.ingame != 'p'
    ensures r.firstStart <==> s.firstStart && !centre && s.line.ingame != 'p'
    ensures r == s.(paused := r.paused, firstStart := r.firstStart, line := s.line.(ingame := r.line.ingame))
  {
    if centre || s.line.ingame == 'p' then
      s.(paused := !s.paused, firstStart := false, line := s.line.(ingame := Idle))
    else s
  }

  /** A 'p' toggles the pause once: the key is consumed, so the next pass leaves the pause as
      it is unless the key comes again. */
  lemma PauseKeyActsOnce(s: GameState)
    requires ValidState(s) && s.line.ingame == 'p'
    ensures SetPause(s, false).paused == !s.paused
    ensures SetPause(SetPause(s, false), false).paused == !s.paused
  {
  }

  /** `respawn_asteroid`: a new wave is placed only when no asteroid, boulder or fragment is
      left; otherwise nothing changes. */
  function Respawn(s: GameState, env: Env): (r: GameState)
    requires ValidState(s)
    ensures ValidState(r)
    ensures !WaveDue(s.asteroids, s.boulders, s.fragments) ==> r == s
    ensures WaveDue(s.asteroids, s.boulders, s.fragments) ==> r.mode == Redrawing || r.asteroids.count == 3
    ensures r.mode == s.mode || r.mode == Redrawing
    ensures r == s.(asteroids := r.asteroids, leds := r.leds, drawn := r.drawn, mode := r.mode)
  {
    if WaveDue(s.asteroids, s.boulders, s.fragments) then
      var w := SpawnAsteroid(s.asteroids, s.leds.left, s.leds.right, s.leds.side, env.rand, s.drawn, env.fuel);
      if w.Spawned? then s.(asteroids := w.asteroids, leds := Leds(w.side, w.left, w.right), drawn := w.drawn)
      else s.(mode := Redrawing)
    else s
  }

  /** `led_warning`: when `LED_side` names a side the LED there flashes and `respawn_asteroid`
      runs; either way the side becomes 4 and the tallies 0. */
  function Warn(s: GameState, env: Env): (r: GameState)
    requires ValidState(s)
    ensures ValidState(r)
    ensures r.leds == Leds(NoSide, 0, 0)
    ensures !WaveDue(s.asteroids, s.boulders, s.fragments) ==> r == s.(leds := Leds(NoSide, 0, 0))
    ensures r.mode == s.mode || r.mode == Redrawing
    ensures r == s.(asteroids := r.asteroids, leds := r.leds, drawn := r.drawn, mode := r.mode)
  {
    var (leds, flash) := LedWarning(s.leds);
    var t := if flash then Respawn(s, env) else s;
    t.(leds := leds)
  }

  /** A wave placed from inside `led_warning` has its side overwritten at once, so it is never
      announced: the next warning finds no side to flash. */
  lemma WarnedWaveLosesSide(s: GameState, env: Env)
    requires ValidState(s) && WaveDue(s.asteroids, s.boulders, s.fragments)
    requires s.leds.side == 0 || s.leds.side == 1
    requires Warn(s, env).mode != Redrawing
    ensures Warn(s, env).asteroids.count == 3
    ensures !LedWarning(Warn(s, env).leds).1
  {
  }

  /** `restart_game`: the shield, the score, the ship's column and all four counters return to
      their start values, the game pauses in its start-up state, the speed is 1, the last shot
      is at time 0 and the in-game key is dropped. Of the command line only the write index
      returns to 0: the pending letter and the digits already typed stay. Nothing else
      changes, and the release of all lists that follows finds nothing to release. */
  function Restart(s: GameState, past: Entity): (r: GameState)
    requires ValidState(s)
    ensures ValidState(r)
    ensures r.shield == ShieldLife && r.score == 0 && r.ship == s.ship.(x := 38)
    ensures r.plasmas == s.plasmas.(count := 0) && r.asteroids == s.asteroids.(count := 0)
    ensures r.boulders == s.boulders.(count := 0) && r.fragments == s.fragments.(count := 0)
    ensures r.speed == 1.0 && r.plasmaTimer == 0.0 && r.paused && r.firstStart
    ensures r.line == s.line.(counter := 0, ingame := Idle)
    ensures r == s.(ship := r.ship, plasmas := r.plasmas, asteroids := r.asteroids, boulders := r.boulders,
                    fragments := r.fragments, score := r.score, shield := r.shield, speed := r.speed,
                    plasmaTimer := r.plasmaTimer, paused := r.paused, firstStart := r.firstStart, line := r.line)
  {
    var t := s.(ship := s.ship.(x := 38), shield := ShieldLife, score := 0,
                plasmas := s.plasmas.(count := 0), asteroids := s.asteroids.(count := 0),
                boulders := s.boulders.(count := 0), fragments := s.fragments.(count := 0),
                plasmaTimer := 0.0, speed := 1.0, paused := true, firstStart := true,
                line := s.line.(counter := 0, ingame := Idle));
    ReleaseNoop(t.plasmas, PlasmaRule, past);
    ReleaseNoop(t.asteroids, RockRule, past);
    ReleaseNoop(t.boulders, RockRule, past);
    ReleaseNoop(t.fragments, RockRule, past);
    t.(plasmas := Release(t.plasmas, PlasmaRule, past), asteroids := Release(t.asteroids, RockRule, past),
       boulders := Release(t.boulders, RockRule, past), fragments := Release(t.fragments, RockRule, past))
  }

  /** `restart_game` zeroes `overflow_counter`, so the clock starts again from 0 once the new
      game runs, but it keeps `o_timer` and `m_timer`: an 'o' or 'm' override given at time
      `at` in the last game keeps the potentiometers out of the new one until the new clock
      passes `at + 1`. */
  lemma OverridesOutliveRestart(s: GameState, past: Entity, clock: real, leftAdc: nat, rightAdc: nat)
    requires ValidState(s) && s.aim.override != -1.0 && s.mTimer != -1.0
    requires clock <= s.aim.override + 1.0 && clock <= s.mTimer + 1.0
    ensures Restart(s, past).aim == s.aim && Restart(s, past).mTimer == s.mTimer
    ensures SetCannonAngle(Restart(s, past).aim, clock, leftAdc) == s.aim
    ensures SetSpeed(Restart(s, past).speed, Restart(s, past).mTimer, clock, rightAdc) == (1.0, s.mTimer)
  {
  }

  /** The middle of `do_all`, from `set_cannon_angle` to `draw_spaceship`: aim, move the
      asteroids, fire, steer the ship, move and release the bolts, move and release the
      boulders and fragments, release the asteroids and place the cannon tip. The shield only
      loses lives; the score, the pause, the clock and the pending command stay. */
  function Move(s: GameState, input: Inputs, env: Env): (r: GameState)
    requires ValidState(s)
    ensures ValidState(r)
    ensures r.shield <= s.shield
    ensures r.score == s.score && r.paused == s.paused && r.firstStart == s.firstStart
    ensures r.time == s.time && r.mode == s.mode && r.leds == s.leds
    ensures r.line == s.line || r.line == s.line.(ingame := Idle)
  {
    Drop(Steer(s, input, env), env)
  }

  /** The first half of `Move`, to `release_plasma`: aim, move the asteroids (not yet
      released), fire, steer the ship, move and release the bolts. */
  function Steer(s: GameState, input: Inputs, env: Env): (r: GameState)
    requires ValidState(s)
    ensures ValidState(r)
    ensures r.shield <= s.shield
    ensures r.score == s.score && r.paused == s.paused && r.firstStart == s.firstStart
    ensures r.time == s.time && r.mode == s.mode && r.leds == s.leds
    ensures r.line == s.line || r.line == s.line.(ingame := Idle)
  {
    var aim := SetCannonAngle(s.aim, s.time, input.leftPot);
    var (asteroids, shield1) := UpdateAsteroids(s.asteroids, s.shield, s.time, s.paused, s.speed);
    var up := input.buttons.up || s.line.ingame == 'w';
    var shot := FireCannon(s.plasmas, up, s.time, s.plasmaTimer, s.paused, s.cx, s.cy, aim.turret, env.sinDeg, env.cosDeg);
    var line := if shot.fired then s.line.(ingame := Idle) else s.line;
    var left := input.buttons.left || line.ingame == 'a';
    var right := input.buttons.right || line.ingame == 'd';
    var redraw := !ValidHeading(s.ship.angle);
    var ship := UpdateShip(s.ship, s.cx, s.paused, left, right, if redraw then env.rand(s.drawn) else 0);
    var plasmas := Release(UpdatePlasmas(shot.bolts, s.paused, env.sinDeg, env.cosDeg), PlasmaRule, env.past);
    s.(ship := ship, plasmas := plasmas, asteroids := asteroids, shield := shield1, aim := aim,
       plasmaTimer := shot.timer, line := line, drawn := if redraw then s.drawn + 1 else s.drawn)
  }

  /** The second half of `Move`: move and release the boulders and fragments, release the
      asteroids and place the cannon tip. */
  function Drop(s: GameState, env: Env): (r: GameState)
    requires ValidState(s)
    ensures ValidState(r)
    ensures r.shield <= s.shield
    ensures r.score == s.score && r.paused == s.paused && r.firstStart == s.firstStart
    ensures r.time == s.time && r.mode == s.mode && r.leds == s.leds && r.line == s.line
  {
    var (boulders, shield2) := UpdateRocks(BoulderRock, s.boulders, s.shield, s.paused, s.speed, env.sinDeg, env.cosDeg);
    var (fragments, shield3) := UpdateRocks(FragmentRock, s.fragments, shield2, s.paused, s.speed, env.sinDeg, env.cosDeg);
    var tip := CannonTip(s.ship.x, s.aim.turret, env.sinDeg, env.cosDeg);
    s.(cx := tip.0, cy := tip.1, asteroids := Release(s.asteroids, RockRule, env.past),
       boulders := Release(boulders, RockRule, env.past), fragments := Release(fragments, RockRule, env.past),
       shield := shield3)
  }

  /** The end of a pass once the game goes on: `send_controls` drops the in-game key,
      `get_command` reads one character, `setSpeed` reads the right potentiometer, and
      `restart_game(false)` restarts on the left button or an 'r'. */
  function Resume(s: GameState, input: Inputs, env: Env): (r: GameState)
    requires ValidState(s)
    ensures ValidState(r)
    ensures r.mode == s.mode
    ensures input.buttons.lb ==>
              r.score == 0 && r.shield == ShieldLife && r.paused && r.firstStart
              && r.plasmas.count == 0 && r.asteroids.count == 0 && r.boulders.count == 0 && r.fragments.count == 0
  {
    var t := Command(s.(line := s.line.(ingame := Idle)), input.c);
    var (speed, mTimer) := SetSpeed(t.speed, t.mTimer, t.time, input.rightPot);
    var u := t.(speed := speed, mTimer := mTimer);
    if input.buttons.lb || u.line.ingame == 'r' then Restart(u, env.past) else u
  }

  /** The start of a pass while playing: `update_time` (the clock moves only while the game
      runs), `collision_detection`, then `set_pause`, `led_warning` and `respawn_asteroid`.
      The shield is untouched and the score only grows; the pause toggles exactly on the
      centre button or a 'p'; a placement loop can only start when a wave is due. */
  function Front(s: GameState, input: Inputs, env: Env): (r: GameState)
    requires ValidState(s) && s.mode == Playing
    ensures ValidState(r)
    ensures r.mode == Playing || r.mode == Redrawing
    ensures !WaveDue(s.asteroids, s.boulders, s.fragments) ==> r.mode == Playing
    ensures r.shield == s.shield && r.score >= s.score
    ensures r.paused != s.paused <==> input.buttons.centre || s.line.ingame == 'p'
    ensures r.line == s.line || r.line == s.line.(ingame := Idle)
  {
    var s1 := if s.paused then s else s.(time := input.clock);
    var s2 := Collide(s1, env.rand);
    var s3 := SetPause(s2, input.buttons.centre);
    var s4 := Warn(s3, env);
    if s4.mode == Redrawing then s4 else Respawn(s4, env)
  }

  /** The end of a pass while playing, from `game_over` on: with the shield used up the pass
      stops in the game-over wait, which reaches the menu only while the game runs;
      otherwise the pass finishes. */
  function Conclude(s: GameState, input: Inputs, env: Env): (r: GameState)
    requires ValidState(s) && s.mode == Playing
    ensures ValidState(r) && Consistent(r)
    ensures s.shield <= 0 ==> r.mode == (if s.paused then Frozen else Over)
    ensures s.shield > 0 ==> r.mode == Playing
    ensures r.mode == Playing && input.buttons.lb ==>
              r.score == 0 && r.shield == ShieldLife && r.paused && r.firstStart
              && r.plasmas.count == 0 && r.asteroids.count == 0 && r.boulders.count == 0 && r.fragments.count == 0
  {
    if s.shield <= 0 then s.(mode := if s.paused then Frozen else Over)
    else Resume(s, input, env)
  }

  /** A pass of the game loop while playing: the start of the pass, then the rest of
      `do_all`; `game_quit` leaves for good on 'q' or the right button. A pass that goes on
      with the left button down ends restarted. */
  function Play(s: GameState, input: Inputs, env: Env): (r: GameState)
    requires ValidState(s) && s.mode == Playing
    ensures ValidState(r) && Consistent(r)
    ensures r.mode == Playing && input.buttons.lb ==>
              r.score == 0 && r.shield == ShieldLife && r.paused && r.firstStart
              && r.plasmas.count == 0 && r.asteroids.count == 0 && r.boulders.count == 0 && r.fragments.count == 0
  {
    var f := Front(s, input, env);
    if f.mode == Redrawing then f
    else if f.line.ingame == 'q' || input.buttons.rb then f.(mode := Quit)
    else Conclude(Move(f, input, env), input, env)
  }

  /** One pass of the game-over menu loop: the left button, or an 'r' read by the first
      `usb_serial_getchar`, restarts and finishes the interrupted `do_all`; otherwise the right
      button, or a 'q' read by the second, quits; otherwise the menu stays. */
  function OverStep(s: GameState, input: Inputs, env: Env): (r: GameState)
    requires ValidState(s)
    ensures ValidState(r)
  {
    if input.buttons.lb || input.overR == 'r' then Resume(Restart(s, env.past).(mode := Playing), input, env)
    else if input.buttons.rb || input.overQ == 'q' then s.(mode := Quit)
    else s
  }

  /** One pass of the program in whatever mode it is. The lists keep their declared lengths and
      the command line stays well formed; the modes that never return keep the state as it
      is; the menu is only ever reached with the shield used up. */
  function Tick(s: GameState, input: Inputs, env: Env): (r: GameState)
    requires ValidState(s)
    ensures ValidState(r)
    ensures Stuck(s.mode) ==> r == s
    ensures Consistent(s) ==> Consistent(r)
  {
    match s.mode
    case Playing => Play(s, input, env)
    case Over => OverStep(s, input, env)
    case _ => s
  }

  /** The state the loop starts from: the globals at power-up after `setup_canvas` placed the
      first wave. */
  function Launch(env: Env): (r: GameState)
    ensures ValidState(r) && Consistent(r)
    ensures r.mode == Redrawing || (r.mode == Playing && r.asteroids.count == 3)
    ensures r.paused && r.firstStart && r.shield == ShieldLife && r.score == 0
  {
    BootValid();
    Respawn(Boot, env)
  }

  /** A game that is paused when its shield is used up never reaches the menu: the four-second
      wait reads the clock only while the game runs. This happens, for instance, when 'l0' is
      typed before the first unpause. */
  lemma PausedGameOverFreezes(s: GameState, input: Inputs, env: Env)
    requires ValidState(s) && s.mode == Playing && s.paused && s.shield <= 0
    requires !input.buttons.centre && !input.buttons.rb
    requires s.line.ingame != 'p' && s.line.ingame != 'q'
    requires !WaveDue(s.asteroids, s.boulders, s.fragments)
    ensures Tick(s, input, env).mode == Frozen
    ensures Tick(Tick(s, input, env), input, env) == Tick(s, input, env)
  {
    var f := Front(s, input, env);
    assert f.mode == Playing && f.paused && f.shield <= 0 && f.line.ingame != 'q';
    var m := Move(f, input, env);
    assert m.paused && m.shield <= 0;
    assert Tick(s, input, env) == Conclude(m, input, env);
  }

  /** The game-over menu: the pass returns to the game exactly when the left button is down or
      the first character read is 'r', quits exactly when neither holds and the right button
      is down or the second character is 'q', and otherwise leaves everything as it was. A
      return to the game comes paused and, with the left button, with a fresh shield and
      score. */
  lemma OverMenu(s: GameState, input: Inputs, env: Env)
    requires ValidState(s) && s.mode == Over
    ensures Tick(s, input, env).mode == Playing <==> input.buttons.lb || input.overR == 'r'
    ensures Tick(s, input, env).mode == Quit <==>
              !(input.buttons.lb || input.overR == 'r') && (input.buttons.rb || input.overQ == 'q')
    ensures Tick(s, input, env).mode == Over ==> Tick(s, input, env) == s
    ensures Tick(s, input, env).mode == Playing ==> Tick(s, input, env).paused
  {
  }

  /** A 'q' typed on the game-over menu is lost when the first `usb_serial_getchar` of the pass
      reads it: that read only tests for 'r'. */
  lemma QuitKeyReadFirstIsLost(s: GameState, input: Inputs, env: Env)
    requires ValidState(s) && s.mode == Over
    requires input.buttons == NoButtons && input.overR == 'q' && input.overQ == NoInput
    ensures Tick(s, input, env) == s
  {
  }

  /** The left button restarts a running game at the end of the pass: whatever happened before
      in the pass, it ends paused with a full shield, no score and empty lists. */
  lemma RestartButton(s: GameState, input: Inputs, env: Env)
    requires ValidState(s) && s.mode == Playing && input.buttons.lb
    requires Tick(s, input, env).mode == Playing
    ensures var r := Tick(s, input, env);
            r.shield == ShieldLife && r.score == 0 && r.paused && r.firstStart
            && r.asteroids.count == 0 && r.boulders.count == 0 && r.fragments.count == 0 && r.plasmas.count == 0
  {
  }

  /** A restart resets only the write index of the digit buffer: with "l12" typed before it and
      "5" and a carriage return after it, `atoi` reads "52" and the shield becomes 52. */
  lemma RestartKeepsTypedDigits(s: GameState, past: Entity)
    requires ValidState(s) && s.line == Start
    ensures Typing(Restart(Typing(s, "l12"), past), "5\r").shield == 52
  {
    var typed := Line('l', ['1', '2', '\0', '\0', '\0'], 2, false, '\0');
    TypedL12(s);
    var r := Restart(s.(line := typed), past);
    assert r.line == Line('l', ['1', '2', '\0', '\0', '\0'], 0, false, Idle);
    FiveOverTwelve(r);
  }

  /** With "12" left in the digits and the counter back at 0, "5" then CR sets the shield to
      52. */
  lemma FiveOverTwelve(r: GameState)
    requires ValidState(r) && r.line == Line('l', ['1', '2', '\0', '\0', '\0'], 0, false, Idle)
    ensures Typing(r, "5\r").shield == 52
  {
    var d := r.(line := Receive(r.line, '5'));
    assert d.line.digits == ['5', '2', '\0', '\0', '\0'] && d.line.code == 'l';
    assert Typing(r, "5\r") == Command(d, Enter) by {
      assert "5\r"[..1] == "5" && "5"[..0] == [];
    }
    EnterRunsHandler(d);
    DispatchShield(d);
    FiftyTwo();
  }

  lemma TypedL12(s: GameState)
    requires ValidState(s) && s.line == Start
    ensures Typing(s, "l12") == s.(line := Line('l', ['1', '2', '\0', '\0', '\0'], 2, false, '\0'))
  {
    CommandsAreLine(s, "l12");
    LineL12();
  }

  lemma LineL12()
    ensures ReceiveAll(Start, "l12") == Line('l', ['1', '2', '\0', '\0', '\0'], 2, false, '\0')
  {
    assert "l12"[..2] == "l1" && "l1"[..1] == "l" && "l"[..0] == [];
    var a := Receive(Start, 'l');
    assert a == Start.(code := 'l');
    var b := Receive(a, '1');
    assert b.digits == ['1', '\0', '\0', '\0', '\0'];
    assert ReceiveAll(Start, "l1") == b;
  }

  lemma FiftyTwo()
    ensures Atoi(['5', '2', '\0', '\0', '\0']) == 52
  {
    var s := ['5', '2', '\0', '\0', '\0'];
    assert DigitRun(s[2..]) == 0;
    assert DigitRun(s[1..]) == 1;
    assert DigitRun(s) == 2;
    assert s[..2] == ['5', '2'] && s[..2][..1] == ['5'];
  }
}
