/** The global state of main.c gathered into one record, and the inputs one pass of the main
    loop reads. */
module State {
  import opened Pools
  import opened Motion
  import opened Console
  import opened Waves

  /** Where the program is: in the game loop; waiting on the game-over menu; in the
      `quit_game` loop (which never returns); still redrawing asteroid columns inside
      `spawn_asteroid` when the draws allowed ran out; or in the four-second wait of
      `game_over` with the game paused, where the clock is never read again. */
  datatype Mode = Playing | Over | Quit | Redrawing | Frozen

  /** The globals of main.c that the game rules read or write. `time` is the game clock in
      seconds; `plasmaTimer` the time of the last shot; `speed` and `mTimer` the speed and
      the time of the last 'm' command (-1 when none); `cheatX`/`cheatY` the two-stage
      coordinates of j, k and i (-1 when not yet given); `drawn` counts the `rand()` draws
      used so far. */
  datatype GameState = GameState(
    ship: Ship, cx: real, cy: real,
    plasmas: Pool, asteroids: Pool, boulders: Pool, fragments: Pool,
    score: int, shield: int,
    aim: Aim, speed: real, mTimer: real,
    time: real, plasmaTimer: real,
    paused: bool, firstStart: bool,
    leds: Leds,
    line: Line, cheatX: int, cheatY: int,
    drawn: nat, mode: Mode)

  /** Every list keeps at least its declared length and a counter within it, and the command
      line is well formed. */
  predicate ValidState(s: GameState) {
    ValidPool(s.plasmas) && |s.plasmas.slots| >= MaxPlasma
    && ValidPool(s.asteroids) && |s.asteroids.slots| >= MaxAsteroid
    && ValidPool(s.boulders) && |s.boulders.slots| >= MaxBoulder
    && ValidPool(s.fragments) && |s.fragments.slots| >= MaxFragment
    && ValidLine(s.line)
  }

  /** `SHIELD_LIFE`. */
  const ShieldLife: int := 5

  /** The globals as the program starts, before the introduction and the first wave: the ship
      at column 38 heading right, the cannon tip at (40, 40), paused, full shield. */
  const Boot: GameState := GameState(
    Ship(38, 0), 40.0, 40.0,
    EmptyPool(MaxPlasma), EmptyPool(MaxAsteroid), EmptyPool(MaxBoulder), EmptyPool(MaxFragment),
    0, ShieldLife,
    Aim(0.0, -1.0), 1.0, -1.0,
    0.0, 0.0,
    true, true,
    Leds(0, 0, 0),
    Start, -1, -1,
    0, Playing)

  lemma BootValid()
    ensures ValidState(Boot)
  {
  }

  /** The switches and joystick directions read in one pass: the joystick centre (PINB0),
      left (PINB1), right (PIND0), up (PIND1) and down (PINB7), and the left (PINF6) and right
      (PINF5) buttons. */
  datatype Buttons = Buttons(centre: bool, left: bool, right: bool, up: bool, down: bool, lb: bool, rb: bool)

  const NoButtons := Buttons(false, false, false, false, false, false, false)

  /** One pass of the main loop: the switches, the clock reading `update_time` would make, the
      two potentiometers (`adc_read(0)` and `adc_read(1)`), the character `get_command` reads,
      and, on the game-over screen, the two characters the wait loop reads. */
  datatype Inputs = Inputs(buttons: Buttons, clock: real, leftPot: nat, rightPot: nat,
                           c: char, overR: char, overQ: char)
}
