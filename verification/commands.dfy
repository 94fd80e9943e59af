/** The handlers of the serial commands that take a number (main.c `l_isPressed` ...
    `i_isPressed`, `game_cheat_with_number`): each runs when a carriage return arrives while
    its letter is pending, and reads its argument with `atoi` from the digit buffer. */
module Commands {
  import opened CRuntime
  import opened Pools
  import opened Motion
  import opened Console
  import opened Detection
  import opened State

  /** The bound of `l` and `g`: a value above 9999 or below 0 becomes 9999. */
  function Capped(v: int): (r: int)
    ensures 0 <= r <= 9999
    ensures 0 <= v <= 9999 ==> r == v
    ensures v > 9999 || v < 0 ==> r == 9999
  {
    if v > 9999 || v < 0 then 9999 else v
  }

  /** `l`: set the shield's remaining life. */
  function SetShield(s: GameState): (r: GameState)
    requires ValidState(s)
    ensures ValidState(r)
    ensures r.shield == Capped(Argument(s.line))
    ensures r.line == Reset(s.line)
    ensures r == s.(shield := r.shield, line := r.line)
  {
    s.(shield := Capped(Argument(s.line)), line := Reset(s.line))
  }

  /** `g`: set the score. */
  function SetScore(s: GameState): (r: GameState)
    requires ValidState(s)
    ensures ValidState(r)
    ensures r.score == Capped(Argument(s.line))
    ensures r.line == Reset(s.line)
    ensures r == s.(score := r.score, line := r.line)
  {
    s.(score := Capped(Argument(s.line)), line := Reset(s.line))
  }

  /** `h`: move the ship to a column, clamped to [0, `LCD_X - 6`]. */
  function MoveShip(s: GameState): (r: GameState)
    requires ValidState(s)
    ensures ValidState(r)
    ensures 0 <= r.ship.x <= 78
    ensures 0 <= Argument(s.line) <= 78 ==> r.ship.x == Argument(s.line)
    ensures Argument(s.line) > 78 ==> r.ship.x == 78
    ensures Argument(s.line) < 0 ==> r.ship.x == 0
    ensures r == s.(ship := s.ship.(x := r.ship.x), line := Reset(s.line))
  {
    var v := Argument(s.line);
    var x := if v > 78 then 78 else if v < 0 then 0 else v;
    s.(ship := s.ship.(x := x), line := Reset(s.line))
  }

  /** `m`: set the speed to the argument clamped to [0, 1023], over 1023, and hold it against
      the potentiometer from now on for a second. */
  function SetGameSpeed(s: GameState): (r: GameState)
    requires ValidState(s)
    ensures ValidState(r)
    ensures 0.0 <= r.speed <= 1.0
    ensures 0 <= Argument(s.line) <= 1023 ==> r.speed * 1023.0 == Argument(s.line) as real
    ensures Argument(s.line) > 1023 ==> r.speed == 1.0
    ensures Argument(s.line) < 0 ==> r.speed == 0.0
    ensures r == s.(speed := r.speed, mTimer := s.time, line := Reset(s.line))
  {
    var v := Argument(s.line);
    var b := if v > 1023 then 1023 else if v < 0 then 0 else v;
    s.(speed := b as real / 1023.0, mTimer := s.time, line := Reset(s.line))
  }

  /** `o`: aim the turret at the argument, at most 60 degrees, to the left when a '-' came
      with it; hold it against the potentiometer for a second; forget the sign. Only the upper
      bound is applied, so an argument that wrapped to a negative `int` is used as it is. */
  function SetTurret(s: GameState): (r: GameState)
    requires ValidState(s)
    ensures ValidState(r)
    ensures r.aim.override == s.time
    ensures 0 <= Argument(s.line) ==> -60.0 <= r.aim.turret <= 60.0
    ensures -(IntMax as real) - 1.0 <= r.aim.turret <= -(IntMin as real)
    ensures Argument(s.line) <= 60 ==>
              r.aim.turret == (if s.line.negative then -(Argument(s.line) as real) else Argument(s.line) as real)
    ensures Argument(s.line) > 60 ==> r.aim.turret == (if s.line.negative then -60.0 else 60.0)
    ensures r.line == Reset(s.line).(negative := false)
    ensures r == s.(aim := r.aim, line := r.line)
  {
    var v := Argument(s.line);
    var b: real := if v > 60 then 60.0 else v as real;
    s.(aim := Aim(if s.line.negative then -b else b, s.time), line := Reset(s.line.(negative := false)))
  }

  /** The argument is an `int` of 16 bits, and every bound is applied after it wrapped: after
      "70000" `l` and `g` set 4464; after "40000" (read as -25536) `h` puts the ship at column
      0, `o` aims the turret at -25536 degrees, and a placement stays in its first stage; after
      "65535" (read as -1) `m` stops the game. */
  lemma FiveDigitArguments(s: GameState, k: Kind)
    requires ValidState(s)
    ensures Atoi(s.line.digits) == 70000 ==> SetShield(s).shield == 4464 && SetScore(s).score == 4464
    ensures Atoi(s.line.digits) == 40000 ==> MoveShip(s).ship.x == 0
    ensures Atoi(s.line.digits) == 40000 && !s.line.negative ==> SetTurret(s).aim.turret == -25536.0
    ensures Atoi(s.line.digits) == 40000 && s.cheatX < 0 ==> Place(s, k).cheatX < 0
    ensures Atoi(s.line.digits) == 65535 ==> SetGameSpeed(s).speed == 0.0
  {
  }

  /** The list a placement command writes into. */
  function PoolOf(s: GameState, k: Kind): Pool {
    match k
    case AsteroidKind => s.asteroids
    case BoulderKind => s.boulders
    case FragmentKind => s.fragments
  }

  function WithPool(s: GameState, k: Kind, p: Pool): (r: GameState)
    ensures PoolOf(r, k) == p
    ensures forall k' :: k' != k ==> PoolOf(r, k') == PoolOf(s, k')
  {
    match k
    case AsteroidKind => s.(asteroids := p)
    case BoulderKind => s.(boulders := p)
    case FragmentKind => s.(fragments := p)
  }

  /** The capacity each placement checks: 3 asteroids, 6 boulders, 12 fragments. */
  function Capacity(k: Kind): (n: nat)
    ensures n == MaxAsteroid || n == MaxBoulder || n == MaxFragment
  {
    match k
    case AsteroidKind => MaxAsteroid
    case BoulderKind => MaxBoulder
    case FragmentKind => MaxFragment
  }

  lemma CapacityFits(s: GameState, k: Kind)
    requires ValidState(s)
    ensures Capacity(k) <= |PoolOf(s, k).slots| && ValidPool(PoolOf(s, k))
  {
  }

  /** A placed x is written only when the object fits: asteroids need `0 <= x < LCD_X - 6`,
      boulders `0 <= x < LCD_X - 4`; fragments are written unconditionally. */
  predicate XFits(k: Kind, x: int) {
    match k
    case AsteroidKind => 0 <= x < 78
    case BoulderKind => 0 <= x < 80
    case FragmentKind => true
  }

  /** A placed y is written only above the shield: asteroids need `y + 7 < SHIELD_Y`, boulders
      `y + 5 < SHIELD_Y`; fragments are written unconditionally. */
  predicate YFits(k: Kind, y: int) {
    match k
    case AsteroidKind => y + 7 < 39
    case BoulderKind => y + 5 < 39
    case FragmentKind => true
  }

  /** `j`, `k` and `i`. The first carriage return stores X and keeps the command pending with a
      clean buffer; the second stores Y and, if the list has room, writes the coordinates that
      fit into the next slot (which otherwise keeps what it held) and counts it. Either way
      the pair and the command are then dropped. With both coordinates already given the
      handler does nothing, which the two stages never leave behind. */
  function Place(s: GameState, k: Kind): (r: GameState)
    requires ValidState(s)
    ensures ValidState(r)
    ensures r == s.(asteroids := r.asteroids, boulders := r.boulders, fragments := r.fragments,
                    cheatX := r.cheatX, cheatY := r.cheatY, line := r.line)
    ensures r.line.ingame == s.line.ingame
  {
    CapacityFits(s, k);
    var v := Argument(s.line);
    if s.cheatX < 0 then s.(cheatX := v, line := Clean(s.line))
    else if s.cheatY < 0 then
      var p := PoolOf(s, k);
      var after := if k == FragmentKind then Reset(s.line) else Reset(Clean(s.line));
      if p.count < Capacity(k) then
        var e := p.slots[p.count];
        var e' := e.(x := if XFits(k, s.cheatX) then s.cheatX as real else e.x,
                     y := if YFits(k, v) then v as real else e.y);
        WithPool(s, k, Pool(p.slots[p.count := e'], p.count + 1)).(line := after, cheatX := -1, cheatY := -1)
      else s.(cheatX := -1, cheatY := -1, line := Reset(Clean(s.line)))
    else s
  }

  /** The first carriage return of a placement stores X and keeps the command pending. */
  lemma PlaceFirstStage(s: GameState, k: Kind)
    requires ValidState(s) && s.cheatX < 0
    ensures Place(s, k).cheatX == Argument(s.line)
    ensures Place(s, k).line.code == s.line.code && Place(s, k).line.counter == 0
    ensures forall k' :: PoolOf(Place(s, k), k') == PoolOf(s, k')
  {
  }

  /** The second carriage return with room in the list: exactly one more object, whose
      coordinates are those given when they fit and otherwise what the slot held; the pair and
      the command are dropped and the other lists are untouched. */
  lemma PlaceSecondStage(s: GameState, k: Kind)
    requires ValidState(s) && s.cheatX >= 0 && s.cheatY < 0
    requires PoolOf(s, k).count < Capacity(k)
    ensures var r := Place(s, k);
            var p := PoolOf(s, k);
            var q := PoolOf(r, k);
            var e := p.slots[p.count];
            q.count == p.count + 1 && |q.slots| == |p.slots|
            && q.slots[..p.count] == p.slots[..p.count]
            && q.slots[p.count].x == (if XFits(k, s.cheatX) then s.cheatX as real else e.x)
            && q.slots[p.count].y == (if YFits(k, Argument(s.line)) then Argument(s.line) as real else e.y)
            && q.slots[p.count].angle == e.angle
            && r.cheatX == -1 && r.cheatY == -1 && r.line.code == Idle
            && forall k' :: k' != k ==> PoolOf(r, k') == PoolOf(s, k')
  {
    CapacityFits(s, k);
  }

  /** The second carriage return with the list full cancels: nothing is placed, the pair and
      the command are dropped. */
  lemma PlaceFull(s: GameState, k: Kind)
    requires ValidState(s) && s.cheatX >= 0 && s.cheatY < 0
    requires PoolOf(s, k).count >= Capacity(k)
    ensures var r := Place(s, k);
            (forall k' :: PoolOf(r, k') == PoolOf(s, k'))
            && r.cheatX == -1 && r.cheatY == -1 && r.line.code == Idle && r.line.counter == 0
  {
  }

  /** `game_cheat_with_number`: run the handler of the pending letter. 't' is accepted as a
      command letter but has no case here, so nothing happens for it. */
  function Dispatch(s: GameState): (r: GameState)
    requires ValidState(s)
    ensures ValidState(r)
    ensures r.mode == s.mode && r.paused == s.paused && r.time == s.time && r.line.ingame == s.line.ingame
  {
    match s.line.code
    case 'm' => SetGameSpeed(s)
    case 'o' => SetTurret(s)
    case 'l' => SetShield(s)
    case 'g' => SetScore(s)
    case 'h' => MoveShip(s)
    case 'j' => Place(s, AsteroidKind)
    case 'k' => Place(s, BoulderKind)
    case 'i' => Place(s, FragmentKind)
    case _ => s
  }

  /** Every handler that finishes drops the pending command; one that does not is the first
      stage of a placement, which keeps it. */
  lemma DispatchSettles(s: GameState)
    requires ValidState(s) && Console.Pending(s.line.code) && s.line.code != 't'
    requires s.line.code in {'j', 'k', 'i'} ==> s.cheatX >= 0 && s.cheatY < 0
    ensures Dispatch(s).line.code == Idle && Dispatch(s).line.counter == 0
  {
  }

  /** `get_command` with the dispatch: receive one character and, on a carriage return, run
      the pending handler. */
  function Command(s: GameState, c: char): (r: GameState)
    requires ValidState(s)
    ensures ValidState(r)
    ensures r.mode == s.mode && r.paused == s.paused && r.time == s.time
    ensures r.line.ingame == s.line.ingame || (InGame(c) && r.line.ingame == c)
  {
    var s' := s.(line := Receive(s.line, c));
    if c == Enter then Dispatch(s') else s'
  }

  /** A pending 't' is never cleared by the command line: every character either leaves the
      letter in place or, being a carriage return, reaches a dispatch with no case for it. */
  lemma TurretLetterSticks(s: GameState, c: char)
    requires ValidState(s) && s.line.code == 't'
    ensures Command(s, c).line.code == 't'
    ensures Command(s, c).shield == s.shield && Command(s, c).score == s.score
  {
  }

  /** Characters typed one after the other. */
  function Typing(s: GameState, cs: seq<char>): (r: GameState)
    requires ValidState(s)
    ensures ValidState(r)
    decreases |cs|
  {
    if |cs| == 0 then s else Command(Typing(s, cs[..|cs| - 1]), cs[|cs| - 1])
  }

  /** Once 't' is pending no typed character ever clears it, and digits pile up in the buffer
      without bound: every digit typed advances the write index by one. */
  lemma {:induction false} TurretLetterSticksForever(s: GameState, cs: seq<char>)
    requires ValidState(s) && s.line.code == 't'
    ensures Typing(s, cs).line.code == 't'
    ensures Typing(s, cs).line.counter >= s.line.counter
    ensures AllDigits(cs) ==> Typing(s, cs).line.counter == s.line.counter + |cs|
    decreases |cs|
  {
    if |cs| > 0 {
      var cs' := cs[..|cs| - 1];
      TurretLetterSticksForever(s, cs');
      if AllDigits(cs) {
        assert AllDigits(cs');
        assert IsDigit(cs[|cs| - 1]);
      }
    }
  }

  /** Typing "l", a number of at most four digits and a carriage return on an idle line sets
      the shield to that number. */
  lemma ShieldCommand(s: GameState, n: nat)
    requires ValidState(s) && s.line.code == Idle && s.line.counter == 0 && s.line.digits[..5] == Blank
    requires n <= 9999
    ensures Typing(s, ['l'] + Itoa(n) + [Enter]).shield == n
  {
    var cs := ['l'] + Itoa(n) + [Enter];
    var s1 := Command(s, 'l');
    LetterStarts(s, 'l');
    var s2 := s1.(line := ReceiveAll(s1.line, Itoa(n)));
    TypedDigits(s, s1, n);
    assert cs[..|cs| - 1] == ['l'] + Itoa(n);
    assert Typing(s, cs) == Command(s2, Enter);
    ReceiveDigits(s1.line, Itoa(n));
    TypedNumber(s1.line, n);
    EnterRunsHandler(s2);
    DispatchShield(s2);
  }

  /** A command letter on an idle line becomes pending and touches nothing else. */
  lemma LetterStarts(s: GameState, c: char)
    requires ValidState(s) && s.line.code == Idle && Accept(c)
    ensures Typing(s, [c]) == Command(s, c) == s.(line := s.line.(code := c))
  {
    assert [c][..0] == [];
  }

  lemma TypedDigits(s: GameState, s1: GameState, n: nat)
    requires ValidState(s) && ValidState(s1) && s1 == Typing(s, ['l'])
    ensures Typing(s, ['l'] + Itoa(n)) == s1.(line := ReceiveAll(s1.line, Itoa(n)))
  {
    assert Enter !in Itoa(n) by {
      forall i | 0 <= i < |Itoa(n)| ensures Itoa(n)[i] != Enter {
        assert IsDigit(Itoa(n)[i]);
      }
    }
    CommandsAreLine(s1, Itoa(n));
    CommandsSplit(s, ['l'], Itoa(n));
  }

  lemma DispatchShield(s: GameState)
    requires ValidState(s) && s.line.code == 'l'
    ensures Dispatch(s).shield == Capped(Argument(s.line))
  {
  }

  /** A carriage return leaves the buffer as it is and runs the pending handler. */
  lemma EnterRunsHandler(s: GameState)
    requires ValidState(s)
    ensures Command(s, Enter) == Dispatch(s)
  {
    IgnoredLeavesLine(s.line, Enter);
  }

  /** Characters without a carriage return only feed the command line. */
  lemma {:induction false} CommandsAreLine(s: GameState, cs: seq<char>)
    requires ValidState(s) && Enter !in cs
    ensures Typing(s, cs) == s.(line := ReceiveAll(s.line, cs))
    decreases |cs|
  {
    if |cs| > 0 {
      CommandsAreLine(s, cs[..|cs| - 1]);
    }
  }

  lemma {:induction false} CommandsSplit(s: GameState, a: seq<char>, b: seq<char>)
    requires ValidState(s)
    ensures Typing(s, a + b) == Typing(Typing(s, a), b)
    decreases |b|
  {
    if |b| == 0 {
      assert a + b == a;
    } else {
      assert (a + b)[..|a + b| - 1] == a + b[..|b| - 1];
      CommandsSplit(s, a, b[..|b| - 1]);
    }
  }
}
