# Asteroid Apocalypse, modelled in Dafny

"Asteroid Apocalypse" is a game for the Teensy and its 84 x 48 LCD. A ship at the bottom of
the screen shields the planet from waves of three asteroids. It fires plasma bolts from a
turret. A hit breaks an asteroid into two boulders, and a boulder into two fragments. Every
rock that reaches the deflector shield costs one of its five lives. The game can be driven
from a computer over the USB serial line. Single keys steer, fire, pause, restart, quit and
ask for the status or the controls. Commands made of a letter, a number and a carriage return
set the shield, the score, the speed or the turret, move the ship, or place objects.

This project models:

- the parts of the `cab202_teensy` library the game uses: the bit macros, the screen buffer,
  `draw_pixel`, `draw_line`, `draw_char` and `draw_string`;
- the game rules of `main.c`: the object lists and their compaction, collision tests, wave
  placement and the LED warning, motion, firing, the pause, restart, game over and the
  game-over menu;
- the serial command line of `main.c` and what the program sends back;
- the older `cab202_adc/main.c`, only where it differs: `pixel_collision` returning `int`,
  the LED classification of a wave, `led_flash`, `restart_game`, `set_pause`, bolt speed
  scaling and the help text with " – " separators.

The C globals form one record, `State.GameState`. Each C function is a pure function from a
state to a state. A pass of the main loop is `Game.Tick`. Inputs the program reads from
hardware arrive as parameters instead: switches, potentiometers, serial characters, clock
readings, `rand()` draws, and `sin`/`cos`.

The modules follow the program's structure:

| module | models |
|---|---|
| `CRuntime` | `double` to `int` truncation, `round`, `atoi`, `itoa`, unchecked array stores |
| `Macros` | `macros.h` |
| `Graphics` | the screen buffer, colours, `clear_screen`, `draw_pixel` |
| `Line` | `draw_line` |
| `Text` | `draw_char`, `draw_string` |
| `Shapes` | the bitmaps, `pixel_collision`, `draw_pixels` |
| `Pools` | the object lists, their release passes, `spawn_boulders`, `spawn_fragment` |
| `Detection` | the hit tests and `collision_detection` |
| `Motion` | the asteroids, boulders, fragments, bolts and ship moving; the turret, speed and firing |
| `Console` | the character side of `get_command`, `clean_char_list`, `reset_char` |
| `Waves` | `spawn_asteroid`, `respawn_asteroid`, `led_warning` |
| `State` | the globals and the per-pass inputs |
| `Commands` | the handlers of `game_cheat_with_number` and the full `get_command` |
| `Game` | `set_pause`, `restart_game`, `game_over`, `game_quit`, `do_all`, `main` |
| `Report` | `send_to`, `send_time`, the status report, the messages, `send_controls` |
| `Prototype` | what `cab202_adc/main.c` does differently |

## Model

| member | source | states |
|---|---|---|
| CRuntime.TruncToInt | main.c:524-526 | converting a `double` to `int` truncates toward zero: the result is within one of the value, never above it for non-negative values and never below it for negative ones |
| CRuntime.TruncIsNotFloor | main.c:524-526 | that conversion differs from rounding down: -0.5 becomes 0, not -1 |
| CRuntime.Round | main.c:439-445 | `round` returns the nearest integer, with halves rounded away from zero |
| CRuntime.DigitChar | main.c:1329-1345 | every decimal digit has a character that reads back as it |
| CRuntime.DigitRun | main.c:1297-1324 | `atoi` stops after the leading digits, at the first character that is not a digit |
| CRuntime.Atoi | main.c:1297-1324 | the value of the buffer's leading digits is below 10 to the number of those digits, and 0 when there are none |
| CRuntime.Int16 | main.c:1105 | a value stored in a 16-bit `int` lands in [-32768, 32767] and differs from the value by a multiple of 65536; a value already in range is kept |
| CRuntime.Int16Unique | main.c:1105 | that stored value is the only `int` in range congruent to the value modulo 65536 |
| CRuntime.Int16Step | main.c:1105 | wrapping after each step of `10 * n + d` ends where wrapping once at the end does |
| CRuntime.WrappedDecimalWraps | main.c:1105 | `atoi`'s digit loop, computed in a 16-bit `int`, yields the digits' value wrapped once into an `int` |
| CRuntime.AtoiInt | main.c:1105 | `atoi` of the buffer is an `int` of 16 bits: the leading digits' value when it is at most 32767, and that value wrapped modulo 65536 above it |
| CRuntime.Itoa | main.c:870-876 | `itoa` writes only digits, behind a '-' exactly when the number is negative |
| CRuntime.AtoiItoa | main.c:870-876 | `atoi` reads back what `itoa` wrote, also when it is followed by its NUL |
| CRuntime.Put | main.c:1329-1345 | an unchecked array store changes only element k; a store one past the end grows the array |
| Macros.SetBit | cab202_teensy/macros.h:24 | `SET_BIT` sets bit `pin` and keeps the other seven |
| Macros.ClearBit | cab202_teensy/macros.h:25 | `CLEAR_BIT` clears bit `pin` and keeps the other seven |
| Macros.WriteBit | cab202_teensy/macros.h:26 | `WRITE_BIT` with a value of 0 or 1 writes that bit and keeps the others |
| Macros.WriteBitIsSetOrClear | cab202_teensy/macros.h:24-26 | writing 1 is setting the bit and writing 0 is clearing it |
| Macros.SetInput | cab202_teensy/macros.h:15 | `SET_INPUT` clears the direction bit and keeps the other seven |
| Macros.SetOutput | cab202_teensy/macros.h:16 | `SET_OUTPUT` sets the direction bit and keeps the other seven |
| Macros.ComplementFlipsBits | cab202_teensy/macros.h:25 | `~reg` flips every bit tested by `BIT_IS_SET` |
| Macros.BitsDetermineRegister | cab202_teensy/macros.h:27-28 | two registers agreeing on every `BIT_VALUE` are equal |
| Macros.Abs | cab202_teensy/macros.h:33 | `ABS` is non-negative and equals the argument or its negation |
| Macros.RealAbs | cab202_teensy/macros.h:33 | the same for a floating-point argument |
| Macros.Sign | cab202_teensy/macros.h:34 | `SIGN` is -1, 0 or 1, zero exactly for zero, and times `ABS` gives back the argument |
| Graphics.ColourCode | cab202_teensy/graphics.h:29-32 | background is code 0 and foreground code 1 |
| Graphics.ColourOfCode | cab202_teensy/graphics.c:70-77 | any non-zero code draws in foreground |
| Graphics.ColourCodeRoundTrip | cab202_teensy/graphics.h:29-32 | a colour's code maps back to that colour |
| Graphics.PixelIndex | cab202_teensy/graphics.c:66-72 | every on-screen pixel's byte lies inside the 504-byte buffer |
| Graphics.PixelPlacesDistinct | cab202_teensy/graphics.c:66-72 | distinct pixels are stored in distinct (byte, bit) places |
| Graphics.ClearScreen | cab202_teensy/graphics.c:42-47 | every byte is zero, so every pixel reads as background |
| Graphics.DrawPixel | cab202_teensy/graphics.c:59-78 | an off-screen pixel is ignored; an on-screen one gets the colour, and no other byte or bit changes |
| Graphics.DrawPixelFrame | cab202_teensy/graphics.c:59-78 | drawing one pixel leaves every other pixel's colour as it was |
| Graphics.ScreensEqual | cab202_teensy/graphics.h:17-22 | two screens whose pixels all agree are the same buffer |
| Graphics.Paint | cab202_teensy/graphics.c:59-78 | after a run of `draw_pixel` calls, each pixel shows the last dot drawn on it, or its old colour |
| Graphics.PaintAppend | cab202_teensy/graphics.c:59-78 | painting two runs is painting the first and then the second over it |
| Graphics.InkUniform | cab202_teensy/graphics.c:59-78 | dots of one colour colour exactly the positions they touch |
| Graphics.PaintUniformBySet | cab202_teensy/graphics.c:59-78 | one-colour drawing depends only on the set of positions, not on their order or repetition |
| Line.Walk | cab202_teensy/graphics.c:91-101 | the vertical and horizontal loops visit every integer from one end to the other, stepping toward the far end |
| Line.WalkCovers | cab202_teensy/graphics.c:91-101 | whichever way the walk goes, it visits exactly the integers between its ends |
| Line.Steps | cab202_teensy/graphics.c:124-128 | the inner loop runs while the error is at least one half and the far end is not passed, and stops at the first step that fails |
| Line.SweepWithin | cab202_teensy/graphics.c:121-129 | every pixel of the general case lies in the remaining columns, has the line's colour, and lies between the current row and the far end |
| Line.SweepColumns | cab202_teensy/graphics.c:121-129 | the general case draws in exactly the columns from the current one to the last |
| Line.SweepEnds | cab202_teensy/graphics.c:121-129 | the general case draws the current pixel and reaches the far end in its last column |
| Line.GeneralLine | cab202_teensy/graphics.c:90-131 | a sloped line has one colour, stays between its endpoints' rows, covers exactly the columns between its ends, and draws both endpoints |
| Line.GeneralShape | cab202_teensy/graphics.c:115-129 | the same for the endpoints once they are in left-to-right order |
| Line.VerticalLine | cab202_teensy/graphics.c:91-96 | a vertical line draws exactly the inclusive segment between its ends |
| Line.HorizontalLine | cab202_teensy/graphics.c:97-102 | a horizontal line draws exactly the inclusive segment between its ends |
| Line.LineSymmetric | cab202_teensy/graphics.c:90-131 | swapping the endpoints draws the same line |
| Line.ElevenPixels | cab202_teensy/graphics.c:90-131 | the line from (0, 0) to (10, 0) on a clear screen lights exactly eleven pixels |
| Text.PixelData | cab202_teensy/graphics.c:146-150 | the column byte is the font byte in foreground and its complement in background |
| Text.RowCode | cab202_teensy/graphics.c:152-154 | the code of row j is bit j of the byte, and rows 8 and beyond are always 0 |
| Text.ComplementRow | cab202_teensy/graphics.c:142-156 | complementing the byte flips every row's bit |
| Text.Cell | cab202_teensy/graphics.c:142-156 | a glyph cell copies the font bit in foreground, its complement in background, and is background below the eighth row |
| Text.InkGlyph | cab202_teensy/graphics.c:142-156 | the loops of `draw_char` from column i colour each box cell from column i on with its glyph colour, and nothing else |
| Text.DrawChar | cab202_teensy/graphics.c:142-156 | every on-screen cell of the glyph box takes the glyph's colour, and every other pixel keeps its colour |
| Text.InverseVideo | cab202_teensy/graphics.c:142-156 | in background colour a glyph is drawn in inverse video |
| Text.Visible | cab202_teensy/graphics.c:171-178 | the drawn text is the longest NUL-free prefix of the string |
| Text.Origins | cab202_teensy/graphics.c:171-178 | one 8-bit column counter value for each drawn character |
| Text.OriginsClosedForm | cab202_teensy/graphics.c:171-178 | character k is drawn at column (x + k * `CHAR_WIDTH`) mod 256, so long text wraps round |
| Text.WrapExample | cab202_teensy/graphics.c:171-178 | with five-column glyphs from column 250 the third character lands at column 4 |
| Text.DrawStringFirst | cab202_teensy/graphics.c:171-178 | drawing a string is drawing its first character, then the rest one `CHAR_WIDTH` on; an empty string changes nothing |
| Text.StopsAtNul | cab202_teensy/graphics.c:171-178 | whatever follows the first NUL is never drawn |
| Text.VisibleBeforeNul | cab202_teensy/graphics.c:171-178 | the drawn part of a string followed by NUL and more is the part before the NUL |
| Shapes.ShapesValid | main.c:88-124 | each bitmap has exactly width times height cells |
| Shapes.RowHit | main.c:220-226 | the inner loop of `pixel_collision` finds a hit exactly when some remaining cell of the row is solid in both placed bitmaps |
| Shapes.RowsHit | main.c:219-227 | the outer loop finds a hit exactly when some cell from that row down is solid in both |
| Shapes.PixelCollision | main.c:217-228 | bitmaps collide exactly when some absolute cell lies in both boxes and is solid in both |
| Shapes.CollisionSymmetric | main.c:217-228 | which bitmap is tested first does not matter |
| Shapes.DisjointBoxesMiss | main.c:217-228 | bitmaps whose boxes do not overlap never collide |
| Shapes.CornerOfAsteroid | main.c:93-101 | collision is cell-exact: a bolt over the asteroid's empty corner misses it, one cell further in hits |
| Shapes.RowDotsShape | main.c:233-241 | one row of `draw_pixels` lights exactly that row's solid cells, in foreground |
| Shapes.StencilDotsShape | main.c:233-241 | the rows of `draw_pixels` from row j on light exactly their solid cells |
| Shapes.DrawPixels | main.c:233-241 | exactly the on-screen pixels under solid cells turn foreground; the others keep their colour |
| Shapes.CollisionIsSharedInk | main.c:217-241 | two bitmaps collide whenever some on-screen pixel is lit by drawing each of them alone |
| Pools.EmptyPool | main.c:34-37 | a list starts with its capacity of zero slots and none live |
| Pools.ShiftDown | main.c:478-490 | the shift moves each slot from index a to the counter down by one, reading one past the live ones at the top, and keeps the rest |
| Pools.ReleaseStep | main.c:478-490 | one pass of the outer loop removes at most one entry |
| Pools.ReleaseFrom | main.c:478-490 | the outer loop from index a removes at most one entry per index |
| Pools.Release | main.c:478-490 | a release keeps the slots and never raises the counter |
| Pools.ReleaseNoop | main.c:623-634 | a release changes nothing when no live entry meets its test |
| Pools.ReleaseShrinksIff | main.c:712-739 | a release shrinks the list exactly when some live entry meets its test |
| Pools.FirstGone | main.c:478-490 | the first live entry that meets the test |
| Pools.Filter | main.c:478-490 | the survivors and the removed entries together make up the list |
| Pools.ReleaseFilters | main.c:478-490 | when the slot at the counter survives and no two neighbouring entries are removed, a release keeps the survivors in order and lowers the counter by the number removed |
| Pools.OverRemoval | main.c:623-634 | the slot at the counter is tested too, so a stale marked copy there is counted twice and costs a live asteroid |
| Pools.SkipAfterShift | main.c:623-634 | the entry shifted into a vacated slot is not tested, so of two neighbouring marked entries the second survives |
| Pools.RaiseTo | main.c:560-562 | the step loop raises x to the lower bound, by less than one past it, and leaves an x already in range |
| Pools.LowerToFit | main.c:563-565 | the step loop lowers x until the object fits inside the screen, and leaves an x that already fits |
| Pools.RandomTilt | main.c:566-572 | `rand() % 61 - 30` is a whole number of degrees in [-30, 30] |
| Pools.SpawnBoulders | main.c:558-574 | two boulders are stored at the counter, 2 columns apart, at the hit's height, heading within 30 degrees of vertical; x is stepped into [0, 79]; nothing else changes and there is no capacity check |
| Pools.SpawnFragments | main.c:659-675 | two fragments are stored at the counter, 8 columns apart around the boulder's x, heading within 30 degrees of the boulder's heading; nothing else changes and there is no capacity check |
| Pools.SpawnIgnoresCapacity | main.c:558-574 | spawning into a full boulder list stores past the end of the array |
| Pools.SecondBoulderPastEdge | main.c:558-574 | an asteroid hit at the right edge puts the second boulder at x = 81 |
| Detection.Shape | main.c:524-550 | each kind is tested with a bitmap at most seven wide |
| Detection.Reward | main.c:639-707 | an asteroid scores 1, a boulder 2 and a fragment 4 |
| Detection.Detect | main.c:639-651 | a detection pass keeps both lists' lengths |
| Detection.DetectMarks | main.c:639-707 | every hit names a live bolt and a live target, those get their off-screen marks, and nothing else in either list changes |
| Detection.DetectClears | main.c:639-707 | after a pass no unmarked live bolt collides with an unmarked live target |
| Detection.MarkedMiss | main.c:639-707 | a marked bolt or target can never be hit again while the other lies near the screen |
| Detection.DetectCountsOnce | main.c:639-707 | no bolt and no target is counted twice in a pass, there are at most as many hits as bolts or targets, and every hit is a real collision of two unmarked objects |
| Detection.SpawnBouldersFor | main.c:639-651 | each asteroid hit adds two boulders behind the existing ones |
| Detection.SpawnFragmentsFor | main.c:695-707 | each boulder hit adds two fragments behind the existing ones |
| Detection.CollisionDetection | main.c:823-827 | the bolts and asteroids keep their counts; boulders grow by two per asteroid hit and fragments by two per boulder hit; the score grows by the rewards; two draws of `rand()` per spawn |
| Motion.FallStep | main.c:419-434 | an asteroid falls by the speed unless paused; it vanishes (y becomes 999) when, once moved, its bottom row reaches row 39 with its column in [0, 77], and is otherwise just moved; its column and heading stay |
| Motion.FallFrom | main.c:419-434 | the loop costs one life and one counter unit per asteroid reaching the shield; the shield is hit exactly when some asteroid from index a on, once moved, reaches it; the columns and the slots before index a stay |
| Motion.UpdateAsteroids | main.c:419-434 | every asteroid reaching the shield costs exactly one life and one counter unit; after the first two seconds the shield is hit exactly when some live asteroid, once moved, reaches row 39 with its column in [0, 77]; in the first two seconds nothing moves |
| Motion.ParkedAsteroidDrains | main.c:419-434 | a vanished asteroid still in the counted part costs a life on every pass, and the asteroids after it drop out of the count |
| Motion.VanishedRockIsHarmless | main.c:579-618 | a vanished boulder or fragment never costs a second life |
| Motion.RockStep | main.c:579-618 | a rock drifts by the speed along its heading unless paused; its heading is negated exactly when, once moved, it is left of column 1 or right of column 79 (boulders) or 81 (fragments); it costs a life exactly when, once moved, it touches the shield, and then its x becomes 999 |
| Motion.UpdateRocks | main.c:579-618 | every live rock takes its turn, bouncing off a side wall by negating its heading; each one touching the shield costs exactly one life, and the counter and the slots past it stay |
| Motion.TouchedRockIsReleased | main.c:712-739 | a rock that touched the shield is removed by the release that follows |
| Motion.Fly | main.c:465-473 | a bolt keeps its heading and does not move while paused |
| Motion.UpdatePlasmas | main.c:465-473 | every live bolt flies, and the counter and the slots past it stay |
| Motion.BoltClimbs | main.c:465-473 | a bolt heading within 60 degrees of vertical climbs at least one pixel per pass |
| Motion.UpdateShip | main.c:306-330 | the ship moves at most one column per pass and not while paused, stays within [0, 78], moves left only while the cannon tip is at column 1 or beyond and right only while it is at column 82 or before, and always ends heading left, right or stopped |
| Motion.ShipFollowsHeading | main.c:306-330 | a stopped ship stays, and a ship heading one way never moves the other way; a running right-heading ship away from the edge moves one column |
| Motion.PushStopsThenTurns | main.c:318-328 | pushing against the direction of travel stops the ship, and pushing again turns it |
| Motion.CannonTip | main.c:495-506 | the tip is exactly 5 pixels along the turret from the ship's centre column while that point is within columns [0, 84]; left of column 0 it is pinned to (0, 41), right of column 84 to (83, 41) |
| Motion.CannonTipUnclamped | main.c:495-506 | within the screen the tip is exactly 5 pixels along the turret |
| Motion.TurretOf | main.c:439-445 | a potentiometer reading in range selects a turret angle in [-60, 60] |
| Motion.SetCannonAngle | main.c:439-445 | the potentiometer sets the turret unless an 'o' override is at most one second old; taking over clears the override |
| Motion.OverrideHolds | main.c:439-445 | an override holds the turret for one second whatever the potentiometer says |
| Motion.TurretRange | main.c:439-445 | without an override the turret points within 60 degrees of vertical |
| Motion.SetSpeed | main.c:1350-1356 | the potentiometer sets the speed to reading / 1023 in [0, 1] unless an 'm' command is at most one second old |
| Motion.FireCannon | main.c:450-460 | a bolt is fired exactly when the fire key is on, fewer than 50 bolts are live, 0.2 s have passed and the game runs; it appears one bolt length past the tip along the turret, and the other bolts stay |
| Motion.ShotsSpaced | main.c:450-460 | two shots are at least 0.2 s apart |
| Motion.FireBounded | main.c:450-460 | the number of live bolts never exceeds 50 |
| Console.Receive | main.c:1329-1345 | a digit is stored at the write index while a command is pending; a command letter is taken only when none is pending; a control key goes to the in-game buffer; '-' after 'o' marks the argument negative; nothing else changes |
| Console.IgnoredLeavesLine | main.c:1329-1345 | a character of no kind, such as an empty read, changes nothing |
| Console.StrayDigitDropped | main.c:1329-1345 | a digit typed while no command is pending is dropped |
| Console.Clean | main.c:1003-1008 | the five buffer characters become NUL and the write index returns to 0, so `atoi` reads 0 |
| Console.Reset | main.c:1096-1099 | the buffer is cleaned and the pending command dropped |
| Console.ReceiveDigits | main.c:1329-1345 | digits typed after a command letter are stored one after another and the command stays pending |
| Console.TypedNumber | main.c:1329-1345 | a number of up to four digits typed on a clean buffer is read back by `atoi` as itself |
| Console.TerminatedRun | main.c:1003-1008 | fewer than five digits on a clean buffer are followed by a NUL |
| Console.ReadBack | main.c:1297-1324 | a buffer starting with digits and a NUL reads as those digits |
| Console.AtoiPrefix | main.c:1297-1324 | `atoi` never reads past the first non-digit |
| Console.SixthDigitOverruns | main.c:1329-1345 | a sixth digit is stored one past the five-character buffer |
| Waves.Draw | main.c:391-414 | one column drawn: one more draw of `rand()`, exactly one more tally on the left or right side, the slots past the third untouched, and the loop goes on at a slot from 1 up to the next one |
| Waves.PlaceFrom | main.c:391-414 | a finished placement keeps the slots past the third and adds one tally per draw |
| Waves.PlacedStep | main.c:391-414 | each draw keeps the placed slots free of overlaps |
| Waves.PlaceFromSettles | main.c:391-414 | a finished placement leaves three non-overlapping asteroids on the spawn row |
| Waves.SpawnAsteroid | main.c:391-414 | three asteroids, counter 3; the side is the left LED exactly when the left tally is higher, the right one when it is lower, and unchanged on a tie |
| Waves.PlaceFromCounts | main.c:391-414 | a finished placement draws at least once per slot |
| Waves.WaveDoesNotOverlap | main.c:391-414 | a completed wave is three asteroids on the spawn row, no two of which overlap |
| Waves.LedWarning | main.c:975-998 | a flash happens exactly when the side names an LED; afterwards the side is cleared and the tallies are 0 |
| Waves.FlashOnce | main.c:975-998 | after a flash nothing flashes again until a new wave names a side |
| State.BootValid | main.c:23-82 | the power-up globals satisfy the list and command-line invariants |
| Commands.Capped | main.c:1104-1123 | 'l' and 'g' keep a value in [0, 9999] and turn anything outside into 9999 |
| Commands.SetShield | main.c:1104-1111 | 'l' sets the shield to the capped 16-bit argument, resets the line and changes nothing else |
| Commands.SetScore | main.c:1116-1123 | 'g' sets the score to the capped 16-bit argument, resets the line and changes nothing else |
| Commands.MoveShip | main.c:1250-1259 | 'h' moves the ship to the 16-bit argument clamped to [0, 78], so a negative one gives column 0, and changes nothing else |
| Commands.SetGameSpeed | main.c:1264-1274 | 'm' sets the speed to the 16-bit argument clamped to [0, 1023], over 1023, and holds it for a second |
| Commands.SetTurret | main.c:1279-1292 | 'o' aims the turret at the 16-bit argument capped at 60 from above only, negated after '-'; a non-negative argument stays within 60 degrees; it holds it for a second and clears the sign |
| Commands.FiveDigitArguments | main.c:1104-1292 | five digits wrap before any bound: 70000 sets shield or score to 4464; 40000 puts the ship at column 0, aims the turret at -25536 and keeps a placement in its first stage; 65535 sets the speed to 0 |
| Commands.Capacity | main.c:1128-1209 | each placement checks one of the list capacities |
| Commands.CapacityFits | main.c:1128-1209 | the capacity checked is within the list's slots |
| Commands.Place | main.c:1128-1209 | 'j', 'k' and 'i' change only the three rock lists, the coordinate pair and the line |
| Commands.PlaceFirstStage | main.c:1128-1209 | the first carriage return stores the 16-bit X and keeps the command pending, with no list changed |
| Commands.PlaceSecondStage | main.c:1128-1209 | with room, the second carriage return adds one object at the coordinates that fit, keeps the rest of the slot, drops the command and touches no other list |
| Commands.PlaceFull | main.c:1128-1209 | with a full list the second carriage return places nothing and drops the command |
| Commands.Dispatch | main.c:1297-1324 | a handler never changes the mode, the pause, the clock or the in-game key |
| Commands.DispatchSettles | main.c:1297-1324 | every finishing handler drops the pending command; only the first stage of a placement keeps it |
| Commands.Command | main.c:1329-1345 | reading a character never changes the mode, the pause or the clock, and only a control key reaches the in-game buffer |
| Commands.TurretLetterSticks | main.c:1297-1324 | a pending 't' is never cleared, because the dispatch has no case for it |
| Commands.TurretLetterSticksForever | main.c:1297-1345 | once 't' is pending no typed text clears it, the write index never goes back, and every digit typed advances it by one, without bound |
| Commands.ShieldCommand | main.c:1104-1111 | typing 'l', a number of up to four digits and a carriage return sets the shield to that number |
| Commands.LetterStarts | main.c:1329-1345 | a command letter on an idle line becomes pending and changes nothing else |
| Commands.EnterRunsHandler | main.c:1329-1345 | a carriage return runs the pending handler |
| Commands.CommandsAreLine | main.c:1329-1345 | characters without a carriage return only feed the command line |
| Commands.CommandsSplit | main.c:1329-1345 | typing two strings is typing one after the other |
| Game.Collide | main.c:823-827 | detection changes only the lists, the score and the draws; the score never drops, no asteroid or bolt leaves the count, and boulders and fragments are only added |
| Game.SetPause | main.c:931-941 | the pause toggles exactly on the centre button or 'p', the key is consumed, and the first toggle ends the start-up state |
| Game.PauseKeyActsOnce | main.c:931-941 | a 'p' toggles the pause only once |
| Game.Respawn | main.c:744-748 | a wave is placed only when no asteroid, boulder or fragment is left; otherwise nothing changes |
| Game.Warn | main.c:975-998 | the side and the tallies are always cleared; without a wave due nothing else changes |
| Game.WarnedWaveLosesSide | main.c:975-998 | a wave placed from inside `led_warning` loses its side, so it is never announced |
| Game.Restart | main.c:1013-1035 | shield, score, ship column and all four counters return to their start values; the game pauses in its start-up state at speed 1; of the command line only the write index and the in-game key are reset; nothing else changes |
| Game.OverridesOutliveRestart | main.c:1013-1035 | a restart keeps the 'o' and 'm' override times, so with the clock started again from 0 an override from the last game still holds the turret and the speed until the new clock passes it by one second |
| Game.Move | main.c:1371-1383 | the middle of a pass only loses shield lives and keeps the score, the pause, the clock, the mode and the command line |
| Game.Steer | main.c:1371-1376 | aiming, falling, firing, steering and the bolts only lose shield lives and keep the same things |
| Game.Drop | main.c:1377-1383 | the rocks and the release passes only lose shield lives and keep the same things |
| Game.Resume | main.c:1385-1388 | the left button at the end of a pass leaves the game restarted |
| Game.Front | main.c:1365-1368 | the start of a pass leaves the shield alone and never lowers the score; the pause toggles exactly on the centre button or 'p'; a placement loop can only start when a wave is due |
| Game.Conclude | main.c:1052-1091 | a used-up shield stops the pass in the game-over wait, which reaches the menu only while running; otherwise the pass finishes |
| Game.Play | main.c:1401-1415 | a running pass that goes on with the left button down ends restarted |
| Game.OverStep | main.c:1077-1089 | a pass of the game-over menu keeps the state well formed |
| Game.Tick | main.c:1401-1415 | every pass keeps the lists and the command line well formed; the modes that never return keep the state; the menu is reached only with the shield used up |
| Game.Launch | main.c:1393-1396 | the loop starts paused with a full shield, no score and the first wave placed |
| Game.PausedGameOverFreezes | main.c:1052-1091 | a game paused when its shield runs out never reaches the menu, because the wait reads the clock only while running |
| Game.OverMenu | main.c:1077-1089 | the menu returns to the game exactly on the left button or a first-read 'r', quits exactly otherwise on the right button or a second-read 'q', and else changes nothing; a return comes paused |
| Game.QuitKeyReadFirstIsLost | main.c:1077-1089 | a 'q' read by the first `usb_serial_getchar` of a pass is lost |
| Game.RestartButton | main.c:1401-1415 | the left button restarts a running game at the end of the pass, whatever else happened in it |
| Game.RestartKeepsTypedDigits | main.c:1013-1035 | a restart keeps typed digits: "l12", a restart, then "5" and a carriage return set the shield to 52 |
| Report.SendTo | main.c:870-876 | the message, then the number's text, then CR LF, and the text after the message reads back as the number |
| Report.NumberReadsBack | main.c:883-887 | the digits `itoa` sends read back as the number |
| Report.SendToAsWritten | main.c:870-876 | with `char snum[5]` the number is sent exactly when its text and NUL fit in the buffer |
| Report.ScoreOverrunsSnum | main.c:870-876 | a score of 10000 or more, or a number below -999, overruns `snum` |
| Report.WideSnumHoldsEveryInt | main.c:870-876 | every 16-bit `int` fits in a seven-character buffer |
| Report.Pad2 | main.c:892-910 | the minutes and seconds are shown as digits, two of them below 100 |
| Report.ClockSplits | main.c:892-910 | minutes and seconds make up the whole seconds of the clock, with the seconds below 60 |
| Report.TimeText | main.c:892-910 | the time line starts with "Game Time: " |
| Report.TimeReadsBack | main.c:892-910 | the minutes and seconds read back from the time line |
| Report.Pad2ReadsBack | main.c:892-910 | a two-digit field reads back as its number |
| Report.StatusReport | main.c:915-926 | the status report shows the score, readable back, after the time and lives lines |
| Report.ScoreAfter | main.c:915-926 | a score line placed after two lines reads back as the score |
| Report.PauseMessage | main.c:931-941 | the start message is sent exactly on the first toggle of the pause |
| Report.GameStartedOnce | main.c:931-941 | after a toggle the start message is never sent again |
| Report.GameOverMessage | main.c:1052-1091 | the game-over report ends with "Game Over" and CR LF |
| Report.HelpLine | main.c:1223-1245 | each help line starts with its key in quotes |
| Report.HelpCoversKeys | main.c:1223-1245 | the help names every key and command letter except 'o' |
| Report.ControlsMessage | main.c:1223-1245 | the list of controls is sent exactly when '?' was typed, and opens with the key 'a'; the older variant sends it with its own separator |
| Prototype.PixelCollisionInt | cab202_adc/main.c:191-202 | the older `pixel_collision` returns 1 exactly when the bitmaps collide, else 0 |
| Prototype.Classify | cab202_adc/main.c:315-319 | a column counts for the left LED exactly when 0 < x and x + 6 < 42, and for the right exactly when 42 < x and x + 6 < 84 |
| Prototype.ClassifyRefinesMain | cab202_adc/main.c:315-319 | the older test agrees with the later one where it counts a column, and counts neither column 0 nor 36 to 42 |
| Prototype.Draw | cab202_adc/main.c:303-320 | one draw stores a column in the next slot, or in slot 0 after a clash; a clash also resets both tallies, so with non-negative tallies their total grows by at most one, or is at most one after a clash |
| Prototype.DrawLikeMain | cab202_adc/main.c:303-320 | the older draw places the same asteroids as the later one |
| Prototype.PlaceFrom | cab202_adc/main.c:303-320 | a finished older placement keeps the slots and its tallies bounded |
| Prototype.PlacesLikeMain | cab202_adc/main.c:303-320 | the older placement finishes exactly when the later one does, with the same asteroids |
| Prototype.SpawnAsteroid | cab202_adc/main.c:302-327 | three asteroids, counter 3; the left LED (pin 2) exactly when the left tally is higher, the right LED (pin 3) otherwise, a tie included |
| Prototype.SpawnLikeMain | cab202_adc/main.c:302-327 | the older wave places the same asteroids as the later one |
| Prototype.LedFlash | cab202_adc/main.c:748-762 | `led_flash` clears the side and flashes exactly when one is set |
| Prototype.EveryWaveFlashesOnce | cab202_adc/main.c:302-327 | every older wave names an LED, which flashes once |
| Prototype.RestartGame | cab202_adc/main.c:770-791 | on the left button or 'r' the game is reset as in `main.c`, leaving the start-up flag alone; otherwise nothing changes |
| Prototype.RestartAgreesWithMain | cab202_adc/main.c:770-791 | the older restart is the later one without the start-up flag |
| Prototype.SetPause | cab202_adc/main.c:643-648 | the pause toggles exactly on the centre button or 'p', the key is consumed, and nothing else changes |
| Prototype.PauseAgreesWithMain | cab202_adc/main.c:643-648 | the older pause is the later one without the start-up flag, and 'p' acts once |
| Prototype.Fly | cab202_adc/main.c:366-374 | a bolt moves the bolt length times the speed, and not at all while paused or at speed 0 |
| Prototype.UpdatePlasmas | cab202_adc/main.c:366-374 | every live bolt flies, and the counter and the slots past it stay |
| Prototype.SpeedScalesBolts | cab202_adc/main.c:366-374 | at speed 0 no bolt moves, and at speed 1 bolts move as in `main.c` |
| Prototype.CannonTip | cab202_adc/main.c:390-401 | the older cannon tip is exactly 6 pixels along the turret from the ship's centre column while that point is within columns [0, 84]; left of column 0 it is pinned to (0, 39), right of column 84 to (83, 39) |
| Prototype.CannonSixFifthsOfMain | cab202_adc/main.c:390-401 | where neither tip is pinned, the older tip lies on the later one's line from the ship's centre, six fifths as far out |
| Prototype.OverChoice | cab202_adc/main.c:802-841 | the older game-over menu restarts exactly on the left button and quits exactly on the right one without the left |
| Prototype.OverChoiceLikeMain | cab202_adc/main.c:802-841 | with no 'r' or 'q' typed, the later menu decides as the older one does |
| Prototype.DashLine | cab202_adc/main.c:950-972 | an older help line is the later one with " – " in place of the space after the key |

## Left out

- Output to the LCD (`show_screen`, the LCD commands of `lcd.c`) and the USB serial line is not modelled as I/O. Drawing is modelled as the screen buffer it writes, and sending as the text it sends.
- `setup_bit`, the timer interrupt and `update_time` become a clock reading in each pass's inputs. `update_time` computes the clock from `overflow_counter`, which `restart_game` sets to 0, so after a restart the readings start again from 0 once the game runs; the model leaves that to the readings passed in. `restart_game` keeps `o_timer` and `m_timer`, so an override from the last game can hold the potentiometers off in the new one (`Game.OverridesOutliveRestart`), and the two-second grace of `update_asteroid` applies again to the new readings. The ADC becomes potentiometer readings, the switches become booleans, and `usb_serial_getchar` becomes characters (`NoInput` for an empty read).
- `rand()` becomes a sequence of draws, and `sin`/`cos` become functions passed in. Only their range of [-1, 1] is assumed where it matters.
- `double` arithmetic, and the `float` arithmetic of `draw_line`, is modelled with exact reals. Floating-point rounding is not modelled.
- `int` is 16 bits on the target. `atoi` is modelled with that width (`CRuntime.AtoiInt`), so the argument of a command can wrap around, and the width of `snum` is covered under Findings. Overflow of the score by hits, of `shield_life` below -32768 and of the counters is not modelled; the model's integers there are unbounded.
- `display_introduction` loops until the left button is down or its `usb_serial_getchar` reads 'r'; the characters it reads are lost. The model starts after it, from `Game.Launch`.
- `introduction_information`, `draw_boarder`, `display_time`, `display_statues_teensy`, `draw_shield`, `draw_spaceship`, `draw_plasma` and the other `draw_*` helpers only draw. They are not modelled separately.
- `set_duty_cycle`, `_delay_ms`, the LED flash timing and the backlight fade of `game_over` only affect hardware timing or brightness.
- `display_game_statues` runs on every pass (main.c:1370). When the game is paused and 's' or the joystick down asks for the status, it sends the report and then blocks (main.c:946-959). It leaves on the joystick centre or when its `usb_serial_getchar` reads 'p'. Every character it reads is lost, and that 'p' does not toggle the pause; the 's' stays in `ingame_buffer` until `send_controls` clears it later in the pass. The report it sends is `Report.StatusReport`; `Game.Front` and `Game.Tick` skip the loop, so a pass in the model never blocks there and no character is consumed by it.
- `quit_game` loops forever. It is the mode `Quit`, which keeps the state.
- The four-second wait of `game_over` is modelled by whether the clock can move, not by how long it takes. The clock reading after the wait is not kept.
- The font table (`ascii_font.h`) is not part of this model. `CHAR_WIDTH`, `CHAR_HEIGHT` and the glyphs are a parameter.
- The globals `generated`, `warned`, `input`, `converted_number`, `isSpace` and `speedIsSet` are never read by the game rules. They and the writes to them are not modelled.
- Stores past an array's end make the model's sequence grow. A read one past the written slots of an object list is the parameter `past`/`beyond`, which stands for the unknown memory there.
- Console.Argument / CRuntime.AtoiInt: the read of `list[5]` and beyond is taken as a terminator. After five or more digits, `atoi(list)` in C goes on into whatever global the linker placed after `char list[5]`; the model stops at the end of the characters stored so far. An argument of five or more digits, and so `Commands.FiveDigitArguments`, is exact only when that memory does not start with a digit.
- Waves.PlaceFrom: the placement loop redraws until three columns fit. It is given a fuel bound, and running out of fuel is the mode `Redrawing`, a loop that has not finished. Whether the loop finishes for a given `rand()` is not modelled.
- Detection.CollisionDetection: the spawns of a pass are applied after the pass, in hit order. The list a spawn appends to is not read by the pass that triggers it, so the lists come out the same.
- Game.OverStep: its contract states only well-formedness. Its behaviour is stated by `Game.OverMenu` and `Game.QuitKeyReadFirstIsLost`.
- Commands.Typing: its contract states only well-formedness. Its behaviour is stated by `Commands.CommandsAreLine`, `Commands.CommandsSplit` and `Commands.ShieldCommand`.
- Pools.Release: its contract states only that the list does not grow. The exact result is stated by `Pools.ReleaseFilters`, `Pools.ReleaseShrinksIff` and `Pools.ReleaseNoop`. `Pools.OverRemoval` and `Pools.SkipAfterShift` show why no filter property holds without their conditions.
- `cab202_adc/main.c` is modelled where its game rules differ from `main.c`. Its functions that only draw or only send are not repeated. These differences are not modelled:
  - its `display_introduction` waits for the left button only, and reads no character;
  - its `display_game_statues` blocks while paused until the joystick centre is pressed, and reads no character;
  - its `game_over` sends and draws as `main.c`'s does. Its menu is modelled only as the choice `Prototype.OverChoice`; the restart and the rest of its pass are not composed into a variant of `Game.Tick`;
  - its `main` calls its own `restart_game`, which is `Prototype.RestartGame`; the loop built from its functions is not composed;
  - its cannon (`Prototype.CannonTip`) is not wired into a variant of the pass either.
- `cab202_adc/main.c` sends the help with the en dash "–". The model keeps it as one character; the UTF-8 bytes on the wire are not modelled.

## Behaviour of the code worth knowing

- The potentiometers are read on every pass, except within one second of an 'm' or 'o' command (`Motion.SetSpeed`, `Motion.SetCannonAngle`, `Motion.OverrideHolds`).
- A spawned boulder or fragment is appended whether or not its list has room (`Pools.SpawnIgnoresCapacity`).
- Of the two boulders of a hit, only the first is stepped back into the screen; the second can start at column 81 (`Pools.SecondBoulderPastEdge`).
- The digit buffer is stored into without a bound: a sixth digit lands past its five characters (`Console.SixthDigitOverruns`), and a pending 't' lets digits pile up forever (`Commands.TurretLetterSticksForever`).
- The argument of a command is read into a 16-bit `int`, so five digits can wrap around before any bound applies (`Commands.FiveDigitArguments`).

## Findings

| source | as written | input that shows it | evidently intended | confidence | as-written member | corrected member |
|---|---|---|---|---|---|---|
| main.c:870-876 | `send_to` and `send_num_to` convert the number into `char snum[5]`, which holds four characters and a NUL | a score of 10000, reached by hits after 'g9999'; or any number below -999 | a buffer that holds every 16-bit `int` and its NUL, which needs seven characters | not executed | Report.ScoreOverrunsSnum | Report.WideSnumHoldsEveryInt |
