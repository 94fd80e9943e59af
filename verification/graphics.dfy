/** The packed monochrome framebuffer of the Teensy support library (cab202_teensy/graphics.h,
    graphics.c): 84 x 48 pixels stored as 504 bytes, each byte holding a vertical strip of
    8 pixels ("bank"), least significant bit at the top. */
module Graphics {
  import Macros

  /** Screen dimensions, from lcd.h. */
  const LcdX: int := 84
  const LcdY: int := 48

  /** `LCD_BUFFER_SIZE`: one byte per column per bank of 8 rows. */
  const BufferSize: int := LcdX * (LcdY / 8)

  /** `colour_t`: `BG_COLOUR` is 0 and `FG_COLOUR` is 1. */
  datatype Colour = Bg | Fg

  function ColourCode(c: Colour): (v: int)
    ensures v == 0 || v == 1
    ensures c == Bg <==> v == 0
  {
    match c
    case Bg => 0
    case Fg => 1
  }

  /** The colour a pixel takes when drawn with code `v`: any non-zero code draws (graphics.c
      tests `if (colour)`). */
  function ColourOfCode(v: int): (c: Colour)
    ensures c == Fg <==> v != 0
  {
    if v != 0 then Fg else Bg
  }

  lemma ColourCodeRoundTrip(c: Colour)
    ensures ColourOfCode(ColourCode(c)) == c
  {
  }

  /** The content of `screen_buffer`. */
  type Screen = s: seq<bv8> | |s| == BufferSize witness seq(BufferSize, _ => 0 as bv8)

  /** The addressable pixels: x in [0, LCD_X - 1] and y in [0, LCD_Y - 1]. */
  predicate InBounds(x: int, y: int) {
    0 <= x < LcdX && 0 <= y < LcdY
  }

  /** The byte holding pixel (x, y): bank `y >> 3` (which is `y / 8` for y >= 0), column x. */
  function PixelIndex(x: int, y: int): (i: int)
    requires InBounds(x, y)
    ensures 0 <= i < BufferSize
  {
    (y / 8) * LcdX + x
  }

  /** The bit holding pixel row y inside its byte: `y & 7`, which is `y % 8` for y >= 0. */
  function PixelBit(y: int): Macros.Pin
    requires 0 <= y
  {
    y % 8
  }

  /** Distinct pixels live in distinct (byte, bit) places. */
  lemma PixelPlacesDistinct(x: int, y: int, x': int, y': int)
    requires InBounds(x, y) && InBounds(x', y')
    requires PixelIndex(x, y) == PixelIndex(x', y') && PixelBit(y) == PixelBit(y')
    ensures x == x' && y == y'
  {
  }

  /** The colour of an addressable pixel, read from its bit. */
  function PixelAt(s: Screen, x: int, y: int): Colour
    requires InBounds(x, y)
  {
    if Macros.BitIsSet(s[PixelIndex(x, y)], PixelBit(y)) then Fg else Bg
  }

  /** `clear_screen`: every byte becomes zero, so every pixel reads as background. */
  function ClearScreen(): (s: Screen)
    ensures forall i :: 0 <= i < |s| ==> s[i] == 0
    ensures forall x, y :: InBounds(x, y) ==> PixelAt(s, x, y) == Bg
  {
    seq(BufferSize, _ => 0 as bv8)
  }

  /** `draw_pixel`: a pixel outside the screen is ignored; otherwise foreground sets and
      background clears exactly bit `y & 7` of byte `(y >> 3) * LCD_X + x`. */
  function DrawPixel(s: Screen, x: int, y: int, c: Colour): (r: Screen)
    ensures !InBounds(x, y) ==> r == s
    ensures InBounds(x, y) ==> PixelAt(r, x, y) == c
    ensures InBounds(x, y) ==>
      forall i :: 0 <= i < BufferSize && i != PixelIndex(x, y) ==> r[i] == s[i]
    ensures InBounds(x, y) ==>
      Macros.SameOtherBits(r[PixelIndex(x, y)], s[PixelIndex(x, y)], PixelBit(y))
  {
    if !InBounds(x, y) then s
    else
      var i := PixelIndex(x, y);
      var b := match c
        case Fg => Macros.SetBit(s[i], PixelBit(y))
        case Bg => Macros.ClearBit(s[i], PixelBit(y));
      s[i := b]
  }

  /** Drawing one pixel leaves every other pixel as it was. */
  lemma DrawPixelFrame(s: Screen, x: int, y: int, c: Colour, x': int, y': int)
    requires InBounds(x', y') && (x', y') != (x, y)
    ensures PixelAt(DrawPixel(s, x, y, c), x', y') == PixelAt(s, x', y')
  {
    if InBounds(x, y) && PixelIndex(x, y) == PixelIndex(x', y') {
      if PixelBit(y) == PixelBit(y') {
        PixelPlacesDistinct(x, y, x', y');
      }
    }
  }

  /** Two screens whose pixels all agree are the same 504 bytes. */
  lemma ScreensEqual(a: Screen, b: Screen)
    requires forall x, y :: InBounds(x, y) ==> PixelAt(a, x, y) == PixelAt(b, x, y)
    ensures a == b
  {
    forall i | 0 <= i < BufferSize
      ensures a[i] == b[i]
    {
      var x := i % LcdX;
      var bank := i / LcdX;
      forall q: Macros.Pin
        ensures Macros.BitValue(a[i], q) == Macros.BitValue(b[i], q)
      {
        var y := bank * 8 + q;
        assert InBounds(x, y) && PixelIndex(x, y) == i && PixelBit(y) == q;
        assert PixelAt(a, x, y) == PixelAt(b, x, y);
      }
      Macros.BitsDetermineRegister(a[i], b[i]);
    }
  }

  /** One `draw_pixel` call: the unit that every drawing routine is made of. */
  datatype Dot = Dot(x: int, y: int, c: Colour)

  /** The colour that pixel (x, y) has after the dots are drawn in order over `under`:
      the colour of the last dot at (x, y), or `under` when none is there. */
  function Ink(dots: seq<Dot>, x: int, y: int, under: Colour): Colour
    decreases |dots|
  {
    if |dots| == 0 then under
    else Ink(dots[1..], x, y, if dots[0].x == x && dots[0].y == y then dots[0].c else under)
  }

  /** The pixel positions the dots touch. */
  function Positions(dots: seq<Dot>): set<(int, int)> {
    set k | 0 <= k < |dots| :: (dots[k].x, dots[k].y)
  }

  /** Every dot has colour `c`. */
  predicate Uniform(dots: seq<Dot>, c: Colour) {
    forall k :: 0 <= k < |dots| ==> dots[k].c == c
  }

  /** Drawing a sequence of pixels, one `draw_pixel` after the other. */
  function Paint(s: Screen, dots: seq<Dot>): (r: Screen)
    ensures forall x, y :: InBounds(x, y) ==> PixelAt(r, x, y) == Ink(dots, x, y, PixelAt(s, x, y))
    decreases |dots|
  {
    if |dots| == 0 then s
    else
      var s' := DrawPixel(s, dots[0].x, dots[0].y, dots[0].c);
      forall x, y | InBounds(x, y) && (x, y) != (dots[0].x, dots[0].y)
        ensures PixelAt(s', x, y) == PixelAt(s, x, y)
      {
        DrawPixelFrame(s, dots[0].x, dots[0].y, dots[0].c, x, y);
      }
      Paint(s', dots[1..])
  }

  lemma {:induction false} InkAppend(a: seq<Dot>, b: seq<Dot>, x: int, y: int, under: Colour)
    ensures Ink(a + b, x, y, under) == Ink(b, x, y, Ink(a, x, y, under))
    decreases |a|
  {
    if |a| == 0 {
      assert a + b == b;
    } else {
      assert (a + b)[1..] == a[1..] + b;
      InkAppend(a[1..], b, x, y, if a[0].x == x && a[0].y == y then a[0].c else under);
    }
  }

  lemma PositionsAppend(a: seq<Dot>, b: seq<Dot>)
    ensures Positions(a + b) == Positions(a) + Positions(b)
  {
    forall p | p in Positions(a + b)
      ensures p in Positions(a) + Positions(b)
    {
      var k :| 0 <= k < |a + b| && p == ((a + b)[k].x, (a + b)[k].y);
      if k >= |a| {
        assert p == (b[k - |a|].x, b[k - |a|].y);
      } else {
        assert p == (a[k].x, a[k].y);
      }
    }
    forall p | p in Positions(a)
      ensures p in Positions(a + b)
    {
      var k :| 0 <= k < |a| && p == (a[k].x, a[k].y);
      assert (a + b)[k] == a[k];
    }
    forall p | p in Positions(b)
      ensures p in Positions(a + b)
    {
      var k :| 0 <= k < |b| && p == (b[k].x, b[k].y);
      assert (a + b)[|a| + k] == b[k];
    }
  }

  /** Painting two runs of dots is painting the first, then the second over it. */
  lemma PaintAppend(s: Screen, a: seq<Dot>, b: seq<Dot>)
    ensures Paint(s, a + b) == Paint(Paint(s, a), b)
  {
    forall x, y | InBounds(x, y)
      ensures PixelAt(Paint(s, a + b), x, y) == PixelAt(Paint(Paint(s, a), b), x, y)
    {
      InkAppend(a, b, x, y, PixelAt(s, x, y));
    }
    ScreensEqual(Paint(s, a + b), Paint(Paint(s, a), b));
  }

  /** Dots of one colour paint exactly the positions they touch with that colour. */
  lemma {:induction false} InkUniform(dots: seq<Dot>, c: Colour, x: int, y: int, under: Colour)
    requires Uniform(dots, c)
    ensures Ink(dots, x, y, under) == if (x, y) in Positions(dots) then c else under
    decreases |dots|
  {
    if |dots| > 0 {
      var under' := if dots[0].x == x && dots[0].y == y then dots[0].c else under;
      InkUniform(dots[1..], c, x, y, under');
      assert Positions(dots) == {(dots[0].x, dots[0].y)} + Positions(dots[1..]) by {
        forall p | p in Positions(dots)
          ensures p in {(dots[0].x, dots[0].y)} + Positions(dots[1..])
        {
          var k :| 0 <= k < |dots| && p == (dots[k].x, dots[k].y);
          if k > 0 {
            assert p == (dots[1..][k - 1].x, dots[1..][k - 1].y);
          }
        }
        forall p | p in Positions(dots[1..])
          ensures p in Positions(dots)
        {
          var k :| 0 <= k < |dots[1..]| && p == (dots[1..][k].x, dots[1..][k].y);
          assert p == (dots[k + 1].x, dots[k + 1].y);
        }
      }
    }
  }

  /** Drawing in one colour depends only on the set of positions, not on their order or
      repetition. */
  lemma PaintUniformBySet(s: Screen, d1: seq<Dot>, d2: seq<Dot>, c: Colour)
    requires Uniform(d1, c) && Uniform(d2, c)
    requires Positions(d1) == Positions(d2)
    ensures Paint(s, d1) == Paint(s, d2)
  {
    forall x, y | InBounds(x, y)
      ensures PixelAt(Paint(s, d1), x, y) == PixelAt(Paint(s, d2), x, y)
    {
      InkUniform(d1, c, x, y, PixelAt(s, x, y));
      InkUniform(d2, c, x, y, PixelAt(s, x, y));
    }
    ScreensEqual(Paint(s, d1), Paint(s, d2));
  }
}
