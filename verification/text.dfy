/** Text rendering of the Teensy support library (cab202_teensy/graphics.c): `draw_char` copies
    a glyph of the font column by column into the framebuffer, and `draw_string` draws the
    characters of a NUL-terminated string side by side. The font table (ascii_font.h) is not
    part of this model: it is a parameter. */
module Text {
  import Macros
  import opened Graphics

  /** The font: `CHAR_WIDTH` columns of `CHAR_HEIGHT` rows per glyph, and the table `ASCII`
      with one row of column bytes per character from 0x20 to 0x7f, least significant bit at
      the top. */
  datatype Font = Font(width: nat, height: nat, table: seq<seq<bv8>>)

  /** A font the library can use: 96 glyphs of `width` columns each, and dimensions that the
      8-bit loop counters of `draw_char` can reach. */
  predicate ValidFont(f: Font) {
    f.width < 256 && f.height < 256 && |f.table| == 0x60
    && forall g :: 0 <= g < |f.table| ==> |f.table[g]| == f.width
  }

  /** The characters `draw_char` can render: 0x20 to 0x7f. */
  predicate Printable(ch: char) {
    0x20 <= ch as int <= 0x7f
  }

  /** `pixel_data`: the font byte of column `i`, complemented when drawing in background
      colour. */
  function PixelData(f: Font, ch: char, i: nat, colour: Colour): (d: bv8)
    requires ValidFont(f) && Printable(ch) && i < f.width
    ensures colour == Fg ==> d == f.table[ch as int - 0x20][i]
    ensures colour == Bg ==> d == !f.table[ch as int - 0x20][i]
  {
    var data := f.table[ch as int - 0x20][i];
    if colour == Bg then !data else data
  }

  /** The colour code `(pixel_data & (1 << j)) >> j` of row `j`. `pixel_data` has eight bits,
      so rows 8 and beyond always get code 0. */
  function RowCode(d: bv8, j: nat): (v: int)
    ensures v == 0 || v == 1
    ensures j >= 8 ==> v == 0
    ensures j < 8 ==> (v == 1 <==> Macros.BitIsSet(d, j))
  {
    if j < 8 then Macros.BitValue(d, j) as int else 0
  }

  lemma ComplementRow(d: bv8, j: nat)
    ensures j < 8 ==> (Macros.BitIsSet(!d, j) <==> !Macros.BitIsSet(d, j))
  {
    if j < 8 {
      Macros.ComplementFlipsBits(d, j);
    }
  }

  /** The colour `draw_char` gives to cell (i, j) of the glyph box: in foreground it copies the
      font bit, in background it copies the complement, and rows past the eighth are always
      background. */
  function Cell(f: Font, ch: char, i: nat, j: nat, colour: Colour): (c: Colour)
    requires ValidFont(f) && Printable(ch) && i < f.width
    ensures j >= 8 ==> c == Bg
    ensures j < 8 && colour == Fg ==> (c == Fg <==> Macros.BitIsSet(f.table[ch as int - 0x20][i], j))
    ensures j < 8 && colour == Bg ==> (c == Fg <==> !Macros.BitIsSet(f.table[ch as int - 0x20][i], j))
  {
    ComplementRow(f.table[ch as int - 0x20][i], j);
    ColourOfCode(RowCode(PixelData(f, ch, i, colour), j))
  }

  /** The inner loop of `draw_char`: rows `j` to `CHAR_HEIGHT - 1` of column `i`. */
  function ColumnDots(x: int, y: int, f: Font, ch: char, i: nat, j: nat, colour: Colour): seq<Dot>
    requires ValidFont(f) && Printable(ch) && i < f.width
    decreases f.height - j
  {
    if j >= f.height then []
    else [Dot(x + i, y + j, Cell(f, ch, i, j, colour))] + ColumnDots(x, y, f, ch, i, j + 1, colour)
  }

  /** The outer loop of `draw_char`: columns `i` to `CHAR_WIDTH - 1`. */
  function GlyphDots(x: int, y: int, f: Font, ch: char, i: nat, colour: Colour): seq<Dot>
    requires ValidFont(f) && Printable(ch)
    decreases f.width - i
  {
    if i >= f.width then []
    else ColumnDots(x, y, f, ch, i, 0, colour) + GlyphDots(x, y, f, ch, i + 1, colour)
  }

  /** Pixel (px, py) lies in the glyph box with top-left corner (x, y). */
  predicate InBox(f: Font, x: int, y: int, px: int, py: int) {
    x <= px < x + f.width && y <= py < y + f.height
  }

  lemma {:induction false} InkColumn(x: int, y: int, f: Font, ch: char, i: nat, j: nat, colour: Colour,
                                     px: int, py: int, under: Colour)
    requires ValidFont(f) && Printable(ch) && i < f.width
    ensures Ink(ColumnDots(x, y, f, ch, i, j, colour), px, py, under)
         == if px == x + i && y + j <= py < y + f.height then Cell(f, ch, i, py - y, colour) else under
    decreases f.height - j
  {
    if j < f.height {
      var d := Dot(x + i, y + j, Cell(f, ch, i, j, colour));
      var rest := ColumnDots(x, y, f, ch, i, j + 1, colour);
      assert ([d] + rest)[1..] == rest;
      var under' := if d.x == px && d.y == py then d.c else under;
      InkColumn(x, y, f, ch, i, j + 1, colour, px, py, under');
    }
  }

  lemma {:induction false} InkGlyph(x: int, y: int, f: Font, ch: char, i: nat, colour: Colour,
                                    px: int, py: int, under: Colour)
    requires ValidFont(f) && Printable(ch)
    ensures Ink(GlyphDots(x, y, f, ch, i, colour), px, py, under)
         == if InBox(f, x, y, px, py) && px >= x + i then Cell(f, ch, px - x, py - y, colour) else under
    decreases f.width - i
  {
    if i < f.width {
      var col := ColumnDots(x, y, f, ch, i, 0, colour);
      var rest := GlyphDots(x, y, f, ch, i + 1, colour);
      InkAppend(col, rest, px, py, under);
      InkColumn(x, y, f, ch, i, 0, colour, px, py, under);
      InkGlyph(x, y, f, ch, i + 1, colour, px, py, Ink(col, px, py, under));
    }
  }

  /** `draw_char`: every cell of the `CHAR_WIDTH` x `CHAR_HEIGHT` box at (x, y) that is on the
      screen takes the glyph's colour for that cell, and every other pixel keeps its colour. */
  function DrawChar(s: Screen, x: int, y: int, ch: char, colour: Colour, f: Font): (r: Screen)
    requires ValidFont(f) && Printable(ch)
    ensures forall px, py :: InBounds(px, py) ==>
      PixelAt(r, px, py) == if InBox(f, x, y, px, py) then Cell(f, ch, px - x, py - y, colour)
                            else PixelAt(s, px, py)
  {
    var dots := GlyphDots(x, y, f, ch, 0, colour);
    forall px, py | InBounds(px, py)
      ensures Ink(dots, px, py, PixelAt(s, px, py))
           == if InBox(f, x, y, px, py) then Cell(f, ch, px - x, py - y, colour) else PixelAt(s, px, py)
    {
      InkGlyph(x, y, f, ch, 0, colour, px, py, PixelAt(s, px, py));
    }
    Paint(s, dots)
  }

  /** In background colour a glyph is drawn in inverse video: every on-screen cell of its box
      that foreground colour would light is dark, and the other way round. */
  lemma InverseVideo(s: Screen, t: Screen, x: int, y: int, ch: char, f: Font, px: int, py: int)
    requires ValidFont(f) && Printable(ch)
    requires InBounds(px, py) && InBox(f, x, y, px, py) && py - y < 8
    ensures (PixelAt(DrawChar(s, x, y, ch, Fg, f), px, py) == Fg)
        <==> (PixelAt(DrawChar(t, x, y, ch, Bg, f), px, py) == Bg)
  {
  }

  /** The characters of `text` up to, and not including, its first NUL. */
  function Visible(text: seq<char>): (r: seq<char>)
    ensures r <= text
    ensures forall k :: 0 <= k < |r| ==> r[k] != '\0'
    ensures |r| < |text| ==> text[|r|] == '\0'
  {
    if |text| == 0 || text[0] == '\0' then []
    else [text[0]] + Visible(text[1..])
  }

  /** The values of the 8-bit column counter of `draw_string`, starting from `x` and growing by
      `CHAR_WIDTH` per character, modulo 256. */
  function Origins(x: int, n: nat, width: nat): (r: seq<int>)
    ensures |r| == n
    decreases n
  {
    if n == 0 then [] else [x] + Origins((x + width) % 256, n - 1, width)
  }

  lemma ModAdd(a: int, b: int)
    ensures (a % 256 + b) % 256 == (a + b) % 256
  {
    var q := a / 256;
    assert a == q * 256 + a % 256;
    assert a + b == (a % 256 + b) + q * 256;
  }

  /** Character `k` of a string is drawn at column `(top_left_x + k * CHAR_WIDTH) mod 256`:
      the counter is an `uint8_t`, so text that runs past column 255 wraps round to the
      left of the screen. */
  lemma {:induction false} OriginsClosedForm(x0: int, n: nat, width: nat, k: nat)
    requires k < n
    ensures Origins(x0 % 256, n, width)[k] == (x0 + k * width) % 256
    decreases k
  {
    if k > 0 {
      ModAdd(x0, width);
      OriginsClosedForm(x0 + width, n - 1, width, k - 1);
      assert Origins(x0 % 256, n, width)[k] == Origins((x0 % 256 + width) % 256, n - 1, width)[k - 1];
      assert x0 + width + (k - 1) * width == x0 + k * width;
    } else {
      assert Origins(x0 % 256, n, width)[0] == x0 % 256;
    }
  }

  /** A five-column font starting at column 250 puts its third character at column 4. */
  lemma WrapExample()
    ensures Origins(250, 3, 5) == [250, 255, 4]
  {
  }

  /** The pixels the characters of `text` draw, each glyph at its origin. */
  function StringDots(origins: seq<int>, y: int, text: seq<char>, colour: Colour, f: Font): seq<Dot>
    requires ValidFont(f) && |origins| == |text|
    requires forall k :: 0 <= k < |text| ==> Printable(text[k])
  {
    if |text| == 0 then []
    else GlyphDots(origins[0], y, f, text[0], 0, colour) + StringDots(origins[1..], y, text[1..], colour, f)
  }

  /** What `draw_string` asks of its text: it reaches its NUL within 256 characters (the 8-bit
      index would otherwise wrap round and never stop), and every character before it is one
      `draw_char` accepts. */
  predicate DrawableText(text: seq<char>) {
    var v := Visible(text);
    |v| < 256 && forall k :: 0 <= k < |v| ==> Printable(v[k])
  }

  /** `draw_string`. */
  function DrawString(s: Screen, x: int, y: int, text: seq<char>, colour: Colour, f: Font): Screen
    requires ValidFont(f) && DrawableText(text)
  {
    var v := Visible(text);
    Paint(s, StringDots(Origins(x % 256, |v|, f.width), y, v, colour, f))
  }

  /** Drawing a string is drawing its first character at the counter's start, then the rest
      of the string one `CHAR_WIDTH` further on; text that is empty up to its NUL changes
      nothing. */
  lemma DrawStringFirst(s: Screen, x: int, y: int, text: seq<char>, colour: Colour, f: Font)
    requires ValidFont(f) && DrawableText(text)
    ensures |text| == 0 || text[0] == '\0' ==> DrawString(s, x, y, text, colour, f) == s
    ensures |text| > 0 && text[0] != '\0' ==>
      DrawableText(text[1..])
      && DrawString(s, x, y, text, colour, f)
         == DrawString(DrawChar(s, x % 256, y, text[0], colour, f), x % 256 + f.width, y, text[1..], colour, f)
  {
    if |text| > 0 && text[0] != '\0' {
      var v := Visible(text);
      assert v == [text[0]] + Visible(text[1..]);
      assert v[1..] == Visible(text[1..]);
      var o := Origins(x % 256, |v|, f.width);
      assert o[1..] == Origins((x % 256 + f.width) % 256, |v| - 1, f.width);
      assert StringDots(o, y, v, colour, f)
          == GlyphDots(x % 256, y, f, text[0], 0, colour) + StringDots(o[1..], y, v[1..], colour, f);
      PaintAppend(s, GlyphDots(x % 256, y, f, text[0], 0, colour), StringDots(o[1..], y, v[1..], colour, f));
    }
  }

  /** Whatever follows the first NUL is never drawn. */
  lemma StopsAtNul(s: Screen, x: int, y: int, a: seq<char>, b: seq<char>, colour: Colour, f: Font)
    requires ValidFont(f) && DrawableText(a)
    requires forall k :: 0 <= k < |a| ==> a[k] != '\0'
    ensures DrawableText(a + ['\0'] + b)
    ensures DrawString(s, x, y, a + ['\0'] + b, colour, f) == DrawString(s, x, y, a, colour, f)
  {
    VisibleBeforeNul(a, b);
    VisibleBeforeNul(a, []);
    assert a + ['\0'] + [] == a + ['\0'];
  }

  lemma {:induction false} VisibleBeforeNul(a: seq<char>, b: seq<char>)
    requires forall k :: 0 <= k < |a| ==> a[k] != '\0'
    ensures Visible(a + ['\0'] + b) == a
    ensures Visible(a) == a
  {
    if |a| > 0 {
      assert (a + ['\0'] + b)[1..] == a[1..] + ['\0'] + b;
      VisibleBeforeNul(a[1..], b);
      assert a == [a[0]] + a[1..];
    }
  }
}
