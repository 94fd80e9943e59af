/** `draw_line` of the Teensy support library (cab202_teensy/graphics.c): straight walks for
    vertical and horizontal lines, and an error-accumulating rasteriser otherwise. The general
    case is modelled with exact rational arithmetic where the library uses `float`. */
module Line {
  import Macros
  import opened Graphics

  function Min(a: int, b: int): int {
    if a <= b then a else b
  }

  function Max(a: int, b: int): int {
    if a <= b then b else a
  }

  /** The loop `for (i = a; (b > a) ? i <= b : i >= b; (b > a) ? i++ : i--)`: every integer
      from `a` to `b` inclusive, stepping toward `b`. */
  function Walk(a: int, b: int): (r: seq<int>)
    ensures |r| == Macros.Abs(b - a) + 1
    ensures forall k :: 0 <= k < |r| ==> r[k] == if b >= a then a + k else a - k
    decreases Macros.Abs(b - a)
  {
    if a == b then [a]
    else [a] + Walk(if b > a then a + 1 else a - 1, b)
  }

  /** Whichever way the walk goes, it visits exactly the integers between its ends. */
  lemma WalkCovers(a: int, b: int, v: int)
    ensures v in Walk(a, b) <==> Min(a, b) <= v <= Max(a, b)
  {
    var r := Walk(a, b);
    if Min(a, b) <= v <= Max(a, b) {
      var k := if b >= a then v - a else a - v;
      assert r[k] == v;
    }
  }

  function VerticalDots(x: int, y1: int, y2: int, c: Colour): seq<Dot> {
    var w := Walk(y1, y2);
    seq(|w|, k requires 0 <= k < |w| => Dot(x, w[k], c))
  }

  function HorizontalDots(x1: int, x2: int, y: int, c: Colour): seq<Dot> {
    var w := Walk(x1, x2);
    seq(|w|, k requires 0 <= k < |w| => Dot(w[k], y, c))
  }

  /** The y of the pixel `t` steps away from `y1` in direction `s`, where `s` is
      `(dy > 0) - (dy < 0)`. */
  function At(y1: int, s: int, t: int): int {
    if s > 0 then y1 + t else y1 - t
  }

  /** The inner loop may run its `i`-th round: the error is still at least one half and the
      pixel has not passed the far end `D`. */
  predicate CanStep(err: real, t: int, D: int, i: int) {
    err - i as real >= 0.5 && t + i <= D
  }

  /** The inner `while` loop of the general case: the number of extra pixels drawn in one
      column. Each plots the current pixel, moves one step and takes 1 off the error; it runs
      while the error is at least one half and the pixel has not passed the far end `D`. */
  function Steps(err: real, t: int, D: int): (n: nat)
    ensures forall i :: 0 <= i < n ==> CanStep(err, t, D, i)
    ensures !CanStep(err, t, D, n)
    decreases D + 1 - t
  {
    if err >= 0.5 && t <= D then
      var n := 1 + Steps(err - 1.0, t + 1, D);
      forall i | 0 < i < n
        ensures CanStep(err, t, D, i)
      {
        assert CanStep(err - 1.0, t + 1, D, i - 1);
      }
      assert !CanStep(err - 1.0, t + 1, D, n - 1);
      n
    else 0
  }

  /** The pixels of the inner loop: `n` of them, at steps `t` to `t + n - 1`. */
  function ClimbDots(x: int, y1: int, s: int, t: int, n: nat, c: Colour): seq<Dot> {
    seq(n, i => Dot(x, At(y1, s, t + i), c))
  }

  /** The outer `for` loop of the general case, from column `x` to column `x2`: plot the current
      pixel, add the slope `m` to the error, then run the inner loop. */
  function Sweep(x: int, x2: int, y1: int, s: int, D: int, m: real, t: int, err: real, c: Colour): seq<Dot>
    decreases x2 - x + 1
  {
    if x > x2 then []
    else
      var e := err + m;
      var n := Steps(e, t, D);
      [Dot(x, At(y1, s, t), c)] + ClimbDots(x, y1, s, t, n, c)
        + Sweep(x + 1, x2, y1, s, D, m, t + n, e - n as real, c)
  }

  /** The general case after the endpoints have been put in left-to-right order. */
  function GeneralDots(x1: int, y1: int, x2: int, y2: int, c: Colour): seq<Dot>
    requires x1 < x2
  {
    var dy := y2 - y1;
    var D := Macros.Abs(dy);
    var m := D as real / (x2 - x1) as real;
    Sweep(x1, x2, y1, Macros.Sign(dy), D, m, 0, 0.0, c)
  }

  /** The pixels `draw_line` plots, in order. */
  function LineDots(x1: int, y1: int, x2: int, y2: int, c: Colour): seq<Dot> {
    if x1 == x2 then VerticalDots(x1, y1, y2, c)
    else if y1 == y2 then HorizontalDots(x1, x2, y1, c)
    else if x1 > x2 then GeneralDots(x2, y2, x1, y1, c)
    else GeneralDots(x1, y1, x2, y2, c)
  }

  /** `draw_line`. */
  function DrawLine(s: Screen, x1: int, y1: int, x2: int, y2: int, c: Colour): Screen {
    Paint(s, LineDots(x1, y1, x2, y2, c))
  }

  /** The columns the dots touch. */
  function Columns(dots: seq<Dot>): set<int> {
    set k | 0 <= k < |dots| :: dots[k].x
  }

  /** Dot `d` lies in columns `x` to `x2`, has colour `c`, and is between `t` and `D` steps
      from `y1` in direction `s`. */
  predicate Within(d: Dot, x: int, x2: int, y1: int, s: int, t: int, D: int, c: Colour) {
    x <= d.x <= x2 && d.c == c
    && if s > 0 then y1 + t <= d.y <= y1 + D else y1 - D <= d.y <= y1 - t
  }

  lemma MulNonneg(a: real, b: real)
    requires a >= 0.0 && b >= 0.0
    ensures a * b >= 0.0
  {
  }

  /** The slope `D / dx` of a line is non-negative and `dx` of it make up `D`. */
  lemma SlopeScales(D: real, dx: real)
    requires D >= 0.0 && dx > 0.0
    ensures D / dx >= 0.0
    ensures dx * (D / dx) == D
  {
  }

  lemma ColumnsAppend(a: seq<Dot>, b: seq<Dot>)
    ensures Columns(a + b) == Columns(a) + Columns(b)
  {
    forall v | v in Columns(a + b)
      ensures v in Columns(a) + Columns(b)
    {
      var k :| 0 <= k < |a + b| && v == (a + b)[k].x;
      if k >= |a| {
        assert v == b[k - |a|].x;
      }
    }
    forall v | v in Columns(a)
      ensures v in Columns(a + b)
    {
      var k :| 0 <= k < |a| && v == a[k].x;
      assert v == (a + b)[k].x;
    }
    forall v | v in Columns(b)
      ensures v in Columns(a + b)
    {
      var k :| 0 <= k < |b| && v == b[k].x;
      assert v == (a + b)[k + |a|].x;
    }
  }

  /** The loop invariant of the general case, on entering column `x` after `t` steps. The
      error is `(x - x1) * m - t`, written here as `D - (x2 - x) * m - t` because
      `D == (x2 - x1) * m`; it is at least minus one half, and below one half unless the far
      end has been passed. */
  predicate Invariant(x: int, x2: int, D: int, m: real, t: int, err: real) {
    x <= x2 + 1 && 0 <= t && m >= 0.0
    && err == D as real - (x2 - x) as real * m - t as real
    && err >= -0.5
    && (err < 0.5 || t > D)
  }

  /** One column keeps the invariant; inside the sweep the current pixel has not passed the far
      end, and the last column starts exactly at it. */
  lemma SweepStep(x: int, x2: int, D: int, m: real, t: int, err: real)
    requires Invariant(x, x2, D, m, t, err) && x <= x2
    ensures t <= D
    ensures x == x2 ==> t == D
    ensures Invariant(x + 1, x2, D, m, t + Steps(err + m, t, D), err + m - Steps(err + m, t, D) as real)
  {
    MulNonneg((x2 - x) as real, m);
    assert (x2 - x) as real * m == (x2 - (x + 1)) as real * m + m;
    var n := Steps(err + m, t, D);
    if n > 0 {
      assert CanStep(err + m, t, D, n - 1);
    }
  }

  predicate AllWithin(dots: seq<Dot>, x: int, x2: int, y1: int, s: int, t: int, D: int, c: Colour) {
    forall k :: 0 <= k < |dots| ==> Within(dots[k], x, x2, y1, s, t, D, c)
  }

  lemma AllWithinJoin(head: seq<Dot>, rest: seq<Dot>, x: int, x2: int, y1: int, s: int, t: int, t': int, D: int, c: Colour)
    requires t <= t'
    requires AllWithin(head, x, x2, y1, s, t, D, c)
    requires AllWithin(rest, x + 1, x2, y1, s, t', D, c)
    ensures AllWithin(head + rest, x, x2, y1, s, t, D, c)
  {
    forall k | 0 <= k < |head + rest|
      ensures Within((head + rest)[k], x, x2, y1, s, t, D, c)
    {
      if k >= |head| {
        assert (head + rest)[k] == rest[k - |head|];
      }
    }
  }

  /** The pixels one column plots: its first pixel at step `t`, then `n` more up the steps the
      inner loop allows. */
  lemma ColumnWithin(x: int, x2: int, y1: int, s: int, t: int, D: int, err: real, c: Colour)
    requires x <= x2 && 0 <= t <= D
    ensures AllWithin([Dot(x, At(y1, s, t), c)] + ClimbDots(x, y1, s, t, Steps(err, t, D), c), x, x2, y1, s, t, D, c)
  {
    var n := Steps(err, t, D);
    var head := [Dot(x, At(y1, s, t), c)] + ClimbDots(x, y1, s, t, n, c);
    forall k | 0 <= k < |head|
      ensures Within(head[k], x, x2, y1, s, t, D, c)
    {
      if k > 0 {
        assert head[k] == ClimbDots(x, y1, s, t, n, c)[k - 1] == Dot(x, At(y1, s, t + (k - 1)), c);
        assert CanStep(err, t, D, k - 1);
      } else {
        assert head[k] == Dot(x, At(y1, s, t), c);
      }
    }
  }

  /** Every pixel of the rest of the sweep lies in columns `x` to `x2`, has colour `c`, and is
      between step `t` and the far end. */
  lemma {:induction false} SweepWithin(x: int, x2: int, y1: int, s: int, D: int, m: real, t: int, err: real, c: Colour)
    requires Invariant(x, x2, D, m, t, err)
    ensures AllWithin(Sweep(x, x2, y1, s, D, m, t, err, c), x, x2, y1, s, t, D, c)
    decreases x2 - x + 1
  {
    if x <= x2 {
      SweepStep(x, x2, D, m, t, err);
      var n := Steps(err + m, t, D);
      var head := [Dot(x, At(y1, s, t), c)] + ClimbDots(x, y1, s, t, n, c);
      var rest := Sweep(x + 1, x2, y1, s, D, m, t + n, err + m - n as real, c);
      SweepWithin(x + 1, x2, y1, s, D, m, t + n, err + m - n as real, c);
      ColumnWithin(x, x2, y1, s, t, D, err + m, c);
      AllWithinJoin(head, rest, x, x2, y1, s, t, t + n, D, c);
    }
  }

  /** The rest of the sweep puts pixels in exactly the columns `x` to `x2`. */
  lemma {:induction false} SweepColumns(x: int, x2: int, y1: int, s: int, D: int, m: real, t: int, err: real, c: Colour)
    requires Invariant(x, x2, D, m, t, err)
    ensures forall v :: v in Columns(Sweep(x, x2, y1, s, D, m, t, err, c)) <==> x <= v <= x2
    decreases x2 - x + 1
  {
    if x <= x2 {
      SweepStep(x, x2, D, m, t, err);
      var n := Steps(err + m, t, D);
      var head := [Dot(x, At(y1, s, t), c)] + ClimbDots(x, y1, s, t, n, c);
      var rest := Sweep(x + 1, x2, y1, s, D, m, t + n, err + m - n as real, c);
      SweepColumns(x + 1, x2, y1, s, D, m, t + n, err + m - n as real, c);
      ColumnsAppend(head, rest);
      assert head[0].x == x;
      assert forall v :: v in Columns(head) ==> v == x;
    }
  }

  /** The sweep starts at the current pixel and, in its last column, reaches the far end. */
  lemma {:induction false} SweepEnds(x: int, x2: int, y1: int, s: int, D: int, m: real, t: int, err: real, c: Colour)
    requires Invariant(x, x2, D, m, t, err) && x <= x2
    ensures (x, At(y1, s, t)) in Positions(Sweep(x, x2, y1, s, D, m, t, err, c))
    ensures (x2, At(y1, s, D)) in Positions(Sweep(x, x2, y1, s, D, m, t, err, c))
    decreases x2 - x
  {
    SweepStep(x, x2, D, m, t, err);
    var n := Steps(err + m, t, D);
    var head := [Dot(x, At(y1, s, t), c)] + ClimbDots(x, y1, s, t, n, c);
    var rest := Sweep(x + 1, x2, y1, s, D, m, t + n, err + m - n as real, c);
    var dots := head + rest;
    assert dots[0] == Dot(x, At(y1, s, t), c);
    if x < x2 {
      SweepEnds(x + 1, x2, y1, s, D, m, t + n, err + m - n as real, c);
      var p := (x2, At(y1, s, D));
      var j :| 0 <= j < |rest| && p == (rest[j].x, rest[j].y);
      assert dots[|head| + j] == rest[j];
    }
  }

  /** The general case draws one connected run per column, from the left endpoint's column to
      the right endpoint's and nowhere else, never leaves the band between the endpoints' rows,
      and draws both endpoints. */
  lemma GeneralLine(x1: int, y1: int, x2: int, y2: int, c: Colour)
    requires x1 != x2 && y1 != y2
    ensures var dots := LineDots(x1, y1, x2, y2, c);
      && Uniform(dots, c)
      && (forall k :: 0 <= k < |dots| ==> Min(y1, y2) <= dots[k].y <= Max(y1, y2))
      && (forall v :: v in Columns(dots) <==> Min(x1, x2) <= v <= Max(x1, x2))
      && (x1, y1) in Positions(dots)
      && (x2, y2) in Positions(dots)
  {
    if x1 < x2 {
      GeneralShape(x1, y1, x2, y2, c);
    } else {
      GeneralShape(x2, y2, x1, y1, c);
    }
  }

  lemma GeneralShape(x1: int, y1: int, x2: int, y2: int, c: Colour)
    requires x1 < x2 && y1 != y2
    ensures var dots := GeneralDots(x1, y1, x2, y2, c);
      && Uniform(dots, c)
      && (forall k :: 0 <= k < |dots| ==> Min(y1, y2) <= dots[k].y <= Max(y1, y2))
      && (forall v :: v in Columns(dots) <==> x1 <= v <= x2)
      && (x1, y1) in Positions(dots)
      && (x2, y2) in Positions(dots)
  {
    var dy := y2 - y1;
    var D := Macros.Abs(dy);
    var s := Macros.Sign(dy);
    var m := D as real / (x2 - x1) as real;
    SlopeScales(D as real, (x2 - x1) as real);
    assert Invariant(x1, x2, D, m, 0, 0.0);
    SweepWithin(x1, x2, y1, s, D, m, 0, 0.0, c);
    SweepColumns(x1, x2, y1, s, D, m, 0, 0.0, c);
    SweepEnds(x1, x2, y1, s, D, m, 0, 0.0, c);
    assert At(y1, s, 0) == y1;
    assert At(y1, s, D) == y2;
  }

  /** A vertical line draws exactly the inclusive segment between its ends. */
  lemma VerticalLine(x: int, y1: int, y2: int, c: Colour)
    ensures Uniform(LineDots(x, y1, x, y2, c), c)
    ensures Positions(LineDots(x, y1, x, y2, c)) == set y | Min(y1, y2) <= y <= Max(y1, y2) :: (x, y)
  {
    var dots := LineDots(x, y1, x, y2, c);
    var w := Walk(y1, y2);
    forall p | p in Positions(dots)
      ensures p.0 == x && Min(y1, y2) <= p.1 <= Max(y1, y2)
    {
      var k :| 0 <= k < |dots| && p == (dots[k].x, dots[k].y);
      WalkCovers(y1, y2, w[k]);
    }
    forall y | Min(y1, y2) <= y <= Max(y1, y2)
      ensures (x, y) in Positions(dots)
    {
      WalkCovers(y1, y2, y);
      var k :| 0 <= k < |w| && w[k] == y;
      assert dots[k] == Dot(x, y, c);
    }
  }

  /** A horizontal line draws exactly the inclusive segment between its ends. */
  lemma HorizontalLine(x1: int, x2: int, y: int, c: Colour)
    requires x1 != x2
    ensures Uniform(LineDots(x1, y, x2, y, c), c)
    ensures Positions(LineDots(x1, y, x2, y, c)) == set x | Min(x1, x2) <= x <= Max(x1, x2) :: (x, y)
  {
    var dots := LineDots(x1, y, x2, y, c);
    var w := Walk(x1, x2);
    forall p | p in Positions(dots)
      ensures p.1 == y && Min(x1, x2) <= p.0 <= Max(x1, x2)
    {
      var k :| 0 <= k < |dots| && p == (dots[k].x, dots[k].y);
      WalkCovers(x1, x2, w[k]);
    }
    forall x | Min(x1, x2) <= x <= Max(x1, x2)
      ensures (x, y) in Positions(dots)
    {
      WalkCovers(x1, x2, x);
      var k :| 0 <= k < |w| && w[k] == x;
      assert dots[k] == Dot(x, y, c);
    }
  }

  /** Swapping the endpoints draws the same line. */
  lemma LineSymmetric(s: Screen, x1: int, y1: int, x2: int, y2: int, c: Colour)
    ensures DrawLine(s, x1, y1, x2, y2, c) == DrawLine(s, x2, y2, x1, y1, c)
  {
    if x1 == x2 {
      VerticalLine(x1, y1, y2, c);
      VerticalLine(x1, y2, y1, c);
      PaintUniformBySet(s, LineDots(x1, y1, x2, y2, c), LineDots(x2, y2, x1, y1, c), c);
    } else if y1 == y2 {
      HorizontalLine(x1, x2, y1, c);
      HorizontalLine(x2, x1, y1, c);
      PaintUniformBySet(s, LineDots(x1, y1, x2, y2, c), LineDots(x2, y2, x1, y1, c), c);
    }
  }

  /** The line from (0, 0) to (10, 0) on a clear screen lights exactly eleven pixels. */
  lemma ElevenPixels()
    ensures var r := DrawLine(ClearScreen(), 0, 0, 10, 0, Fg);
      forall x, y :: InBounds(x, y) ==> (PixelAt(r, x, y) == Fg <==> y == 0 && 0 <= x <= 10)
  {
    var dots := LineDots(0, 0, 10, 0, Fg);
    HorizontalLine(0, 10, 0, Fg);
    forall x, y | InBounds(x, y)
      ensures PixelAt(Paint(ClearScreen(), dots), x, y) == Fg <==> y == 0 && 0 <= x <= 10
    {
      InkUniform(dots, Fg, x, y, Bg);
    }
  }
}
