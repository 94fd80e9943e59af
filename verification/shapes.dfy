/** The stencil shapes of the game (main.c) and the two routines that use them: `draw_pixels`,
    which plots the non-space cells of a stencil, and `pixel_collision`, which asks whether two
    placed stencils share a non-space cell. */
module Shapes {
  import opened Graphics

  /** A shape: `w` by `h` cells stored row by row; a space is an empty cell and any other
      character a solid one. */
  datatype Stencil = Stencil(w: nat, h: nat, cells: string)

  predicate ValidStencil(st: Stencil) {
    |st.cells| == st.w * st.h
  }

  const Spaceship := Stencil(6, 2, "......" + "......")

  const Asteroid := Stencil(7, 7,
    "  ...  " +
    " ..... " +
    "......." +
    "......." +
    " ..... " +
    "  ...  " +
    "   .   ")

  const Boulder := Stencil(5, 5,
    "  .  " +
    " ... " +
    "....." +
    " ... " +
    "  .  ")

  const Fragment := Stencil(3, 3,
    " . " +
    "..." +
    " . ")

  const Plasma := Stencil(2, 2, ".." + "..")

  const Animation := Stencil(5, 1, ".....")

  lemma ShapesValid()
    ensures ValidStencil(Spaceship) && ValidStencil(Asteroid) && ValidStencil(Boulder)
    ensures ValidStencil(Fragment) && ValidStencil(Plasma) && ValidStencil(Animation)
  {
  }

  lemma CellIndexInRange(i: nat, j: nat, w: nat, h: nat)
    requires i < w && j < h
    ensures i + j * w < w * h
  {
    assert (j + 1) * w <= h * w;
  }

  /** Cell (i, j) of the stencil is not a space: `pixels[i + j * w] != ' '`. */
  predicate Solid(st: Stencil, i: int, j: int)
    requires ValidStencil(st)
  {
    0 <= i < st.w && 0 <= j < st.h
    && (CellIndexInRange(i, j, st.w, st.h); st.cells[i + j * st.w] != ' ')
  }

  /** Absolute cell (i, j) lies in the box of the stencil placed at (x, y). */
  predicate InBox(st: Stencil, x: int, y: int, i: int, j: int) {
    x <= i < x + st.w && y <= j < y + st.h
  }

  /** Absolute cell (i, j) is solid in both placed stencils. */
  predicate CommonCell(s0: Stencil, x0: int, y0: int, s1: Stencil, x1: int, y1: int, i: int, j: int)
    requires ValidStencil(s0) && ValidStencil(s1)
  {
    InBox(s0, x0, y0, i, j) && InBox(s1, x1, y1, i, j)
    && Solid(s0, i - x0, j - y0) && Solid(s1, i - x1, j - y1)
  }

  /** The test of the inner loop body of `pixel_collision` at absolute cell (i, j). */
  predicate CellTest(s0: Stencil, x0: int, y0: int, s1: Stencil, x1: int, y1: int, i: int, j: int)
    requires ValidStencil(s0) && ValidStencil(s1)
    requires InBox(s0, x0, y0, i, j)
  {
    if i >= x1 && i < x1 + s1.w && j >= y1 && j < y1 + s1.h && Solid(s0, i - x0, j - y0) then
      i >= x0 && i < x0 + s0.w && j >= y0 && j < y0 + s0.h && Solid(s1, i - x1, j - y1)
    else false
  }

  /** The inner loop: columns `i` to `x0 + w0 - 1` of row `j`. */
  function RowHit(s0: Stencil, x0: int, y0: int, s1: Stencil, x1: int, y1: int, j: int, i: int): (r: bool)
    requires ValidStencil(s0) && ValidStencil(s1) && y0 <= j < y0 + s0.h && x0 <= i
    ensures r <==> exists i' :: i <= i' < x0 + s0.w && CommonCell(s0, x0, y0, s1, x1, y1, i', j)
    decreases x0 + s0.w - i
  {
    if i >= x0 + s0.w then false
    else if CellTest(s0, x0, y0, s1, x1, y1, i, j) then
      assert CommonCell(s0, x0, y0, s1, x1, y1, i, j);
      true
    else
      var r := RowHit(s0, x0, y0, s1, x1, y1, j, i + 1);
      assert !CommonCell(s0, x0, y0, s1, x1, y1, i, j);
      r
  }

  /** The outer loop: rows `j` to `y0 + h0 - 1`. */
  function RowsHit(s0: Stencil, x0: int, y0: int, s1: Stencil, x1: int, y1: int, j: int): (r: bool)
    requires ValidStencil(s0) && ValidStencil(s1) && y0 <= j
    ensures r <==> exists i', j' :: j <= j' && CommonCell(s0, x0, y0, s1, x1, y1, i', j')
    decreases y0 + s0.h - j
  {
    if j >= y0 + s0.h then
      assert forall i', j' :: j <= j' ==> !CommonCell(s0, x0, y0, s1, x1, y1, i', j');
      false
    else
      var here := RowHit(s0, x0, y0, s1, x1, y1, j, x0);
      var later := RowsHit(s0, x0, y0, s1, x1, y1, j + 1);
      assert forall i' :: CommonCell(s0, x0, y0, s1, x1, y1, i', j) ==> x0 <= i' < x0 + s0.w;
      here || later
  }

  /** `pixel_collision`: true exactly when some absolute cell lies in both boxes and is solid in
      both stencils. */
  function PixelCollision(s0: Stencil, x0: int, y0: int, s1: Stencil, x1: int, y1: int): (r: bool)
    requires ValidStencil(s0) && ValidStencil(s1)
    ensures r <==> exists i, j :: CommonCell(s0, x0, y0, s1, x1, y1, i, j)
  {
    RowsHit(s0, x0, y0, s1, x1, y1, y0)
  }

  /** Which stencil is tested first does not matter. */
  lemma CollisionSymmetric(s0: Stencil, x0: int, y0: int, s1: Stencil, x1: int, y1: int)
    requires ValidStencil(s0) && ValidStencil(s1)
    ensures PixelCollision(s0, x0, y0, s1, x1, y1) == PixelCollision(s1, x1, y1, s0, x0, y0)
  {
    if PixelCollision(s0, x0, y0, s1, x1, y1) {
      var i, j :| CommonCell(s0, x0, y0, s1, x1, y1, i, j);
      assert CommonCell(s1, x1, y1, s0, x0, y0, i, j);
    }
    if PixelCollision(s1, x1, y1, s0, x0, y0) {
      var i, j :| CommonCell(s1, x1, y1, s0, x0, y0, i, j);
      assert CommonCell(s0, x0, y0, s1, x1, y1, i, j);
    }
  }

  /** Stencils whose boxes do not overlap never collide. */
  lemma DisjointBoxesMiss(s0: Stencil, x0: int, y0: int, s1: Stencil, x1: int, y1: int)
    requires ValidStencil(s0) && ValidStencil(s1)
    requires x0 + s0.w <= x1 || x1 + s1.w <= x0 || y0 + s0.h <= y1 || y1 + s1.h <= y0
    ensures !PixelCollision(s0, x0, y0, s1, x1, y1)
  {
  }

  /** Collision is cell-exact, not box-based: a plasma bolt over the empty top-left corner of an
      asteroid's box does not hit it, one cell further in it does. */
  lemma CornerOfAsteroid()
    ensures ValidStencil(Asteroid) && ValidStencil(Plasma)
    ensures !PixelCollision(Asteroid, 0, 0, Plasma, -1, -1)
    ensures PixelCollision(Asteroid, 0, 0, Plasma, 0, 0)
  {
    assert CommonCell(Asteroid, 0, 0, Plasma, 0, 0, 1, 1);
    assert forall i, j :: !CommonCell(Asteroid, 0, 0, Plasma, -1, -1, i, j);
  }

  /** The plotting loop of `draw_pixels` for row `j`, from column `i` on. */
  function RowDots(left: int, top: int, st: Stencil, j: nat, i: nat): seq<Dot>
    requires ValidStencil(st)
    decreases st.w - i
  {
    if i >= st.w then []
    else (if Solid(st, i, j) then [Dot(left + i, top + j, Fg)] else []) + RowDots(left, top, st, j, i + 1)
  }

  /** The plotting loops of `draw_pixels` from row `j` on. */
  function StencilDots(left: int, top: int, st: Stencil, j: nat): seq<Dot>
    requires ValidStencil(st)
    decreases st.h - j
  {
    if j >= st.h then [] else RowDots(left, top, st, j, 0) + StencilDots(left, top, st, j + 1)
  }

  lemma {:induction false} RowDotsShape(left: int, top: int, st: Stencil, j: nat, i: nat)
    requires ValidStencil(st)
    ensures Uniform(RowDots(left, top, st, j, i), Fg)
    ensures forall px, py ::
      (px, py) in Positions(RowDots(left, top, st, j, i)) <==>
        (py == top + j && left + i <= px && Solid(st, px - left, j))
    decreases st.w - i
  {
    if i < st.w {
      var here := if Solid(st, i, j) then [Dot(left + i, top + j, Fg)] else [];
      RowDotsShape(left, top, st, j, i + 1);
      PositionsAppend(here, RowDots(left, top, st, j, i + 1));
      assert Positions(here) == if Solid(st, i, j) then {(left + i, top + j)} else {} by {
        if Solid(st, i, j) {
          assert here[0] == Dot(left + i, top + j, Fg);
        }
      }
    }
  }

  lemma {:induction false} StencilDotsShape(left: int, top: int, st: Stencil, j: nat)
    requires ValidStencil(st)
    ensures Uniform(StencilDots(left, top, st, j), Fg)
    ensures forall px, py ::
      (px, py) in Positions(StencilDots(left, top, st, j)) <==>
        (top + j <= py && Solid(st, px - left, py - top))
    decreases st.h - j
  {
    if j < st.h {
      RowDotsShape(left, top, st, j, 0);
      StencilDotsShape(left, top, st, j + 1);
      PositionsAppend(RowDots(left, top, st, j, 0), StencilDots(left, top, st, j + 1));
    }
  }

  /** `draw_pixels`: exactly the on-screen pixels under solid cells of the stencil become
      foreground; every other pixel keeps its colour. */
  function DrawPixels(s: Screen, left: int, top: int, st: Stencil): (r: Screen)
    requires ValidStencil(st)
    ensures forall px, py :: InBounds(px, py) ==>
      PixelAt(r, px, py) == if Solid(st, px - left, py - top) then Fg else PixelAt(s, px, py)
  {
    var dots := StencilDots(left, top, st, 0);
    StencilDotsShape(left, top, st, 0);
    forall px, py | InBounds(px, py)
      ensures Ink(dots, px, py, PixelAt(s, px, py))
           == if Solid(st, px - left, py - top) then Fg else PixelAt(s, px, py)
    {
      InkUniform(dots, Fg, px, py, PixelAt(s, px, py));
    }
    Paint(s, dots)
  }

  /** What `draw_pixels` lights is what `pixel_collision` tests: two stencils collide exactly
      when some pixel is lit by both (for pixels on the screen). */
  lemma CollisionIsSharedInk(s0: Stencil, x0: int, y0: int, s1: Stencil, x1: int, y1: int, px: int, py: int)
    requires ValidStencil(s0) && ValidStencil(s1) && InBounds(px, py)
    requires PixelAt(DrawPixels(ClearScreen(), x0, y0, s0), px, py) == Fg
    requires PixelAt(DrawPixels(ClearScreen(), x1, y1, s1), px, py) == Fg
    ensures PixelCollision(s0, x0, y0, s1, x1, y1)
  {
    assert CommonCell(s0, x0, y0, s1, x1, y1, px, py);
  }
}
