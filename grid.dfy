/**
 * The grid of a Net game: its shape, cell coordinates, the `index` macro
 * that lays a width*height grid out in a flat byte array row by row, and
 * the OFFSET macro that steps to a neighbour with wrap-around
 * (net.c:47-59).
 */
module Grid {
  import opened Directions

  /** The fields of game_state that fix the grid: width, height, wrapping. */
  datatype Shape = Shape(width: int, height: int, wrapping: bool)

  datatype Cell = Cell(x: int, y: int)

  /** new_game asserts width > 2 and height > 2 (net.c:125-126). */
  predicate ValidShape(sh: Shape) {
    sh.width > 2 && sh.height > 2
  }

  predicate InGrid(sh: Shape, c: Cell) {
    0 <= c.x < sh.width && 0 <= c.y < sh.height
  }

  /** The centre tile (w/2, h/2), where growth and reachability start. */
  function Centre(sh: Shape): Cell {
    Cell(sh.width / 2, sh.height / 2)
  }

  /** C's `%`, which truncates toward zero (Dafny's `%` is Euclidean). */
  function CRem(a: int, b: int): (r: int)
    requires b > 0
    ensures a >= 0 ==> 0 <= r < b
    ensures a < 0 ==> -b < r <= 0
    ensures a >= 0 ==> r == a % b
  {
    if a >= 0 then a % b else -((-a) % b)
  }

  /** OFFSET(x2, y2, x1, y1, dir, state): always wraps, whatever `wrapping` says. */
  function Offset(sh: Shape, c: Cell, dir: bv8): (r: Cell)
    requires sh.width > 0 && sh.height > 0
    ensures InGrid(sh, c) ==> InGrid(sh, r)
  {
    Cell(CRem(c.x + sh.width + X(dir), sh.width), CRem(c.y + sh.height + Y(dir), sh.height))
  }

  /** One coordinate of an OFFSET step inside the grid, without the modulo. */
  lemma WrapStep(a: int, v: int, n: int)
    requires n > 1 && 0 <= a < n && -1 <= v <= 1
    ensures CRem(a + n + v, n) == if a + v < 0 then n - 1 else if a + v >= n then 0 else a + v
  {
    var s := a + n + v;
    if a + v < 0 {
      assert s == (n - 1) + n * 0;
    } else if a + v >= n {
      assert s == 0 + n * 2;
    } else {
      assert s == (a + v) + n * 1;
    }
  }

  /** OFFSET of an in-grid cell by a direction, without the modulo. */
  lemma OffsetStep(sh: Shape, c: Cell, d: bv8)
    requires ValidShape(sh) && InGrid(sh, c) && IsDir(d)
    ensures var x, y := c.x + X(d), c.y + Y(d);
            Offset(sh, c, d) == Cell(if x < 0 then sh.width - 1 else if x >= sh.width then 0 else x,
                                     if y < 0 then sh.height - 1 else if y >= sh.height then 0 else y)
  {
    WrapStep(c.x, X(d), sh.width);
    WrapStep(c.y, Y(d), sh.height);
  }

  /** OFFSET by d followed by OFFSET by F(d) comes back to the start cell. */
  lemma OffsetRoundTrip(sh: Shape, c: Cell, d: bv8)
    requires ValidShape(sh) && InGrid(sh, c) && IsDir(d)
    ensures Offset(sh, Offset(sh, c, d), F(d)) == c
  {
    FlipIsOpposite(d);
    OffsetStep(sh, c, d);
    OffsetStep(sh, Offset(sh, c, d), F(d));
  }

  /** A step in a direction never stays on the same cell, and distinct directions reach distinct cells. */
  lemma OffsetMoves(sh: Shape, c: Cell, d: bv8, e: bv8)
    requires ValidShape(sh) && InGrid(sh, c) && IsDir(d) && IsDir(e)
    ensures Offset(sh, c, d) != c
    ensures d != e ==> Offset(sh, c, d) != Offset(sh, c, e)
  {
    OffsetStep(sh, c, d);
    OffsetStep(sh, c, e);
  }

  /** The `index` macro: position of (x, y) in a row-major array of width w. */
  function Index(w: int, x: int, y: int): int {
    y * w + x
  }

  /** A flat array that holds one entry per cell of the grid. */
  predicate Fits<T>(sh: Shape, s: seq<T>) {
    ValidShape(sh) && |s| == sh.width * sh.height
  }

  /** Position of an in-grid cell in the flat array. */
  function Slot(sh: Shape, c: Cell): (i: nat)
    requires ValidShape(sh) && InGrid(sh, c)
    ensures i < sh.width * sh.height
    ensures i == Index(sh.width, c.x, c.y)
  {
    assert c.y * sh.width <= (sh.height - 1) * sh.width by {
      MulMono(c.y, sh.height - 1, sh.width);
    }
    c.y * sh.width + c.x
  }

  lemma MulMono(a: int, b: int, k: int)
    requires 0 <= a <= b && k >= 0
    ensures a * k <= b * k
  {
  }

  /** Distinct in-grid cells occupy distinct positions. */
  lemma SlotInjective(sh: Shape, c1: Cell, c2: Cell)
    requires ValidShape(sh) && InGrid(sh, c1) && InGrid(sh, c2)
    requires Slot(sh, c1) == Slot(sh, c2)
    ensures c1 == c2
  {
    var w := sh.width;
    if c1.y < c2.y {
      MulMono(c1.y + 1, c2.y, w);
      assert false;
    } else if c2.y < c1.y {
      MulMono(c2.y + 1, c1.y, w);
      assert false;
    }
  }

  /** The byte of cell c: `index(state, a, x, y)`. */
  function At<T>(sh: Shape, s: seq<T>, c: Cell): T
    requires Fits(sh, s) && InGrid(sh, c)
  {
    s[Slot(sh, c)]
  }

  /** Every position of a flat array is the position of exactly one in-grid cell. */
  lemma SlotOfIndex(sh: Shape, i: int)
    requires ValidShape(sh) && 0 <= i < sh.width * sh.height
    ensures InGrid(sh, Cell(i % sh.width, i / sh.width)) && Slot(sh, Cell(i % sh.width, i / sh.width)) == i
  {
    var w, q, r := sh.width, i / sh.width, i % sh.width;
    DivMod(i, w);
    if q >= sh.height {
      MulMono(sh.height, q, w);
      assert false;
    }
  }

  /** Quotient and remainder by w are unique. */
  lemma UniqueDivMod(w: int, q1: int, r1: int, q2: int, r2: int)
    requires w > 0 && 0 <= r1 < w && 0 <= r2 < w && q1 * w + r1 == q2 * w + r2
    ensures q1 == q2 && r1 == r2
  {
    var k := q1 - q2;
    assert k * w == q1 * w - q2 * w;
    if k >= 1 {
      MulMono(1, k, w);
    } else if k <= -1 {
      MulMono(1, -k, w);
    }
  }

  lemma DivMod(i: int, w: int)
    requires i >= 0 && w > 0
    ensures i == (i / w) * w + i % w && 0 <= i % w < w && i / w >= 0
  {
  }

  /** `a[c] |= v`: or bits into one cell. */
  function OrAt(sh: Shape, b: seq<bv8>, c: Cell, v: bv8): (r: seq<bv8>)
    requires Fits(sh, b) && InGrid(sh, c)
    ensures Fits(sh, r)
  {
    Set(sh, b, c, At(sh, b, c) | v)
  }

  /** Two flat arrays that agree on every cell are equal. */
  lemma SameCells<T>(sh: Shape, a: seq<T>, b: seq<T>)
    requires Fits(sh, a) && Fits(sh, b)
    requires forall c | InGrid(sh, c) :: At(sh, a, c) == At(sh, b, c)
    ensures a == b
  {
    forall i | 0 <= i < |a|
      ensures a[i] == b[i]
    {
      SlotOfIndex(sh, i);
      assert At(sh, a, Cell(i % sh.width, i / sh.width)) == At(sh, b, Cell(i % sh.width, i / sh.width));
    }
  }

  /** Assign cell c: `index(state, a, x, y) = v`. Only c changes. */
  function Set<T>(sh: Shape, s: seq<T>, c: Cell, v: T): (r: seq<T>)
    requires Fits(sh, s) && InGrid(sh, c)
    ensures Fits(sh, r)
    ensures At(sh, r, c) == v
    ensures forall c' | InGrid(sh, c') && c' != c :: At(sh, r, c') == At(sh, s, c')
  {
    SetKeepsOthers(sh, s, c, v);
    s[Slot(sh, c) := v]
  }

  lemma SetKeepsOthers<T>(sh: Shape, s: seq<T>, c: Cell, v: T)
    requires Fits(sh, s) && InGrid(sh, c)
    ensures forall c' | InGrid(sh, c') && c' != c :: s[Slot(sh, c) := v][Slot(sh, c')] == s[Slot(sh, c')]
  {
    forall c' | InGrid(sh, c') && c' != c
      ensures s[Slot(sh, c) := v][Slot(sh, c')] == s[Slot(sh, c')]
    {
      if Slot(sh, c') == Slot(sh, c) {
        SlotInjective(sh, c', c);
      }
    }
  }

  /** A row-major array of zero bytes (snewn followed by memset 0). */
  function Zeros(n: nat): (r: seq<bv8>)
    ensures |r| == n && forall i | 0 <= i < n :: r[i] == 0
  {
    seq(n, _ => 0)
  }
}
