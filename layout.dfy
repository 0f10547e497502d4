/**
 * The phases of new_game after the growth loop, as functions on values:
 * the border barriers (net.c:143-154), the barrier candidates
 * (net.c:325-338), the shuffle (net.c:340-349) and the barrier placement
 * (net.c:351-395). Module Generator runs them in place and is proved to
 * compute these functions.
 */
module Layout {
  import opened Directions
  import opened Grid
  import opened Xyd
  import opened Tree234
  import opened Random
  import opened Wrappers
  import opened Growth

  // ---------------------------------------------------------------------
  // Barrier bytes.

  /** A barrier byte from its four sides. */
  function Bits(up: bool, down: bool, left: bool, right: bool): (r: bv8)
    ensures Has(r, U) == up && Has(r, D) == down && Has(r, L) == left && Has(r, R) == right
    ensures IsMask(r)
  {
    (if up then U else 0) | (if down then D else 0) | (if left then L else 0) | (if right then R else 0)
  }

  /**
   * The border set-up exactly as written: `barrier(state, y, 0) |= L` and
   * `barrier(state, y, state->width-1) |= R` pass y as the x coordinate,
   * so L lands on flat positions 0..h-1 and R on (w-1)*w .. (w-1)*w+h-1.
   * The last of those is inside the array only when w <= h.
   */
  function BorderAsWritten(sh: Shape): (b: seq<bv8>)
    requires ValidShape(sh) && BorderInBounds(sh)
    ensures Fits(sh, b)
  {
    var w, h := sh.width, sh.height;
    if sh.wrapping then Zeros(w * h)
    else seq(w * h, i => Bits(i < w, (h - 1) * w <= i, i < h, (w - 1) * w <= i < (w - 1) * w + h))
  }

  /** The as-written border loop writes only inside the barrier array. */
  predicate BorderInBounds(sh: Shape) {
    sh.wrapping || sh.width <= sh.height
  }

  /** The R writes of the as-written loop stay inside the array exactly when w <= h. */
  lemma BorderWritesInBounds(w: int, h: int)
    requires w > 2 && h > 2
    ensures Index(w, h - 1, w - 1) < w * h <==> w <= h
  {
    assert Index(w, h - 1, w - 1) - w * h == (w - 1) * (w - h) - 1;
    if w > h {
      MulMono(1, w - 1, w - h);
    } else {
      MulMono(0, h - w, w - 1);
    }
  }

  /** What the loop is evidently meant to do: block the outer edge of the grid, on both sides. */
  function Border(sh: Shape): (b: seq<bv8>)
    requires ValidShape(sh)
    ensures Fits(sh, b)
  {
    var w, h := sh.width, sh.height;
    if sh.wrapping then Zeros(w * h)
    else seq(w * h, i => Bits(i / w == 0, i / w == h - 1, i % w == 0, i % w == w - 1))
  }

  /** The position of a cell splits back into its coordinates. */
  lemma SlotDivMod(sh: Shape, c: Cell)
    requires ValidShape(sh) && InGrid(sh, c)
    ensures Slot(sh, c) / sh.width == c.y && Slot(sh, c) % sh.width == c.x
  {
    var w, s := sh.width, Slot(sh, c);
    DivMod(s, w);
    UniqueDivMod(w, s / w, s % w, c.y, c.x);
  }

  /** The corrected border blocks exactly the four outer edges of a non-wrapping grid. */
  lemma BorderIsOuterEdge(sh: Shape, c: Cell)
    requires ValidShape(sh) && InGrid(sh, c)
    ensures var b := At(sh, Border(sh), c);
            && b == Bits(!sh.wrapping && c.y == 0, !sh.wrapping && c.y == sh.height - 1,
                         !sh.wrapping && c.x == 0, !sh.wrapping && c.x == sh.width - 1)
            && IsMask(b)
            && (Has(b, U) <==> !sh.wrapping && c.y == 0)
            && (Has(b, D) <==> !sh.wrapping && c.y == sh.height - 1)
            && (Has(b, L) <==> !sh.wrapping && c.x == 0)
            && (Has(b, R) <==> !sh.wrapping && c.x == sh.width - 1)
  {
    SlotDivMod(sh, c);
  }

  /** Every barrier bit is matched by the opposite bit on the neighbouring tile. */
  ghost predicate Symmetric(sh: Shape, b: seq<bv8>)
    requires Fits(sh, b)
  {
    forall c, d {:trigger Offset(sh, c, d)} | InGrid(sh, c) && IsDir(d) && Has(At(sh, b, c), d) ::
      Has(At(sh, b, Offset(sh, c, d)), F(d))
  }

  lemma BorderSymmetric(sh: Shape)
    requires ValidShape(sh)
    ensures Symmetric(sh, Border(sh))
  {
    var b := Border(sh);
    forall c, d | InGrid(sh, c) && IsDir(d) && Has(At(sh, b, c), d)
      ensures Has(At(sh, b, Offset(sh, c, d)), F(d))
    {
      BorderIsOuterEdge(sh, c);
      OffsetStep(sh, c, d);
      FlipIsOpposite(d);
      BorderIsOuterEdge(sh, Offset(sh, c, d));
    }
  }

  /** An array with no barriers at all is trivially symmetric. */
  lemma ZerosSymmetric(sh: Shape)
    requires ValidShape(sh)
    ensures Symmetric(sh, Zeros(sh.width * sh.height))
  {
    var z := Zeros(sh.width * sh.height);
    forall c, d | InGrid(sh, c) && IsDir(d)
      ensures !Has(At(sh, z, c), d)
    {
    }
  }

  /** One byte of the as-written border, by the four index ranges the loops write. */
  lemma BorderAsWrittenAt(sh: Shape, i: int)
    requires ValidShape(sh) && !sh.wrapping && sh.width <= sh.height && 0 <= i < sh.width * sh.height
    ensures var w, h, b := sh.width, sh.height, BorderAsWritten(sh)[i];
            && (Has(b, U) <==> i < w)
            && (Has(b, D) <==> (h - 1) * w <= i)
            && (Has(b, L) <==> i < h)
            && (Has(b, R) <==> (w - 1) * w <= i < (w - 1) * w + h)
  {
    var w, h := sh.width, sh.height;
    var lo := (w - 1) * w;
    assert BorderAsWritten(sh)[i] == Bits(i < w, (h - 1) * w <= i, i < h, lo <= i < lo + h);
  }

  /** The as-written U and D loop is right: row 0 is blocked above and row h-1 below. */
  lemma BorderAsWrittenTopBottom(sh: Shape, c: Cell)
    requires ValidShape(sh) && !sh.wrapping && sh.width <= sh.height && InGrid(sh, c)
    ensures var b := At(sh, BorderAsWritten(sh), c);
            (Has(b, U) <==> c.y == 0) && (Has(b, D) <==> c.y == sh.height - 1)
  {
    BorderAsWrittenAt(sh, Slot(sh, c));
    RowBounds(sh.width, sh.height, c.x, c.y);
  }

  /** Position y*w+x lies in the first row exactly when y is 0, and in the last exactly when y is h-1. */
  lemma RowBounds(w: int, h: int, x: int, y: int)
    requires 0 <= x < w && 0 <= y < h
    ensures y * w + x < w <==> y == 0
    ensures (h - 1) * w <= y * w + x <==> y == h - 1
  {
    if y > 0 {
      MulMono(1, y, w);
    }
    if y < h - 1 {
      MulMono(y + 1, h - 1, w);
      assert (y + 1) * w == y * w + w;
    }
  }

  /**
   * The as-written L and R loop misses the outer edge: the bottom-left tile
   * has no L barrier and tile (w-1, 1) no R barrier, where the corrected
   * border has both.
   */
  lemma BorderAsWrittenMissesSides(sh: Shape)
    requires ValidShape(sh) && !sh.wrapping && sh.width <= sh.height
    ensures var w, h := sh.width, sh.height;
            && !Has(At(sh, BorderAsWritten(sh), Cell(0, h - 1)), L)
            && Has(At(sh, Border(sh), Cell(0, h - 1)), L)
            && !Has(At(sh, BorderAsWritten(sh), Cell(w - 1, 1)), R)
            && Has(At(sh, Border(sh), Cell(w - 1, 1)), R)
  {
    var w, h := sh.width, sh.height;
    var bl, r1 := Slot(sh, Cell(0, h - 1)), Slot(sh, Cell(w - 1, 1));
    assert bl == (h - 1) * w && r1 == 2 * w - 1;
    BorderAsWrittenAt(sh, bl);
    BorderAsWrittenAt(sh, r1);
    BorderIsOuterEdge(sh, Cell(0, h - 1));
    BorderIsOuterEdge(sh, Cell(w - 1, 1));
    MulMono(3, w, h - 1);
    assert h <= bl;
    MulMono(2, w - 1, w);
    assert r1 < (w - 1) * w;
  }

  /** ...and tile (1, 0) gets an L barrier whose left neighbour (0, 0) has no matching R. */
  lemma BorderAsWrittenNotSymmetric(sh: Shape)
    requires ValidShape(sh) && !sh.wrapping && sh.width <= sh.height
    ensures var b := BorderAsWritten(sh);
            && Has(At(sh, b, Cell(1, 0)), L)
            && Offset(sh, Cell(1, 0), L) == Cell(0, 0)
            && !Has(At(sh, b, Cell(0, 0)), R)
            && !Symmetric(sh, b)
  {
    var w := sh.width;
    BorderAsWrittenAt(sh, 1);
    BorderAsWrittenAt(sh, 0);
    OffsetStep(sh, Cell(1, 0), L);
    MulMono(2, w - 1, w);
    assert !(Has(At(sh, BorderAsWritten(sh), Offset(sh, Cell(1, 0), L)), F(L)));
  }

  // ---------------------------------------------------------------------
  // The loops `for (y = 0; y < height - !wrapping; y++) for (x = 0; x < width - !wrapping; x++)`.

  function Cols(sh: Shape): int {
    sh.width - if sh.wrapping then 0 else 1
  }

  function Rows(sh: Shape): int {
    sh.height - if sh.wrapping then 0 else 1
  }

  // ---------------------------------------------------------------------
  // Barrier candidates.

  /** An R or D edge out of a tile the loops visit, not used by the tree. */
  predicate IsCandidate(sh: Shape, t: seq<bv8>, z: Xyd)
    requires Fits(sh, t)
  {
    && 0 <= z.x < Cols(sh) && 0 <= z.y < Rows(sh)
    && (z.direction == R || z.direction == D)
    && !Has(At(sh, t, Src(z)), z.direction)
  }

  /** The candidates of tile (x, y), R before D, added to `acc`. */
  function CandCell(sh: Shape, t: seq<bv8>, acc: seq<Xyd>, y: int, x: int): (r: seq<Xyd>)
    requires Fits(sh, t) && Sorted(acc) && 0 <= y < Rows(sh) && 0 <= x < Cols(sh)
    ensures Sorted(r)
    ensures forall z :: z in r <==> z in acc || (IsCandidate(sh, t, z) && z.y == y && z.x == x)
  {
    var c := Cell(x, y);
    var a1 := if !Has(At(sh, t, c), R) then Add(acc, Xyd(x, y, R)) else acc;
    if !Has(At(sh, t, c), D) then Add(a1, Xyd(x, y, D)) else a1
  }

  /** Candidates of row y from column x on, added to `acc` in loop order. */
  function CandRow(sh: Shape, t: seq<bv8>, acc: seq<Xyd>, y: int, x: int): (r: seq<Xyd>)
    requires Fits(sh, t) && Sorted(acc) && 0 <= y < Rows(sh) && 0 <= x <= Cols(sh)
    ensures Sorted(r)
    decreases Cols(sh) - x
  {
    if x == Cols(sh) then acc else CandRow(sh, t, CandCell(sh, t, acc, y, x), y, x + 1)
  }

  /** Candidates of rows y on, added to `acc` in loop order. */
  function CandRows(sh: Shape, t: seq<bv8>, acc: seq<Xyd>, y: int): (r: seq<Xyd>)
    requires Fits(sh, t) && Sorted(acc) && 0 <= y <= Rows(sh)
    ensures Sorted(r)
    decreases Rows(sh) - y
  {
    if y == Rows(sh) then acc else CandRows(sh, t, CandRow(sh, t, acc, y, 0), y + 1)
  }

  /** The barrier-candidate tree built from the unshuffled tiles. */
  function Candidates(sh: Shape, t: seq<bv8>): (r: seq<Xyd>)
    requires Fits(sh, t)
    ensures Sorted(r)
  {
    CandRows(sh, t, [], 0)
  }

  lemma {:induction false} CandRowMembers(sh: Shape, t: seq<bv8>, acc: seq<Xyd>, y: int, x: int)
    requires Fits(sh, t) && Sorted(acc) && 0 <= y < Rows(sh) && 0 <= x <= Cols(sh)
    ensures forall z :: z in CandRow(sh, t, acc, y, x) <==>
              z in acc || (IsCandidate(sh, t, z) && z.y == y && x <= z.x)
    decreases Cols(sh) - x
  {
    if x < Cols(sh) {
      var a1 := CandCell(sh, t, acc, y, x);
      CandRowMembers(sh, t, a1, y, x + 1);
      var r := CandRow(sh, t, a1, y, x + 1);
      assert CandRow(sh, t, acc, y, x) == r;
      forall z
        ensures z in r <==> z in acc || (IsCandidate(sh, t, z) && z.y == y && x <= z.x)
      {
        assert z in r <==> z in a1 || (IsCandidate(sh, t, z) && z.y == y && x + 1 <= z.x);
        assert z in a1 <==> z in acc || (IsCandidate(sh, t, z) && z.y == y && z.x == x);
      }
    }
  }

  lemma {:induction false} CandRowsMembers(sh: Shape, t: seq<bv8>, acc: seq<Xyd>, y: int)
    requires Fits(sh, t) && Sorted(acc) && 0 <= y <= Rows(sh)
    ensures forall z :: z in CandRows(sh, t, acc, y) <==> z in acc || (IsCandidate(sh, t, z) && y <= z.y)
    decreases Rows(sh) - y
  {
    if y < Rows(sh) {
      CandRowMembers(sh, t, acc, y, 0);
      CandRowsMembers(sh, t, CandRow(sh, t, acc, y, 0), y + 1);
    }
  }

  /** The candidate tree holds exactly the R and D edges of the visited tiles that the tree does not use. */
  lemma CandidatesMembers(sh: Shape, t: seq<bv8>)
    requires Fits(sh, t)
    ensures forall z :: z in Candidates(sh, t) <==> IsCandidate(sh, t, z)
  {
    CandRowsMembers(sh, t, [], 0);
  }

  // ---------------------------------------------------------------------
  // Shuffle.

  /** `n` calls of random_upto(rs, 4). */
  function Fours(n: nat): (r: seq<nat>)
    ensures |r| == n && forall i | 0 <= i < n :: r[i] == 4
  {
    seq(n, _ => 4)
  }

  /** Shuffle row y from column x on: each tile turned by random_upto(rs, 4) quarter turns. */
  function ShuffleRow(sh: Shape, draw: seq<nat> -> nat, t: seq<bv8>, hist: seq<nat>, y: int, x: int)
    : (r: (seq<bv8>, seq<nat>))
    requires Fits(sh, t) && 0 <= y < Rows(sh) && 0 <= x <= Cols(sh)
    ensures Fits(sh, r.0)
    decreases Cols(sh) - x
  {
    if x == Cols(sh) then (t, hist)
    else
      var c := Cell(x, y);
      ShuffleRow(sh, draw, Set(sh, t, c, Rot(At(sh, t, c), Draw(draw, hist, 4))), hist + [4], y, x + 1)
  }

  /** Shuffle rows y on. */
  function ShuffleRows(sh: Shape, draw: seq<nat> -> nat, t: seq<bv8>, hist: seq<nat>, y: int)
    : (r: (seq<bv8>, seq<nat>))
    requires Fits(sh, t) && 0 <= y <= Rows(sh)
    ensures Fits(sh, r.0)
    decreases Rows(sh) - y
  {
    if y == Rows(sh) then (t, hist)
    else
      var r := ShuffleRow(sh, draw, t, hist, y, 0);
      ShuffleRows(sh, draw, r.0, r.1, y + 1)
  }

  /** The shuffled tiles and the random state after the shuffle. */
  function Shuffle(sh: Shape, draw: seq<nat> -> nat, t: seq<bv8>, hist: seq<nat>): (r: (seq<bv8>, seq<nat>))
    requires Fits(sh, t)
    ensures Fits(sh, r.0)
  {
    ShuffleRows(sh, draw, t, hist, 0)
  }

  /** What the shuffle of one row keeps. */
  predicate ShuffleKept(sh: Shape, t: seq<bv8>, r: seq<bv8>, c: Cell)
    requires Fits(sh, t) && Fits(sh, r) && InGrid(sh, c)
  {
    && Count(At(sh, r, c)) == Count(At(sh, t, c))
    && (IsMask(At(sh, t, c)) ==> IsMask(At(sh, r, c)))
  }

  lemma {:induction false} ShuffleRowHistory(sh: Shape, draw: seq<nat> -> nat, t: seq<bv8>, hist: seq<nat>, y: int, x: int)
    requires Fits(sh, t) && 0 <= y < Rows(sh) && 0 <= x <= Cols(sh)
    ensures ShuffleRow(sh, draw, t, hist, y, x).1 == hist + Fours(Cols(sh) - x)
    decreases Cols(sh) - x
  {
    if x < Cols(sh) {
      var c := Cell(x, y);
      var t' := Set(sh, t, c, Rot(At(sh, t, c), Draw(draw, hist, 4)));
      ShuffleRowHistory(sh, draw, t', hist + [4], y, x + 1);
      assert hist + [4] + Fours(Cols(sh) - x - 1) == hist + Fours(Cols(sh) - x);
    }
  }

  /** Every tile keeps its count and mask. */
  ghost predicate AllKept(sh: Shape, t: seq<bv8>, r: seq<bv8>)
    requires Fits(sh, t) && Fits(sh, r)
  {
    forall c | InGrid(sh, c) :: ShuffleKept(sh, t, r, c)
  }

  lemma KeptTrans(sh: Shape, t: seq<bv8>, u: seq<bv8>, v: seq<bv8>)
    requires Fits(sh, t) && Fits(sh, u) && Fits(sh, v)
    requires AllKept(sh, t, u) && AllKept(sh, u, v)
    ensures AllKept(sh, t, v)
  {
    forall c | InGrid(sh, c)
      ensures ShuffleKept(sh, t, v, c)
    {
      assert ShuffleKept(sh, t, u, c) && ShuffleKept(sh, u, v, c);
    }
  }

  lemma {:induction false} ShuffleRowKept(sh: Shape, draw: seq<nat> -> nat, t: seq<bv8>, hist: seq<nat>, y: int, x: int)
    requires Fits(sh, t) && 0 <= y < Rows(sh) && 0 <= x <= Cols(sh)
    ensures AllKept(sh, t, ShuffleRow(sh, draw, t, hist, y, x).0)
    decreases Cols(sh) - x
  {
    if x < Cols(sh) {
      var c := Cell(x, y);
      var t' := Set(sh, t, c, Rot(At(sh, t, c), Draw(draw, hist, 4)));
      RotationKeepsCount(At(sh, t, c), Draw(draw, hist, 4));
      assert AllKept(sh, t, t');
      ShuffleRowKept(sh, draw, t', hist + [4], y, x + 1);
      KeptTrans(sh, t, t', ShuffleRow(sh, draw, t, hist, y, x).0);
    } else {
      assert AllKept(sh, t, t);
    }
  }

  lemma {:induction false} ShuffleRowOutside(sh: Shape, draw: seq<nat> -> nat, t: seq<bv8>, hist: seq<nat>, y: int, x: int)
    requires Fits(sh, t) && 0 <= y < Rows(sh) && 0 <= x <= Cols(sh)
    ensures var r := ShuffleRow(sh, draw, t, hist, y, x);
            forall c | InGrid(sh, c) && (c.y != y || c.x < x || c.x >= Cols(sh)) :: At(sh, r.0, c) == At(sh, t, c)
    decreases Cols(sh) - x
  {
    if x < Cols(sh) {
      var c := Cell(x, y);
      var t' := Set(sh, t, c, Rot(At(sh, t, c), Draw(draw, hist, 4)));
      ShuffleRowOutside(sh, draw, t', hist + [4], y, x + 1);
    }
  }

  lemma {:induction false} ShuffleRowsHistory(sh: Shape, draw: seq<nat> -> nat, t: seq<bv8>, hist: seq<nat>, y: int)
    requires Fits(sh, t) && 0 <= y <= Rows(sh)
    ensures ShuffleRows(sh, draw, t, hist, y).1 == hist + Fours((Rows(sh) - y) * Cols(sh))
    decreases Rows(sh) - y
  {
    if y < Rows(sh) {
      var r := ShuffleRow(sh, draw, t, hist, y, 0);
      ShuffleRowHistory(sh, draw, t, hist, y, 0);
      ShuffleRowsHistory(sh, draw, r.0, r.1, y + 1);
      var k := (Rows(sh) - y - 1) * Cols(sh);
      MulSucc(Rows(sh) - y - 1, Cols(sh));
      FoursAppend(Cols(sh), k);
    }
  }

  lemma MulSucc(a: int, b: int)
    ensures (a + 1) * b == b + a * b
  {
  }

  lemma {:induction false} ShuffleRowsKept(sh: Shape, draw: seq<nat> -> nat, t: seq<bv8>, hist: seq<nat>, y: int)
    requires Fits(sh, t) && 0 <= y <= Rows(sh)
    ensures AllKept(sh, t, ShuffleRows(sh, draw, t, hist, y).0)
    decreases Rows(sh) - y
  {
    if y < Rows(sh) {
      var r := ShuffleRow(sh, draw, t, hist, y, 0);
      ShuffleRowKept(sh, draw, t, hist, y, 0);
      ShuffleRowsKept(sh, draw, r.0, r.1, y + 1);
      KeptTrans(sh, t, r.0, ShuffleRows(sh, draw, t, hist, y).0);
    } else {
      assert AllKept(sh, t, t);
    }
  }

  lemma {:induction false} ShuffleRowsOutside(sh: Shape, draw: seq<nat> -> nat, t: seq<bv8>, hist: seq<nat>, y: int)
    requires Fits(sh, t) && 0 <= y <= Rows(sh)
    ensures var r := ShuffleRows(sh, draw, t, hist, y);
            forall c | InGrid(sh, c) && (c.y < y || c.y >= Rows(sh) || c.x >= Cols(sh)) :: At(sh, r.0, c) == At(sh, t, c)
    decreases Rows(sh) - y
  {
    if y < Rows(sh) {
      var r := ShuffleRow(sh, draw, t, hist, y, 0);
      ShuffleRowOutside(sh, draw, t, hist, y, 0);
      ShuffleRowsOutside(sh, draw, r.0, r.1, y + 1);
    }
  }

  lemma FoursAppend(a: nat, b: nat)
    ensures Fours(a) + Fours(b) == Fours(a + b)
  {
  }

  /**
   * The shuffle keeps every tile's connector count and mask, leaves the last
   * row and column of a non-wrapping grid as they were, and draws exactly
   * Rows*Cols times with bound 4, whatever the tiles.
   */
  lemma ShuffleFacts(sh: Shape, draw: seq<nat> -> nat, t: seq<bv8>, hist: seq<nat>)
    requires Fits(sh, t)
    ensures var r := Shuffle(sh, draw, t, hist);
            && r.1 == hist + Fours(Rows(sh) * Cols(sh))
            && (forall c | InGrid(sh, c) :: Count(At(sh, r.0, c)) == Count(At(sh, t, c)))
            && (forall c | InGrid(sh, c) && IsMask(At(sh, t, c)) :: IsMask(At(sh, r.0, c)))
            && (forall c | InGrid(sh, c) && (c.y >= Rows(sh) || c.x >= Cols(sh)) :: At(sh, r.0, c) == At(sh, t, c))
  {
    ShuffleRowsHistory(sh, draw, t, hist, 0);
    ShuffleRowsKept(sh, draw, t, hist, 0);
    ShuffleRowsOutside(sh, draw, t, hist, 0);
    var r := Shuffle(sh, draw, t, hist);
    forall c | InGrid(sh, c)
      ensures Count(At(sh, r.0, c)) == Count(At(sh, t, c))
    {
      assert ShuffleKept(sh, t, r.0, c);
    }
    forall c | InGrid(sh, c) && IsMask(At(sh, t, c))
      ensures IsMask(At(sh, r.0, c))
    {
      assert ShuffleKept(sh, t, r.0, c);
    }
  }

  // ---------------------------------------------------------------------
  // Barrier placement.

  /** The edges the placement loop draws: n extractions at random ranks (net.c:367-378). */
  function Picks(cands: seq<Xyd>, n: nat, draw: seq<nat> -> nat, hist: seq<nat>): (r: (seq<Xyd>, seq<nat>))
    requires Sorted(cands) && n <= |cands|
    ensures |r.0| == n
    ensures forall z | z in r.0 :: z in cands
    decreases n
  {
    if n == 0 then ([], hist)
    else
      var i := Draw(draw, hist, |cands|);
      var d := DelPos(cands, i);
      var rest := Picks(d.1, n - 1, draw, hist + [|cands|]);
      ([d.0.value] + rest.0, rest.1)
  }

  /** One placed barrier: the bit on the picked side and the opposite bit on the neighbour (net.c:380-388). */
  function PlaceOne(sh: Shape, b: seq<bv8>, z: Xyd): (r: seq<bv8>)
    requires Fits(sh, b) && InGrid(sh, Src(z))
    ensures Fits(sh, r)
    ensures At(sh, r, Src(z)) & z.direction == z.direction
    ensures At(sh, r, Offset(sh, Src(z), z.direction)) & F(z.direction) == F(z.direction)
    ensures forall c | InGrid(sh, c) && c != Src(z) && c != Offset(sh, Src(z), z.direction) :: At(sh, r, c) == At(sh, b, c)
  {
    OrAt(sh, OrAt(sh, b, Src(z), z.direction), Offset(sh, Src(z), z.direction), F(z.direction))
  }

  /** All placed barriers, in the order they were drawn. */
  function PlaceAll(sh: Shape, b: seq<bv8>, zs: seq<Xyd>): (r: seq<bv8>)
    requires Fits(sh, b) && forall z | z in zs :: InGrid(sh, Src(z))
    ensures Fits(sh, r)
    decreases |zs|
  {
    if zs == [] then b else PlaceAll(sh, PlaceOne(sh, b, zs[0]), zs[1..])
  }

  predicate Distinct(s: seq<Xyd>) {
    forall i, j | 0 <= i < j < |s| :: s[i] != s[j]
  }

  /** The picks are n distinct candidates. */
  lemma {:induction false} PicksDistinct(cands: seq<Xyd>, n: nat, draw: seq<nat> -> nat, hist: seq<nat>)
    requires Sorted(cands) && n <= |cands|
    ensures var ps := Picks(cands, n, draw, hist).0;
            && (forall z | z in ps :: z in cands)
            && Distinct(ps)
    decreases n
  {
    if n > 0 {
      var k := Draw(draw, hist, |cands|);
      var d := DelPos(cands, k);
      var rest := Picks(d.1, n - 1, draw, hist + [|cands|]).0;
      PicksDistinct(d.1, n - 1, draw, hist + [|cands|]);
      var ps := Picks(cands, n, draw, hist).0;
      assert ps == [cands[k]] + rest;
      forall i, j | 0 <= i < j < |ps|
        ensures ps[i] != ps[j]
      {
        assert ps[j] == rest[j - 1] && rest[j - 1] in rest;
        if i > 0 {
          assert ps[i] == rest[i - 1];
        } else {
          assert ps[0] == cands[k] && rest[j - 1] in d.1;
        }
      }
    }
  }

  /** The drawn barriers are distinct candidate edges: R or D sides of tiles in the grid. */
  lemma CandidatePicks(sh: Shape, t: seq<bv8>, n: nat, draw: seq<nat> -> nat, hist: seq<nat>)
    requires Fits(sh, t) && n <= |Candidates(sh, t)|
    ensures var ps := Picks(Candidates(sh, t), n, draw, hist).0;
            && Distinct(ps)
            && forall z | z in ps :: IsCandidate(sh, t, z) && InGrid(sh, Src(z)) && IsDir(z.direction)
  {
    var cands := Candidates(sh, t);
    PicksDistinct(cands, n, draw, hist);
    CandidatesMembers(sh, t);
    var ps := Picks(cands, n, draw, hist).0;
    forall z | z in ps
      ensures IsCandidate(sh, t, z) && InGrid(sh, Src(z)) && IsDir(z.direction)
    {
      assert z in cands;
    }
  }

  /** Asking for more barriers extends the same sequence of picks. */
  lemma {:induction false} PicksPrefix(cands: seq<Xyd>, n: nat, m: nat, draw: seq<nat> -> nat, hist: seq<nat>)
    requires Sorted(cands) && n <= m <= |cands|
    ensures Picks(cands, n, draw, hist).0 == Picks(cands, m, draw, hist).0[..n]
    decreases n
  {
    if n > 0 {
      var i := Draw(draw, hist, |cands|);
      var d := DelPos(cands, i);
      PicksPrefix(d.1, n - 1, m - 1, draw, hist + [|cands|]);
    }
  }

  /** Every barrier side in `a` is a barrier side in `b`. */
  ghost predicate Within(sh: Shape, a: seq<bv8>, b: seq<bv8>)
    requires Fits(sh, a) && Fits(sh, b)
  {
    forall c, e | InGrid(sh, c) && IsDir(e) && Has(At(sh, a, c), e) :: Has(At(sh, b, c), e)
  }

  /** `|= v` with a direction adds exactly that side, on that tile. */
  lemma OrAtHas(sh: Shape, b: seq<bv8>, c: Cell, v: bv8)
    requires Fits(sh, b) && InGrid(sh, c) && IsDir(v)
    ensures forall c', e | InGrid(sh, c') && IsDir(e) ::
              Has(At(sh, OrAt(sh, b, c, v), c'), e) <==> Has(At(sh, b, c'), e) || (c' == c && e == v)
  {
    forall c', e | InGrid(sh, c') && IsDir(e)
      ensures Has(At(sh, OrAt(sh, b, c, v), c'), e) <==> Has(At(sh, b, c'), e) || (c' == c && e == v)
    {
      if c' == c {
        OrBit(At(sh, b, c), v, e);
      }
    }
  }

  /** Placing one barrier adds exactly its two sides. */
  lemma PlaceOneHas(sh: Shape, b: seq<bv8>, z: Xyd)
    requires Fits(sh, b) && InGrid(sh, Src(z)) && IsDir(z.direction)
    ensures forall c, e | InGrid(sh, c) && IsDir(e) ::
              Has(At(sh, PlaceOne(sh, b, z), c), e) <==>
                || Has(At(sh, b, c), e)
                || (c == Src(z) && e == z.direction)
                || (c == Offset(sh, Src(z), z.direction) && e == F(z.direction))
  {
    FlipIsOpposite(z.direction);
    OrAtHas(sh, b, Src(z), z.direction);
    OrAtHas(sh, OrAt(sh, b, Src(z), z.direction), Offset(sh, Src(z), z.direction), F(z.direction));
  }

  /** Placing barriers only ever adds sides, and every drawn edge ends up blocked from both ends. */
  lemma {:induction false} PlaceAllHas(sh: Shape, b: seq<bv8>, zs: seq<Xyd>)
    requires Fits(sh, b) && forall z | z in zs :: InGrid(sh, Src(z)) && IsDir(z.direction)
    ensures Within(sh, b, PlaceAll(sh, b, zs))
    ensures forall z | z in zs ::
              && Has(At(sh, PlaceAll(sh, b, zs), Src(z)), z.direction)
              && Has(At(sh, PlaceAll(sh, b, zs), Offset(sh, Src(z), z.direction)), F(z.direction))
    decreases |zs|
  {
    if zs != [] {
      var b1 := PlaceOne(sh, b, zs[0]);
      PlaceOneHas(sh, b, zs[0]);
      PlaceAllHas(sh, b1, zs[1..]);
      forall z | z in zs
        ensures Has(At(sh, PlaceAll(sh, b, zs), Src(z)), z.direction)
        ensures Has(At(sh, PlaceAll(sh, b, zs), Offset(sh, Src(z), z.direction)), F(z.direction))
      {
        if z != zs[0] {
          assert z in zs[1..];
        } else {
          FlipIsOpposite(z.direction);
        }
      }
    }
  }

  /** Composition of placements: placing zs then ys is placing zs + ys. */
  lemma {:induction false} PlaceAllAppend(sh: Shape, b: seq<bv8>, zs: seq<Xyd>, ys: seq<Xyd>)
    requires Fits(sh, b) && forall z | z in zs + ys :: InGrid(sh, Src(z))
    ensures PlaceAll(sh, b, zs + ys) == PlaceAll(sh, PlaceAll(sh, b, zs), ys)
    decreases |zs|
  {
    if zs != [] {
      assert (zs + ys)[0] == zs[0] && (zs + ys)[1..] == zs[1..] + ys;
      PlaceAllAppend(sh, PlaceOne(sh, b, zs[0]), zs[1..], ys);
    } else {
      assert zs + ys == ys;
    }
  }

  /** Drawing more barriers from the same random state places a superset of them. */
  lemma PlaceMorePicks(sh: Shape, b: seq<bv8>, cands: seq<Xyd>, n: nat, m: nat, draw: seq<nat> -> nat, hist: seq<nat>)
    requires Fits(sh, b) && Sorted(cands) && n <= m <= |cands|
    requires forall z | z in cands :: InGrid(sh, Src(z)) && IsDir(z.direction)
    ensures Within(sh, PlaceAll(sh, b, Picks(cands, n, draw, hist).0), PlaceAll(sh, b, Picks(cands, m, draw, hist).0))
  {
    var ps1, ps2 := Picks(cands, n, draw, hist).0, Picks(cands, m, draw, hist).0;
    PicksPrefix(cands, n, m, draw, hist);
    assert ps2 == ps1 + ps2[n..];
    PlaceAllAppend(sh, b, ps1, ps2[n..]);
    PlaceAllHas(sh, PlaceAll(sh, b, ps1), ps2[n..]);
  }

  lemma PlaceOneSymmetric(sh: Shape, b: seq<bv8>, z: Xyd)
    requires Fits(sh, b) && InGrid(sh, Src(z)) && IsDir(z.direction) && Symmetric(sh, b)
    ensures Symmetric(sh, PlaceOne(sh, b, z))
  {
    var c1, d := Src(z), z.direction;
    var c2 := Offset(sh, c1, d);
    var r := PlaceOne(sh, b, z);
    PlaceOneHas(sh, b, z);
    FlipIsOpposite(d);
    forall c, e | InGrid(sh, c) && IsDir(e) && Has(At(sh, r, c), e)
      ensures Has(At(sh, r, Offset(sh, c, e)), F(e))
    {
      FlipIsOpposite(e);
      if c == c2 && e == F(d) {
        OffsetRoundTrip(sh, c1, d);
      }
    }
  }

  /** Placing barriers keeps the barrier map symmetric. */
  lemma {:induction false} PlaceAllSymmetric(sh: Shape, b: seq<bv8>, zs: seq<Xyd>)
    requires Fits(sh, b) && Symmetric(sh, b)
    requires forall z | z in zs :: InGrid(sh, Src(z)) && IsDir(z.direction)
    ensures Symmetric(sh, PlaceAll(sh, b, zs))
    decreases |zs|
  {
    if zs != [] {
      PlaceOneSymmetric(sh, b, zs[0]);
      PlaceAllSymmetric(sh, PlaceOne(sh, b, zs[0]), zs[1..]);
    }
  }
}
