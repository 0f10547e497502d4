/**
 * new_game (net.c:118-409) as imperative code over the state's two arrays,
 * proved to compute the phase functions of modules Growth and Layout.
 */
module Generator {
  import opened Wrappers
  import opened Directions
  import opened Grid
  import opened Xyd
  import opened Tree234
  import opened Random
  import opened Growth
  import opened GrowthTree
  import opened Layout
  import opened State

  // ---------------------------------------------------------------------
  // What new_game computes.

  /**
   * nbarriers = barrier_probability * count234(barriers), the product
   * truncated to an integer; the probability is the ratio num / den.
   */
  function BarrierCount(num: nat, den: nat, count: nat): (n: nat)
    requires den > 0 && num <= den
    ensures n <= count
    ensures n * den <= num * count < (n + 1) * den
  {
    MulMono(num, den, count);
    num * count / den
  }

  /** The random state once the tree is grown. */
  function GrownHistory(sh: Shape, draw: seq<nat> -> nat): seq<nat>
    requires ValidShape(sh)
  {
    StartInv(sh);
    Grow(sh, draw, Start(sh)).history
  }

  /** The tiles of the new game: the grown tree, shuffled. */
  function GameTiles(sh: Shape, draw: seq<nat> -> nat): (t: seq<bv8>)
    requires ValidShape(sh)
    ensures Fits(sh, t)
    ensures forall c | InGrid(sh, c) :: Count(At(sh, t, c)) == Count(At(sh, Grown(sh, draw), c))
  {
    ShuffleFacts(sh, draw, Grown(sh, draw), GrownHistory(sh, draw));
    Shuffle(sh, draw, Grown(sh, draw), GrownHistory(sh, draw)).0
  }

  /**
   * The edges that get a barrier: nbarriers distinct candidates of the
   * unshuffled tree, drawn after the shuffle.
   */
  function GamePicks(sh: Shape, draw: seq<nat> -> nat, num: nat, den: nat): (ps: seq<Xyd>)
    requires ValidShape(sh) && den > 0 && num <= den
    ensures var cands := Candidates(sh, Grown(sh, draw));
            && |ps| == BarrierCount(num, den, |cands|)
            && Distinct(ps)
            && forall z | z in ps :: IsCandidate(sh, Grown(sh, draw), z) && InGrid(sh, Src(z)) && IsDir(z.direction)
  {
    var t := Grown(sh, draw);
    var cands := Candidates(sh, t);
    var hist := Shuffle(sh, draw, t, GrownHistory(sh, draw)).1;
    var n := BarrierCount(num, den, |cands|);
    CandidatePicks(sh, t, n, draw, hist);
    Picks(cands, n, draw, hist).0
  }

  /** The barriers of the new game: the outer edge, then the drawn edges. */
  function GameBarriers(sh: Shape, draw: seq<nat> -> nat, num: nat, den: nat): (b: seq<bv8>)
    requires ValidShape(sh) && BorderInBounds(sh) && den > 0 && num <= den
    ensures Fits(sh, b)
    ensures Within(sh, BorderAsWritten(sh), b)
  {
    PlaceAllHas(sh, BorderAsWritten(sh), GamePicks(sh, draw, num, den));
    PlaceAll(sh, BorderAsWritten(sh), GamePicks(sh, draw, num, den))
  }

  // ---------------------------------------------------------------------
  // The phases, in place.

  /** `a[c] |= v`, as the tile() and barrier() macros are used. */
  method OrInto(sh: Shape, a: array<bv8>, c: Cell, v: bv8)
    requires Fits(sh, a[..]) && InGrid(sh, c)
    modifies a
    ensures a[..] == OrAt(sh, old(a[..]), c, v)
  {
    a[Slot(sh, c)] := a[Slot(sh, c)] | v;
  }

  lemma BitsOr(u: bool, d: bool, l: bool, r: bool)
    ensures Bits(u, d, l, r) | U == Bits(true, d, l, r)
    ensures Bits(u, d, l, r) | D == Bits(u, true, l, r)
    ensures Bits(u, d, l, r) | L == Bits(u, d, true, r)
    ensures Bits(u, d, l, r) | R == Bits(u, d, l, true)
  {
  }

  /**
   * Border barriers of a non-wrapping grid (net.c:143-154), as written: the
   * U and D writes go to the first and last rows, while the L and R writes
   * pass the row y as the x coordinate and so land on flat positions y and
   * (w-1)*w + y. Those are inside the array only when w <= h.
   */
  method SetBorder(sh: Shape, barriers: array<bv8>)
    requires ValidShape(sh) && BorderInBounds(sh) && barriers[..] == Zeros(sh.width * sh.height)
    modifies barriers
    ensures barriers[..] == BorderAsWritten(sh)
  {
    var w, h := sh.width, sh.height;
    if !sh.wrapping {
      var last := (h - 1) * w;
      assert last + w == w * h by { MulSucc(h - 1, w); }
      assert w <= last by { MulMono(1, h - 1, w); }
      var x := 0;
      while x < w
        invariant 0 <= x <= w && barriers.Length == w * h
        invariant forall i | 0 <= i < w * h :: barriers[i] == Bits(i < x, last <= i < last + x, false, false)
      {
        BitsOr(false, false, false, false);
        barriers[x] := barriers[x] | U;
        barriers[last + x] := barriers[last + x] | D;
        x := x + 1;
      }
      var lo := (w - 1) * w;
      assert lo + h <= w * h by { BorderWritesInBounds(w, h); }
      var y := 0;
      while y < h
        invariant 0 <= y <= h && barriers.Length == w * h
        invariant forall i | 0 <= i < w * h :: barriers[i] == Bits(i < w, last <= i, i < y, lo <= i < lo + y)
      {
        BitsOr(y < w, last <= y, false, lo <= y < lo + y);
        barriers[y] := barriers[y] | L;
        BitsOr(lo + y < w, last <= lo + y, false, false);
        barriers[lo + y] := barriers[lo + y] | R;
        y := y + 1;
      }
    }
  }

  /** The loop-avoidance pass over the four sides of the new tile (net.c:265-286). */
  method RemoveEntering(sh: Shape, poss: seq<Xyd>, c2: Cell) returns (r: seq<Xyd>)
    requires ValidShape(sh) && Sorted(poss)
    ensures r == AvoidLoops(sh, poss, c2, 1)
  {
    r := poss;
    var d: bv8 := 1;
    while d < 0x10
      invariant LoopDir(d) && Sorted(r)
      invariant AvoidLoops(sh, r, c2, d) == AvoidLoops(sh, poss, c2, 1)
      decreases 16 - d as int
    {
      var c3 := Offset(sh, c2, d);
      var key := Xyd(c3.x, c3.y, F(d));
      if Find(r, key) {
        r := Del(r, key);
      }
      d := d << 1;
    }
  }

  /** The new-frontier pass: possibilities out of the new tile into blank tiles (net.c:292-319). */
  method AddExits(sh: Shape, tiles: array<bv8>, poss: seq<Xyd>, c2: Cell, d2: bv8) returns (r: seq<Xyd>)
    requires Fits(sh, tiles[..]) && InGrid(sh, c2) && Sorted(poss)
    ensures r == AddFrontier(sh, tiles[..], poss, c2, d2, 1)
  {
    r := poss;
    var d: bv8 := 1;
    while d < 0x10
      invariant LoopDir(d) && Sorted(r)
      invariant AddFrontier(sh, tiles[..], r, c2, d2, d) == AddFrontier(sh, tiles[..], poss, c2, d2, 1)
      decreases 16 - d as int
    {
      if d == d2 {
      } else if !sh.wrapping && AtBorder(sh, c2, d) {
      } else {
        var c3 := Offset(sh, c2, d);
        if tiles[Slot(sh, c3)] == 0 {
          r := Add(r, Xyd(c2.x, c2.y, d));
        }
      }
      d := d << 1;
    }
  }

  /** One iteration of the growth loop (net.c:209-320). */
  method GrowIteration(sh: Shape, tiles: array<bv8>, rs: RandomState, poss: seq<Xyd>) returns (poss': seq<Xyd>)
    requires GrowInv(sh, Growth(tiles[..], poss, rs.history)) && |poss| > 0
    modifies tiles, rs
    ensures Growth(tiles[..], poss', rs.history) == GrowStep(sh, rs.draw, old(Growth(tiles[..], poss, rs.history)))
  {
    ghost var g := Growth(tiles[..], poss, rs.history);
    var i := rs.Upto(|poss|);
    var picked := DelPos(poss, i);
    var p := picked.0.value;
    assert p == Picked(sh, rs.draw, g);
    var c1 := Src(p);
    var c2 := Offset(sh, c1, p.direction);
    var d2 := F(p.direction);
    OrInto(sh, tiles, c1, p.direction);
    OrInto(sh, tiles, c2, d2);
    poss' := UpdatePossibilities(sh, tiles, picked.1, c1, c2, d2);
    assert rs.history == g.history + [|g.poss|];
  }

  /** The possibility updates after a connection: T-piece, loop avoidance, new frontier (net.c:242-319). */
  method UpdatePossibilities(sh: Shape, tiles: array<bv8>, poss: seq<Xyd>, c1: Cell, c2: Cell, d2: bv8)
    returns (r: seq<Xyd>)
    requires Fits(sh, tiles[..]) && InGrid(sh, c1) && InGrid(sh, c2) && Sorted(poss)
    ensures r == AddFrontier(sh, tiles[..], AvoidLoops(sh, TPiece(sh, tiles[..], poss, c1), c2, 1), c2, d2, 1)
  {
    r := poss;
    if Count(tiles[Slot(sh, c1)]) == 3 {
      var key := Xyd(c1.x, c1.y, 0x0F ^ tiles[Slot(sh, c1)]);
      if Find(r, key) {
        r := Del(r, key);
      }
    }
    r := RemoveEntering(sh, r, c2);
    r := AddExits(sh, tiles, r, c2, d2);
  }

  /**
   * The growth loop (net.c:202-322): extract a random possibility, connect
   * its two tiles, drop the possibilities the new tile makes useless and
   * add the ones leading out of it, until none is left.
   */
  method GrowTree(sh: Shape, tiles: array<bv8>, rs: RandomState)
    requires ValidShape(sh) && tiles[..] == Zeros(sh.width * sh.height) && rs.history == []
    modifies tiles, rs
    ensures tiles[..] == Grown(sh, rs.draw) && rs.history == GrownHistory(sh, rs.draw)
  {
    StartInv(sh);
    var centre := Centre(sh);
    var poss: seq<Xyd> := [];
    poss := Add(poss, Xyd(centre.x, centre.y, R));
    poss := Add(poss, Xyd(centre.x, centre.y, U));
    poss := Add(poss, Xyd(centre.x, centre.y, L));
    poss := Add(poss, Xyd(centre.x, centre.y, D));
    while |poss| > 0
      invariant GrowInv(sh, Growth(tiles[..], poss, rs.history))
      invariant Grow(sh, rs.draw, Growth(tiles[..], poss, rs.history)) == Grow(sh, rs.draw, Start(sh))
      decreases ZeroCount(tiles[..])
    {
      GrowStepKeepsInv(sh, rs.draw, Growth(tiles[..], poss, rs.history));
      poss := GrowIteration(sh, tiles, rs, poss);
    }
  }

  /** The candidates of row y, added to `cands` (net.c:326-335). */
  method CandidateRow(sh: Shape, tiles: array<bv8>, cands: seq<Xyd>, y: int) returns (r: seq<Xyd>)
    requires Fits(sh, tiles[..]) && Sorted(cands) && 0 <= y < Rows(sh)
    ensures r == CandRow(sh, tiles[..], cands, y, 0)
  {
    r := cands;
    var x := 0;
    while x < sh.width - (if sh.wrapping then 0 else 1)
      invariant 0 <= x <= Cols(sh) && Sorted(r)
      invariant CandRow(sh, tiles[..], r, y, x) == CandRow(sh, tiles[..], cands, y, 0)
    {
      r := CellCandidates(sh, tiles, r, y, x);
      x := x + 1;
    }
  }

  /** The two candidate edges of one tile: right and down, where the tree has no connection. */
  method CellCandidates(sh: Shape, tiles: array<bv8>, cands: seq<Xyd>, y: int, x: int) returns (r: seq<Xyd>)
    requires Fits(sh, tiles[..]) && Sorted(cands) && 0 <= y < Rows(sh) && 0 <= x < Cols(sh)
    ensures r == CandCell(sh, tiles[..], cands, y, x)
  {
    r := cands;
    if tiles[Slot(sh, Cell(x, y))] & R == 0 {
      r := Add(r, Xyd(x, y, R));
    }
    if tiles[Slot(sh, Cell(x, y))] & D == 0 {
      r := Add(r, Xyd(x, y, D));
    }
  }

  /** The barrier-candidate tree, built from the unshuffled tiles (net.c:324-337). */
  method BuildCandidates(sh: Shape, tiles: array<bv8>) returns (cands: seq<Xyd>)
    requires Fits(sh, tiles[..])
    ensures cands == Candidates(sh, tiles[..])
  {
    cands := [];
    var y := 0;
    while y < sh.height - (if sh.wrapping then 0 else 1)
      invariant 0 <= y <= Rows(sh) && Sorted(cands)
      invariant CandRows(sh, tiles[..], cands, y) == Candidates(sh, tiles[..])
    {
      cands := CandidateRow(sh, tiles, cands, y);
      y := y + 1;
    }
  }

  /** Shuffle row y (net.c:341-347). */
  method ShuffleRowTiles(sh: Shape, tiles: array<bv8>, rs: RandomState, y: int)
    requires Fits(sh, tiles[..]) && 0 <= y < Rows(sh)
    modifies tiles, rs
    ensures (tiles[..], rs.history) == ShuffleRow(sh, rs.draw, old(tiles[..]), old(rs.history), y, 0)
  {
    var x := 0;
    ghost var goal := ShuffleRow(sh, rs.draw, tiles[..], rs.history, y, 0);
    while x < sh.width - (if sh.wrapping then 0 else 1)
      invariant 0 <= x <= Cols(sh) && Fits(sh, tiles[..])
      invariant ShuffleRow(sh, rs.draw, tiles[..], rs.history, y, x) == goal
    {
      var orig := tiles[Slot(sh, Cell(x, y))];
      var rot := rs.Upto(4);
      tiles[Slot(sh, Cell(x, y))] := Rot(orig, rot);
      x := x + 1;
    }
  }

  /** Turn each visited tile by random_upto(rs, 4) quarter turns (net.c:339-349). */
  method ShuffleTiles(sh: Shape, tiles: array<bv8>, rs: RandomState)
    requires Fits(sh, tiles[..])
    modifies tiles, rs
    ensures (tiles[..], rs.history) == Shuffle(sh, rs.draw, old(tiles[..]), old(rs.history))
  {
    var y := 0;
    ghost var goal := Shuffle(sh, rs.draw, tiles[..], rs.history);
    while y < sh.height - (if sh.wrapping then 0 else 1)
      invariant 0 <= y <= Rows(sh) && Fits(sh, tiles[..])
      invariant ShuffleRows(sh, rs.draw, tiles[..], rs.history, y) == goal
    {
      ShuffleRowTiles(sh, tiles, rs, y);
      y := y + 1;
    }
  }

  /**
   * Draw nbarriers candidates at random and block each on both sides
   * (net.c:364-391).
   */
  method PlaceBarriers(sh: Shape, barriers: array<bv8>, rs: RandomState, cands: seq<Xyd>, nbarriers: nat)
    requires Fits(sh, barriers[..]) && Sorted(cands) && nbarriers <= |cands|
    requires forall z | z in cands :: InGrid(sh, Src(z))
    modifies barriers, rs
    ensures var ps := Picks(cands, nbarriers, rs.draw, old(rs.history));
            barriers[..] == PlaceAll(sh, old(barriers[..]), ps.0) && rs.history == ps.1
  {
    var left := cands;
    var n: nat := nbarriers;
    ghost var b0, all := barriers[..], Picks(cands, nbarriers, rs.draw, rs.history);
    while n > 0
      invariant Fits(sh, barriers[..]) && Sorted(left) && n <= |left|
      invariant forall z | z in left :: InGrid(sh, Src(z))
      invariant PlaceAll(sh, barriers[..], Picks(left, n, rs.draw, rs.history).0) == PlaceAll(sh, b0, all.0)
      invariant Picks(left, n, rs.draw, rs.history).1 == all.1
    {
      ghost var b1, h1, l1 := barriers[..], rs.history, left;
      left := PlaceDrawn(sh, barriers, rs, left);
      PicksStep(sh, b1, l1, n, rs.draw, h1);
      n := n - 1;
    }
  }

  /** One draw of Picks followed by the rest is the whole of Picks, and placing it first is placing all. */
  lemma PicksStep(sh: Shape, b: seq<bv8>, left: seq<Xyd>, n: nat, draw: seq<nat> -> nat, hist: seq<nat>)
    requires Fits(sh, b) && Sorted(left) && 0 < n <= |left|
    requires forall z | z in left :: InGrid(sh, Src(z))
    ensures var e := DelPos(left, Draw(draw, hist, |left|));
            var rest := Picks(e.1, n - 1, draw, hist + [|left|]);
            && Picks(left, n, draw, hist).1 == rest.1
            && PlaceAll(sh, b, Picks(left, n, draw, hist).0) == PlaceAll(sh, PlaceOne(sh, b, e.0.value), rest.0)
  {
    var e := DelPos(left, Draw(draw, hist, |left|));
    var rest := Picks(e.1, n - 1, draw, hist + [|left|]);
    assert ([e.0.value] + rest.0)[1..] == rest.0;
  }

  /** One iteration of the placement loop: draw a candidate, remove it, block its edge (net.c:373-388). */
  method PlaceDrawn(sh: Shape, barriers: array<bv8>, rs: RandomState, left: seq<Xyd>) returns (left': seq<Xyd>)
    requires Fits(sh, barriers[..]) && Sorted(left) && |left| > 0
    requires forall z | z in left :: InGrid(sh, Src(z))
    modifies barriers, rs
    ensures rs.history == old(rs.history) + [|left|]
    ensures Sorted(left') && |left'| == |left| - 1 && forall z | z in left' :: z in left
    ensures var e := DelPos(left, Draw(rs.draw, old(rs.history), |left|));
            left' == e.1 && barriers[..] == PlaceOne(sh, old(barriers[..]), e.0.value)
  {
    var i := rs.Upto(|left|);
    var extracted := DelPos(left, i);
    var z := extracted.0.value;
    left' := extracted.1;
    var c1 := Src(z);
    var c2 := Offset(sh, c1, z.direction);
    OrInto(sh, barriers, c1, z.direction);
    OrInto(sh, barriers, c2, F(z.direction));
  }

  /** The tile phases of new_game: grow, list the barrier candidates, shuffle (net.c:202-349). */
  method MakeTiles(sh: Shape, tiles: array<bv8>, rs: RandomState) returns (cands: seq<Xyd>)
    requires ValidShape(sh) && tiles[..] == Zeros(sh.width * sh.height) && rs.history == []
    modifies tiles, rs
    ensures tiles[..] == GameTiles(sh, rs.draw)
    ensures cands == Candidates(sh, Grown(sh, rs.draw))
    ensures rs.history == Shuffle(sh, rs.draw, Grown(sh, rs.draw), GrownHistory(sh, rs.draw)).1
  {
    GrowTree(sh, tiles, rs);
    cands := BuildCandidates(sh, tiles);
    ShuffleTiles(sh, tiles, rs);
  }

  /** The barrier phase of new_game: count, then draw and place (net.c:364-391). */
  method MakeBarriers(sh: Shape, barriers: array<bv8>, rs: RandomState, cands: seq<Xyd>, num: nat, den: nat)
    requires Fits(sh, barriers[..]) && Sorted(cands) && den > 0 && num <= den
    requires forall z | z in cands :: InGrid(sh, Src(z))
    modifies barriers, rs
    ensures var n := BarrierCount(num, den, |cands|);
            barriers[..] == PlaceAll(sh, old(barriers[..]), Picks(cands, n, rs.draw, old(rs.history)).0)
  {
    var nbarriers := BarrierCount(num, den, |cands|);
    PlaceBarriers(sh, barriers, rs, cands, nbarriers);
  }

  /** GameBarriers spelled out from the results of the tile phases. */
  lemma GameBarriersFrom(sh: Shape, draw: seq<nat> -> nat, num: nat, den: nat)
    requires ValidShape(sh) && BorderInBounds(sh) && den > 0 && num <= den
    ensures var cands := Candidates(sh, Grown(sh, draw));
            var hist := Shuffle(sh, draw, Grown(sh, draw), GrownHistory(sh, draw)).1;
            && (forall z | z in cands :: InGrid(sh, Src(z)) && IsDir(z.direction))
            && GameBarriers(sh, draw, num, den) == PlaceAll(sh, BorderAsWritten(sh), Picks(cands, BarrierCount(num, den, |cands|), draw, hist).0)
  {
    var t := Grown(sh, draw);
    CandidatesMembers(sh, t);
    forall z | z in Candidates(sh, t)
      ensures InGrid(sh, Src(z)) && IsDir(z.direction)
    {
      assert IsCandidate(sh, t, z);
    }
  }

  /**
   * new_game: a blank state, the border, the grown tree, the candidates,
   * the shuffle, then the barriers. The random stream the seed selects is
   * the parameter `draw`.
   */
  method NewGame(params: Params, draw: seq<nat> -> nat) returns (state: GameState)
    requires params.width > 2 && params.height > 2
    requires params.wrapping || params.width <= params.height
    requires params.barrierDen > 0 && params.barrierNum <= params.barrierDen
    ensures fresh(state) && fresh(state.tiles) && fresh(state.barriers) && state.Valid()
    ensures state.Dims() == Shape(params.width, params.height, params.wrapping) && !state.completed
    ensures state.tiles[..] == GameTiles(state.Dims(), draw)
    ensures state.barriers[..] == GameBarriers(state.Dims(), draw, params.barrierNum, params.barrierDen)
  {
    state := new GameState(params.width, params.height, params.wrapping);
    var sh := state.Dims();
    SetBorder(sh, state.barriers);
    var rs := new RandomState(draw);
    var cands := MakeTiles(sh, state.tiles, rs);
    GameBarriersFrom(sh, draw, params.barrierNum, params.barrierDen);
    MakeBarriers(sh, state.barriers, rs, cands, params.barrierNum, params.barrierDen);
  }

  // ---------------------------------------------------------------------
  // What the new game is promised to be.

  /**
   * The shuffled tiles are the tree's tiles turned: same connector counts,
   * no four-way tile, and the centre tile is part of the network.
   */
  lemma GameTilesFacts(sh: Shape, draw: seq<nat> -> nat)
    requires ValidShape(sh)
    ensures var t, g := GameTiles(sh, draw), Grown(sh, draw);
            && (forall c | InGrid(sh, c) :: Count(At(sh, t, c)) == Count(At(sh, g, c)))
            && (forall c | InGrid(sh, c) :: IsMask(At(sh, t, c)) && Count(At(sh, t, c)) <= 3 && At(sh, t, c) != 0x0F)
            && At(sh, t, Centre(sh)) != 0
  {
    var g := Grown(sh, draw);
    GrownIsTree(sh, draw);
    ShuffleFacts(sh, draw, g, GrownHistory(sh, draw));
    var t := GameTiles(sh, draw);
    assert Count(At(sh, t, Centre(sh))) == Count(At(sh, g, Centre(sh)));
  }

  /** A higher barrier ratio never gives fewer barriers. */
  lemma BarrierCountMono(num1: nat, den1: nat, num2: nat, den2: nat, count: nat)
    requires den1 > 0 && num1 <= den1 && den2 > 0 && num2 <= den2
    requires num1 * den2 <= num2 * den1
    ensures BarrierCount(num1, den1, count) <= BarrierCount(num2, den2, count)
  {
    var k1, k2 := BarrierCount(num1, den1, count), BarrierCount(num2, den2, count);
    if k1 > k2 {
      RatioChain(num1, den1, num2, den2, count, k1, k2);
      MulMono(k2 + 1, k1, den2 * den1);
      assert false;
    }
  }

  /** k1*den1*den2 <= num1*count*den2 <= num2*count*den1 < (k2+1)*den2*den1. */
  lemma RatioChain(num1: nat, den1: nat, num2: nat, den2: nat, count: nat, k1: nat, k2: nat)
    requires den1 > 0 && den2 > 0 && num1 * den2 <= num2 * den1
    requires k1 * den1 <= num1 * count && num2 * count < (k2 + 1) * den2
    ensures k1 * (den2 * den1) < (k2 + 1) * (den2 * den1)
  {
    MulMono(k1 * den1, num1 * count, den2);
    MulSwap(num1, count, den2);
    MulMono(num1 * den2, num2 * den1, count);
    MulSwap(num2, den1, count);
    MulStrict(num2 * count, (k2 + 1) * den2, den1);
    MulSwap(k1, den1, den2);
    MulAssoc(k1, den2, den1);
    MulAssoc(k2 + 1, den2, den1);
  }

  lemma MulSwap(a: int, b: int, c: int)
    ensures (a * b) * c == (a * c) * b
  {
  }

  lemma MulAssoc(a: int, b: int, c: int)
    ensures a * (b * c) == (a * b) * c
  {
  }

  lemma MulStrict(a: int, b: int, k: int)
    requires a < b && k > 0
    ensures a * k < b * k
  {
  }

  /**
   * Raising the barrier ratio with the same seed keeps every barrier of the
   * lower ratio (the design note at net.c:351-363).
   */
  lemma BarriersGrowWithRatio(sh: Shape, draw: seq<nat> -> nat, num1: nat, den1: nat, num2: nat, den2: nat)
    requires ValidShape(sh) && BorderInBounds(sh) && den1 > 0 && num1 <= den1 && den2 > 0 && num2 <= den2
    requires num1 * den2 <= num2 * den1
    ensures Within(sh, GameBarriers(sh, draw, num1, den1), GameBarriers(sh, draw, num2, den2))
  {
    var cands := Candidates(sh, Grown(sh, draw));
    BarrierCountMono(num1, den1, num2, den2, |cands|);
    GameBarriersFrom(sh, draw, num1, den1);
    GameBarriersFrom(sh, draw, num2, den2);
    PlaceMorePicks(sh, BorderAsWritten(sh), cands, BarrierCount(num1, den1, |cands|), BarrierCount(num2, den2, |cands|),
                   draw, Shuffle(sh, draw, Grown(sh, draw), GrownHistory(sh, draw)).1);
  }

  /**
   * The barriers of the new game: the as-written border, on whose first and
   * last rows the U and D barriers are exactly where they belong, plus the
   * nbarriers drawn edges, each blocked from both ends; the drawn barriers
   * on their own are matched on the other side of every edge.
   */
  lemma GameBarriersFacts(sh: Shape, draw: seq<nat> -> nat, num: nat, den: nat)
    requires ValidShape(sh) && BorderInBounds(sh) && den > 0 && num <= den
    ensures var b, ps := GameBarriers(sh, draw, num, den), GamePicks(sh, draw, num, den);
            && Within(sh, BorderAsWritten(sh), b)
            && (!sh.wrapping ==> forall c | InGrid(sh, c) ::
                  (c.y == 0 ==> Has(At(sh, b, c), U)) && (c.y == sh.height - 1 ==> Has(At(sh, b, c), D)))
            && Symmetric(sh, PlaceAll(sh, Zeros(sh.width * sh.height), ps))
            && forall z | z in ps ::
                 Has(At(sh, b, Src(z)), z.direction) && Has(At(sh, b, Offset(sh, Src(z), z.direction)), F(z.direction))
  {
    var ps := GamePicks(sh, draw, num, den);
    PlaceAllHas(sh, BorderAsWritten(sh), ps);
    TopBottomBlocked(sh, GameBarriers(sh, draw, num, den));
    ZerosSymmetric(sh);
    PlaceAllSymmetric(sh, Zeros(sh.width * sh.height), ps);
  }

  /** Anything holding the as-written border blocks the top of row 0 and the bottom of row h-1. */
  lemma TopBottomBlocked(sh: Shape, b: seq<bv8>)
    requires ValidShape(sh) && BorderInBounds(sh) && Fits(sh, b) && Within(sh, BorderAsWritten(sh), b)
    ensures !sh.wrapping ==> forall c | InGrid(sh, c) ::
              (c.y == 0 ==> Has(At(sh, b, c), U)) && (c.y == sh.height - 1 ==> Has(At(sh, b, c), D))
  {
    if !sh.wrapping {
      forall c | InGrid(sh, c)
        ensures (c.y == 0 ==> Has(At(sh, b, c), U)) && (c.y == sh.height - 1 ==> Has(At(sh, b, c), D))
      {
        BorderAsWrittenTopBottom(sh, c);
        var a := At(sh, BorderAsWritten(sh), c);
        if c.y == 0 {
          assert Has(a, U) && IsDir(U);
        }
        if c.y == sh.height - 1 {
          assert Has(a, D) && IsDir(D);
        }
      }
    }
  }

  /**
   * With the border of Layout.Border instead, every barrier of the new game
   * would be matched on the other side of its edge and the whole outer edge
   * would be blocked.
   */
  lemma CorrectedBarriersFacts(sh: Shape, draw: seq<nat> -> nat, num: nat, den: nat)
    requires ValidShape(sh) && den > 0 && num <= den
    ensures var b := PlaceAll(sh, Border(sh), GamePicks(sh, draw, num, den));
            && Symmetric(sh, b)
            && Within(sh, Border(sh), b)
  {
    var ps := GamePicks(sh, draw, num, den);
    BorderSymmetric(sh);
    PlaceAllSymmetric(sh, Border(sh), ps);
    PlaceAllHas(sh, Border(sh), ps);
  }
}
