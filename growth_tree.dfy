/**
 * What the growth loop of new_game builds (net.c:163-200, 208-322): a
 * connector graph with matching connectors on both sides of every edge,
 * no tile with four connectors, exactly one edge fewer than connected
 * tiles, no closed loop, and a path from every connected tile back to
 * the centre.
 *
 * The proofs carry two ghost sequences through the loop: `rank`, the
 * order in which tiles were connected, and `parent`, the direction
 * through which each tile was entered.
 */
module GrowthTree {
  import opened Directions
  import opened Grid
  import opened Xyd
  import opened Tree234
  import opened Random
  import opened Growth

  /** Number of non-blank tiles. */
  function Filled(s: seq<bv8>): nat {
    |s| - ZeroCount(s)
  }

  /** Total number of connectors: every edge of the graph is counted twice. */
  function SumCount(s: seq<bv8>): (r: nat)
    ensures r <= 4 * |s|
  {
    if s == [] then 0 else Count(s[0]) + SumCount(s[1..])
  }

  lemma {:induction false} SumCountUpdate(s: seq<bv8>, i: nat, v: bv8)
    requires i < |s|
    ensures SumCount(s[i := v]) == SumCount(s) - Count(s[i]) + Count(v)
  {
    if i > 0 {
      assert s[i := v][1..] == s[1..][i - 1 := v];
      SumCountUpdate(s[1..], i - 1, v);
    } else {
      assert s[i := v][1..] == s[1..];
    }
  }

  /** Every connector is matched on the far side, and the two ends have different ranks. */
  ghost predicate Links(sh: Shape, t: seq<bv8>, rank: seq<nat>)
    requires Fits(sh, t) && Fits(sh, rank)
  {
    forall c, d {:trigger Offset(sh, c, d)} | InGrid(sh, c) && IsDir(d) && Has(At(sh, t, c), d) ::
      Has(At(sh, t, Offset(sh, c, d)), F(d)) && At(sh, rank, c) != At(sh, rank, Offset(sh, c, d))
  }

  /**
   * Every connected tile but the centre has a parent connector leading to a
   * lower rank, and that is its only connector leading to a lower rank.
   */
  ghost predicate Parents(sh: Shape, t: seq<bv8>, rank: seq<nat>, parent: seq<bv8>)
    requires Fits(sh, t) && Fits(sh, rank) && Fits(sh, parent)
  {
    && (forall c {:trigger At(sh, parent, c)} | InGrid(sh, c) && At(sh, t, c) != 0 && c != Centre(sh) ::
          && IsDir(At(sh, parent, c))
          && Has(At(sh, t, c), At(sh, parent, c))
          && At(sh, rank, Offset(sh, c, At(sh, parent, c))) < At(sh, rank, c))
    && (forall c, d {:trigger Offset(sh, c, d)} | InGrid(sh, c) && IsDir(d) && Has(At(sh, t, c), d) &&
                      At(sh, rank, Offset(sh, c, d)) < At(sh, rank, c) ::
          c != Centre(sh) && d == At(sh, parent, c))
  }

  /** The centre has rank 0 and no connected tile has a rank above the number of filled tiles. */
  ghost predicate Ranked(sh: Shape, t: seq<bv8>, rank: seq<nat>)
    requires Fits(sh, t) && Fits(sh, rank)
  {
    && At(sh, rank, Centre(sh)) == 0
    && forall c | InGrid(sh, c) && Connected(sh, t, c) :: At(sh, rank, c) <= Filled(t)
  }

  /** Every tile is a 4-bit mask with at most three connectors: no full cross. */
  ghost predicate NoCross(sh: Shape, t: seq<bv8>)
    requires Fits(sh, t)
  {
    forall c | InGrid(sh, c) :: IsMask(At(sh, t, c)) && Count(At(sh, t, c)) <= 3
  }

  /** A pending possibility adds a connector its source lacks, to a source with at most two. */
  predicate PendingTied(sh: Shape, t: seq<bv8>, poss: seq<Xyd>)
    requires Fits(sh, t)
  {
    forall p | p in poss && InGrid(sh, Src(p)) ::
      !Has(At(sh, t, Src(p)), p.direction) && Count(At(sh, t, Src(p))) <= 2
  }

  /** Connectors counted on both sides equal twice (connected tiles - 1). */
  predicate EdgeCount(sh: Shape, t: seq<bv8>)
    requires Fits(sh, t)
  {
    SumCount(t) + 2 == 2 * (Filled(t) + if At(sh, t, Centre(sh)) == 0 then 1 else 0)
  }

  ghost predicate TreeInv(sh: Shape, g: Growth, rank: seq<nat>, parent: seq<bv8>) {
    && GrowInv(sh, g)
    && Fits(sh, rank) && Fits(sh, parent)
    && Links(sh, g.tiles, rank)
    && Parents(sh, g.tiles, rank, parent)
    && Ranked(sh, g.tiles, rank)
    && NoCross(sh, g.tiles)
    && PendingTied(sh, g.tiles, g.poss)
    && EdgeCount(sh, g.tiles)
  }

  // ---------------------------------------------------------------------
  // One iteration, seen from the tiles: `t` before, `p` the picked possibility.

  /** What every iteration may assume about the picked possibility. */
  predicate StepPre(sh: Shape, t: seq<bv8>, p: Xyd) {
    && Fits(sh, t)
    && PendingOk(sh, t, p)
    && (At(sh, t, Centre(sh)) == 0 ==> Src(p) == Centre(sh))
  }

  /** The newly connected tile gets the next rank... */
  function NewRank(sh: Shape, t: seq<bv8>, p: Xyd, rank: seq<nat>): seq<nat>
    requires StepPre(sh, t, p) && Fits(sh, rank)
  {
    Set(sh, rank, Target(sh, p), Filled(t) + 1)
  }

  /** ...and its parent is the tile it was entered from. */
  function NewParent(sh: Shape, t: seq<bv8>, p: Xyd, parent: seq<bv8>): seq<bv8>
    requires StepPre(sh, t, p) && Fits(sh, parent)
  {
    Set(sh, parent, Target(sh, p), F(p.direction))
  }

  /** Connect grows the number of filled tiles. */
  lemma StepFilled(sh: Shape, t: seq<bv8>, p: Xyd)
    requires StepPre(sh, t, p)
    ensures Filled(Connect(sh, t, p)) == Filled(t) + 1 + (if At(sh, t, Src(p)) == 0 then 1 else 0)
  {
    ConnectFacts(sh, t, p);
  }

  lemma StepLinksAt(sh: Shape, t: seq<bv8>, p: Xyd, rank: seq<nat>, c: Cell, e: bv8)
    requires StepPre(sh, t, p) && Fits(sh, rank) && Links(sh, t, rank) && Ranked(sh, t, rank)
    requires InGrid(sh, c) && IsDir(e) && Has(At(sh, Connect(sh, t, p), c), e)
    ensures var t', rank' := Connect(sh, t, p), NewRank(sh, t, p, rank);
            Has(At(sh, t', Offset(sh, c, e)), F(e)) && At(sh, rank', c) != At(sh, rank', Offset(sh, c, e))
  {
    var c1, c2, d := Src(p), Target(sh, p), p.direction;
    var t', rank' := Connect(sh, t, p), NewRank(sh, t, p, rank);
    var n := Offset(sh, c, e);
    ConnectFacts(sh, t, p);
    StepFilled(sh, t, p);
    FlipIsOpposite(d);
    FlipIsOpposite(e);
    if c == c2 {
      SingleBit(F(d), e);
      OffsetRoundTrip(sh, c1, d);
      OrDirNonZero(At(sh, t, c1), d);
      assert n == c1;
    } else if c == c1 && e == d {
      SingleBit(F(d), F(d));
    } else {
      OrBit(At(sh, t, c1), d, e);
      assert Has(At(sh, t, c), e);
      assert Has(At(sh, t, n), F(e));
      assert n != c2;
      OffsetMoves(sh, c, e, e);
      OrBit(At(sh, t, c1), d, F(e));
    }
  }

  lemma StepLinks(sh: Shape, t: seq<bv8>, p: Xyd, rank: seq<nat>)
    requires StepPre(sh, t, p) && Fits(sh, rank) && Links(sh, t, rank) && Ranked(sh, t, rank)
    ensures Links(sh, Connect(sh, t, p), NewRank(sh, t, p, rank))
  {
    ConnectFacts(sh, t, p);
    forall c, e | InGrid(sh, c) && IsDir(e) && Has(At(sh, Connect(sh, t, p), c), e)
      ensures var t', rank' := Connect(sh, t, p), NewRank(sh, t, p, rank);
              Has(At(sh, t', Offset(sh, c, e)), F(e)) && At(sh, rank', c) != At(sh, rank', Offset(sh, c, e))
    {
      StepLinksAt(sh, t, p, rank, c, e);
    }
  }

  lemma StepParentAt(sh: Shape, t: seq<bv8>, p: Xyd, rank: seq<nat>, parent: seq<bv8>, c: Cell)
    requires StepPre(sh, t, p) && Fits(sh, rank) && Fits(sh, parent)
    requires Links(sh, t, rank) && Parents(sh, t, rank, parent) && Ranked(sh, t, rank)
    requires InGrid(sh, c) && At(sh, Connect(sh, t, p), c) != 0 && c != Centre(sh)
    ensures var t', rank', parent' := Connect(sh, t, p), NewRank(sh, t, p, rank), NewParent(sh, t, p, parent);
            && IsDir(At(sh, parent', c))
            && Has(At(sh, t', c), At(sh, parent', c))
            && At(sh, rank', Offset(sh, c, At(sh, parent', c))) < At(sh, rank', c)
  {
    var c1, c2, d := Src(p), Target(sh, p), p.direction;
    ConnectFacts(sh, t, p);
    StepFilled(sh, t, p);
    FlipIsOpposite(d);
    if c == c2 {
      SingleBit(F(d), F(d));
      OffsetRoundTrip(sh, c1, d);
    } else {
      assert At(sh, t, c) != 0;
      var e := At(sh, parent, c);
      OrBit(At(sh, t, c1), d, e);
      FlipIsOpposite(e);
      assert Has(At(sh, t, Offset(sh, c, e)), F(e));
    }
  }

  lemma StepUniqueAt(sh: Shape, t: seq<bv8>, p: Xyd, rank: seq<nat>, parent: seq<bv8>, c: Cell, e: bv8)
    requires StepPre(sh, t, p) && Fits(sh, rank) && Fits(sh, parent)
    requires Links(sh, t, rank) && Parents(sh, t, rank, parent) && Ranked(sh, t, rank)
    requires InGrid(sh, c) && IsDir(e) && Has(At(sh, Connect(sh, t, p), c), e)
    requires At(sh, NewRank(sh, t, p, rank), Offset(sh, c, e)) < At(sh, NewRank(sh, t, p, rank), c)
    ensures c != Centre(sh) && e == At(sh, NewParent(sh, t, p, parent), c)
  {
    var c1, c2, d := Src(p), Target(sh, p), p.direction;
    var rank', parent' := NewRank(sh, t, p, rank), NewParent(sh, t, p, parent);
    var n := Offset(sh, c, e);
    ConnectFacts(sh, t, p);
    if c == c2 {
      FlipIsOpposite(d);
      SingleBit(F(d), e);
    } else if c == c1 && e == d {
      assert false;
    } else {
      assert Has(At(sh, t, c), e) by {
        OrBit(At(sh, t, c1), d, e);
      }
      assert n != c2 by {
        FlipIsOpposite(e);
        assert Has(At(sh, t, n), F(e));
      }
      assert At(sh, rank', n) == At(sh, rank, n);
      assert At(sh, rank', c) == At(sh, rank, c);
      assert At(sh, parent', c) == At(sh, parent, c);
    }
  }

  lemma StepParents(sh: Shape, t: seq<bv8>, p: Xyd, rank: seq<nat>, parent: seq<bv8>)
    requires StepPre(sh, t, p) && Fits(sh, rank) && Fits(sh, parent)
    requires Links(sh, t, rank) && Parents(sh, t, rank, parent) && Ranked(sh, t, rank)
    ensures Parents(sh, Connect(sh, t, p), NewRank(sh, t, p, rank), NewParent(sh, t, p, parent))
  {
    var t', rank', parent' := Connect(sh, t, p), NewRank(sh, t, p, rank), NewParent(sh, t, p, parent);
    assert Fits(sh, t') && Fits(sh, rank') && Fits(sh, parent');
    forall c | InGrid(sh, c) && At(sh, t', c) != 0 && c != Centre(sh)
      ensures && IsDir(At(sh, parent', c))
              && Has(At(sh, t', c), At(sh, parent', c))
              && At(sh, rank', Offset(sh, c, At(sh, parent', c))) < At(sh, rank', c)
    {
      StepParentAt(sh, t, p, rank, parent, c);
    }
    forall c, e | InGrid(sh, c) && IsDir(e) && Has(At(sh, t', c), e) &&
                  At(sh, rank', Offset(sh, c, e)) < At(sh, rank', c)
      ensures c != Centre(sh) && e == At(sh, parent', c)
    {
      StepUniqueAt(sh, t, p, rank, parent, c, e);
    }
  }

  lemma StepRanked(sh: Shape, t: seq<bv8>, p: Xyd, rank: seq<nat>)
    requires StepPre(sh, t, p) && Fits(sh, rank) && Ranked(sh, t, rank)
    ensures Ranked(sh, Connect(sh, t, p), NewRank(sh, t, p, rank))
  {
    var t', rank' := Connect(sh, t, p), NewRank(sh, t, p, rank);
    ConnectFacts(sh, t, p);
    StepFilled(sh, t, p);
    forall c | InGrid(sh, c) && Connected(sh, t', c)
      ensures At(sh, rank', c) <= Filled(t')
    {
      if c != Target(sh, p) && c != Src(p) {
        assert Connected(sh, t, c);
      }
    }
  }

  lemma StepNoCross(sh: Shape, t: seq<bv8>, p: Xyd, poss: seq<Xyd>)
    requires StepPre(sh, t, p) && NoCross(sh, t) && PendingTied(sh, t, poss) && p in poss
    ensures NoCross(sh, Connect(sh, t, p))
  {
    var c1, d := Src(p), p.direction;
    ConnectFacts(sh, t, p);
    FlipIsOpposite(d);
    SingleBit(F(d), F(d));
    CountAddBit(At(sh, t, c1), d);
    OrBit(At(sh, t, c1), d, d);
  }

  lemma StepEdgeCount(sh: Shape, t: seq<bv8>, p: Xyd, poss: seq<Xyd>)
    requires StepPre(sh, t, p) && EdgeCount(sh, t) && PendingTied(sh, t, poss) && p in poss
    ensures EdgeCount(sh, Connect(sh, t, p))
  {
    var c1, c2, d := Src(p), Target(sh, p), p.direction;
    var a := At(sh, t, c1);
    ConnectFacts(sh, t, p);
    StepFilled(sh, t, p);
    FlipIsOpposite(d);
    SingleBit(F(d), F(d));
    CountAddBit(a, d);
    var t1 := t[Slot(sh, c1) := a | d];
    SumCountUpdate(t, Slot(sh, c1), a | d);
    SumCountUpdate(t1, Slot(sh, c2), F(d));
    if Slot(sh, c1) == Slot(sh, c2) {
      SlotInjective(sh, c1, c2);
    }
    assert t1[Slot(sh, c2)] == 0;
    assert Connected(sh, t, Centre(sh));
  }

  /** A possibility that survives the iteration keeps its source below three connectors. */
  lemma SurvivorTied(sh: Shape, draw: seq<nat> -> nat, g: Growth, z: Xyd)
    requires GrowInv(sh, g) && |g.poss| > 0 && NoCross(sh, g.tiles) && PendingTied(sh, g.tiles, g.poss)
    requires z in g.poss && z != Picked(sh, draw, g)
    requires z in TPiece(sh, Connect(sh, g.tiles, Picked(sh, draw, g)),
                         DelPos(g.poss, Draw(draw, g.history, |g.poss|)).1, Src(Picked(sh, draw, g)))
    ensures var t' := Connect(sh, g.tiles, Picked(sh, draw, g));
            !Has(At(sh, t', Src(z)), z.direction) && Count(At(sh, t', Src(z))) <= 2
  {
    var p := Picked(sh, draw, g);
    var c1, c2, d := Src(p), Target(sh, p), p.direction;
    var t := g.tiles;
    var t' := Connect(sh, t, p);
    assert PendingOk(sh, t, z);
    if At(sh, t, Centre(sh)) == 0 {
      assert At(sh, t, c1) == t[Slot(sh, c1)] == 0;
    }
    ConnectFacts(sh, t, p);
    if Src(z) == c1 {
      var a := At(sh, t, c1);
      assert z.direction != d;
      OrBit(a, d, z.direction);
      CountAddBit(a, d);
      if Count(a | d) == 3 {
        FourthDirection(a | d, z.direction);
        assert false;
      }
    } else if Src(z) == c2 {
      assert false;
    }
  }

  lemma StepPendingTied(sh: Shape, draw: seq<nat> -> nat, g: Growth)
    requires GrowInv(sh, g) && |g.poss| > 0 && NoCross(sh, g.tiles) && PendingTied(sh, g.tiles, g.poss)
    ensures PendingTied(sh, GrowStep(sh, draw, g).tiles, GrowStep(sh, draw, g).poss)
  {
    var i := Draw(draw, g.history, |g.poss|);
    var rest := DelPos(g.poss, i).1;
    var p := Picked(sh, draw, g);
    var c1 := Src(p);
    var c2 := Target(sh, p);
    var d2 := F(p.direction);
    var t := Connect(sh, g.tiles, p);
    var poss1 := TPiece(sh, t, rest, c1);
    var poss2 := AvoidLoops(sh, poss1, c2, 1);
    var poss3 := AddFrontier(sh, t, poss2, c2, d2, 1);
    GrowStepKeepsInv(sh, draw, g);
    assert GrowStep(sh, draw, g) == Growth(t, poss3, g.history + [|g.poss|]);
    if At(sh, g.tiles, Centre(sh)) == 0 {
      assert At(sh, g.tiles, c1) == g.tiles[Slot(sh, c1)] == 0;
    }
    ConnectFacts(sh, g.tiles, p);
    AvoidLoopsMembers(sh, poss1, c2, 1);
    AddFrontierMembers(sh, t, poss2, c2, d2, 1);
    forall z | z in poss3 && InGrid(sh, Src(z))
      ensures !Has(At(sh, t, Src(z)), z.direction) && Count(At(sh, t, Src(z))) <= 2
    {
      if z in poss2 {
        assert z in rest;
        SurvivorTied(sh, draw, g, z);
      } else {
        assert Frontier(sh, t, z, c2, d2, 1);
        FlipIsOpposite(p.direction);
        SingleBit(d2, z.direction);
      }
    }
  }

  // ---------------------------------------------------------------------
  // The whole loop.

  lemma GrowStepKeepsTree(sh: Shape, draw: seq<nat> -> nat, g: Growth, rank: seq<nat>, parent: seq<bv8>)
    returns (rank': seq<nat>, parent': seq<bv8>)
    requires TreeInv(sh, g, rank, parent) && |g.poss| > 0
    ensures TreeInv(sh, GrowStep(sh, draw, g), rank', parent')
  {
    var p := Picked(sh, draw, g);
    var t := g.tiles;
    if At(sh, t, Centre(sh)) == 0 {
      assert At(sh, t, Src(p)) == t[Slot(sh, Src(p))] == 0;
    }
    assert StepPre(sh, t, p);
    rank' := NewRank(sh, t, p, rank);
    parent' := NewParent(sh, t, p, parent);
    GrowStepKeepsInv(sh, draw, g);
    assert GrowStep(sh, draw, g).tiles == Connect(sh, t, p);
    StepLinks(sh, t, p, rank);
    StepParents(sh, t, p, rank, parent);
    StepRanked(sh, t, p, rank);
    StepNoCross(sh, t, p, g.poss);
    StepEdgeCount(sh, t, p, g.poss);
    StepPendingTied(sh, draw, g);
  }

  lemma {:induction false} GrowKeepsTree(sh: Shape, draw: seq<nat> -> nat, g: Growth, rank: seq<nat>, parent: seq<bv8>)
    returns (rank': seq<nat>, parent': seq<bv8>)
    requires TreeInv(sh, g, rank, parent)
    ensures TreeInv(sh, Grow(sh, draw, g), rank', parent')
    decreases ZeroCount(g.tiles)
  {
    if |g.poss| == 0 {
      rank', parent' := rank, parent;
    } else {
      GrowStepKeepsInv(sh, draw, g);
      var r1, p1 := GrowStepKeepsTree(sh, draw, g, rank, parent);
      rank', parent' := GrowKeepsTree(sh, draw, GrowStep(sh, draw, g), r1, p1);
    }
  }

  /** The four starting possibilities are exactly the four directions out of the centre. */
  lemma StartPossMembers(sh: Shape)
    ensures forall z :: z in StartPoss(sh) <==>
      var c := Centre(sh); z == Xyd(c.x, c.y, R) || z == Xyd(c.x, c.y, U) || z == Xyd(c.x, c.y, L) || z == Xyd(c.x, c.y, D)
    ensures Sorted(StartPoss(sh)) && |StartPoss(sh)| == 4
  {
  }

  /** The loop is entered with its invariant: every starting possibility leaves the centre into a blank tile. */
  lemma StartInv(sh: Shape)
    requires ValidShape(sh)
    ensures GrowInv(sh, Start(sh))
  {
    var g := Start(sh);
    StartPossMembers(sh);
    var c := Centre(sh);
    forall p | p in g.poss
      ensures PendingOk(sh, g.tiles, p)
    {
      assert Src(p) == c && IsDir(p.direction);
      OffsetMoves(sh, c, p.direction, p.direction);
      assert At(sh, g.tiles, Target(sh, p)) == Zeros(sh.width * sh.height)[Slot(sh, Target(sh, p))];
    }
  }

  /** The loop starts in a state that satisfies the tree invariant. */
  lemma StartTree(sh: Shape) returns (rank: seq<nat>, parent: seq<bv8>)
    requires ValidShape(sh)
    ensures TreeInv(sh, Start(sh), rank, parent)
  {
    var n := sh.width * sh.height;
    rank := seq(n, _ => 0);
    parent := Zeros(n);
    var t := Start(sh).tiles;
    StartInv(sh);
    ZeroCountAll(t);
    SumCountZeros(t);
    assert forall c | InGrid(sh, c) :: At(sh, t, c) == 0;
    assert forall c | InGrid(sh, c) :: At(sh, rank, c) == 0;
    StartPossMembers(sh);
  }

  lemma {:induction false} ZeroCountAll(s: seq<bv8>)
    requires forall i | 0 <= i < |s| :: s[i] == 0
    ensures ZeroCount(s) == |s|
  {
    if s != [] {
      ZeroCountAll(s[1..]);
    }
  }

  lemma {:induction false} SumCountZeros(s: seq<bv8>)
    requires forall i | 0 <= i < |s| :: s[i] == 0
    ensures SumCount(s) == 0
  {
    if s != [] {
      SumCountZeros(s[1..]);
    }
  }

  // ---------------------------------------------------------------------
  // The grown graph: matched, no full cross, edges = tiles - 1, no loop,
  // every connected tile joined to the centre.

  /** The tiles new_game has built when the growth loop exits. */
  function Grown(sh: Shape, draw: seq<nat> -> nat): (t: seq<bv8>)
    requires ValidShape(sh)
    ensures Fits(sh, t)
    ensures At(sh, t, Centre(sh)) != 0
  {
    StartInv(sh);
    Grow(sh, draw, Start(sh)).tiles
  }

  /** Tile a has a connector in direction d and the step in direction d leads to b. */
  predicate JoinedBy(sh: Shape, t: seq<bv8>, a: Cell, b: Cell, d: bv8)
    requires Fits(sh, t) && InGrid(sh, a)
  {
    Has(At(sh, t, a), d) && Offset(sh, a, d) == b
  }

  /** a has a connector leading to b. */
  predicate Joined(sh: Shape, t: seq<bv8>, a: Cell, b: Cell)
    requires Fits(sh, t) && InGrid(sh, a)
  {
    JoinedBy(sh, t, a, b, R) || JoinedBy(sh, t, a, b, U) || JoinedBy(sh, t, a, b, L) || JoinedBy(sh, t, a, b, D)
  }

  /** A closed loop of at least three distinct tiles, each joined to the next. */
  predicate IsCycle(sh: Shape, t: seq<bv8>, cyc: seq<Cell>)
    requires Fits(sh, t)
  {
    && |cyc| >= 3
    && (forall i | 0 <= i < |cyc| :: InGrid(sh, cyc[i]))
    && (forall i, j | 0 <= i < j < |cyc| :: cyc[i] != cyc[j])
    && (forall i {:trigger Succ(cyc, i)} | 0 <= i < |cyc| :: Joined(sh, t, cyc[i], Succ(cyc, i)))
  }

  /** The tile after position i on a closed loop. */
  function Succ(cyc: seq<Cell>, i: int): Cell
    requires 0 <= i < |cyc|
  {
    cyc[(i + 1) % |cyc|]
  }

  /** Position of a highest-ranked tile of a non-empty sequence of tiles. */
  function {:induction false} MaxRankIndex(sh: Shape, rank: seq<nat>, cyc: seq<Cell>): (m: nat)
    requires Fits(sh, rank) && |cyc| > 0 && forall i | 0 <= i < |cyc| :: InGrid(sh, cyc[i])
    ensures m < |cyc| && forall i | 0 <= i < |cyc| :: At(sh, rank, cyc[i]) <= At(sh, rank, cyc[m])
  {
    if |cyc| == 1 then 0
    else
      var m := MaxRankIndex(sh, rank, cyc[..|cyc| - 1]);
      if At(sh, rank, cyc[|cyc| - 1]) <= At(sh, rank, cyc[m]) then m else |cyc| - 1
  }

  /** Under the link and parent invariants no closed loop exists. */
  lemma NoCycle(sh: Shape, t: seq<bv8>, rank: seq<nat>, parent: seq<bv8>, cyc: seq<Cell>)
    requires Fits(sh, t) && Fits(sh, rank) && Fits(sh, parent)
    requires Links(sh, t, rank) && Parents(sh, t, rank, parent)
    ensures !IsCycle(sh, t, cyc)
  {
    if IsCycle(sh, t, cyc) {
      var m := MaxRankIndex(sh, rank, cyc);
      var pi := LoopNeighbours(|cyc|, m);
      var ni := (m + 1) % |cyc|;
      assert Joined(sh, t, cyc[m], Succ(cyc, m));
      assert Joined(sh, t, cyc[pi], Succ(cyc, pi));
      LowerIsParent(sh, t, rank, parent, cyc[m], cyc[ni]);
      LowerIsParent(sh, t, rank, parent, cyc[m], cyc[pi]);
      assert false;
    }
  }

  /** On a loop of n >= 3 positions, the one before m and the one after m differ. */
  lemma LoopNeighbours(n: int, m: int) returns (pi: int)
    requires n >= 3 && 0 <= m < n
    ensures 0 <= pi < n && (pi + 1) % n == m && pi != (m + 1) % n
  {
    if m == 0 {
      pi := n - 1;
      assert (m + 1) % n == 1;
    } else if m == n - 1 {
      pi := n - 2;
      assert (m + 1) % n == 0;
    } else {
      pi := m - 1;
      assert (m + 1) % n == m + 1;
    }
  }

  /** A neighbour joined to `a` either way, of no higher rank, is a's parent. */
  lemma LowerIsParent(sh: Shape, t: seq<bv8>, rank: seq<nat>, parent: seq<bv8>, a: Cell, b: Cell)
    requires Fits(sh, t) && Fits(sh, rank) && Fits(sh, parent)
    requires Links(sh, t, rank) && Parents(sh, t, rank, parent)
    requires InGrid(sh, a) && InGrid(sh, b) && (Joined(sh, t, a, b) || Joined(sh, t, b, a))
    requires At(sh, rank, b) <= At(sh, rank, a)
    ensures b == Offset(sh, a, At(sh, parent, a))
  {
    if !Joined(sh, t, a, b) {
      var e := JoinedDir(sh, t, b, a);
      FlipIsOpposite(e);
      OffsetRoundTrip(sh, b, e);
      assert Offset(sh, b, e) == a;
      assert JoinedBy(sh, t, a, b, F(e));
    }
    var d := JoinedDir(sh, t, a, b);
    assert Offset(sh, a, d) == b;
  }

  /** The direction of a join. */
  function JoinedDir(sh: Shape, t: seq<bv8>, a: Cell, b: Cell): (d: bv8)
    requires Fits(sh, t) && InGrid(sh, a) && Joined(sh, t, a, b)
    ensures IsDir(d) && JoinedBy(sh, t, a, b, d)
  {
    if JoinedBy(sh, t, a, b, R) then R
    else if JoinedBy(sh, t, a, b, U) then U
    else if JoinedBy(sh, t, a, b, L) then L
    else D
  }

  /** The parent of a connected tile other than the centre is connected, joined to it, and ranked lower. */
  lemma ParentStep(sh: Shape, t: seq<bv8>, rank: seq<nat>, parent: seq<bv8>, c: Cell)
    requires Fits(sh, t) && Fits(sh, rank) && Fits(sh, parent)
    requires Links(sh, t, rank) && Parents(sh, t, rank, parent)
    requires InGrid(sh, c) && At(sh, t, c) != 0 && c != Centre(sh)
    ensures var n := Offset(sh, c, At(sh, parent, c));
            && InGrid(sh, n) && At(sh, t, n) != 0
            && At(sh, rank, n) < At(sh, rank, c)
            && Joined(sh, t, c, n)
  {
    var e := At(sh, parent, c);
    var n := Offset(sh, c, e);
    FlipIsOpposite(e);
    assert Has(At(sh, t, n), F(e));
    assert JoinedBy(sh, t, c, n, e);
  }

  /** Following parent connectors from a connected tile reaches the centre. */
  lemma {:induction false} PathFrom(sh: Shape, t: seq<bv8>, rank: seq<nat>, parent: seq<bv8>, c: Cell)
    returns (path: seq<Cell>)
    requires Fits(sh, t) && Fits(sh, rank) && Fits(sh, parent)
    requires Links(sh, t, rank) && Parents(sh, t, rank, parent)
    requires InGrid(sh, c) && (At(sh, t, c) != 0 || c == Centre(sh))
    ensures |path| > 0 && path[0] == c && path[|path| - 1] == Centre(sh)
    ensures forall i | 0 <= i < |path| :: InGrid(sh, path[i])
    ensures forall i | 0 <= i < |path| - 1 :: Joined(sh, t, path[i], path[i + 1])
    decreases At(sh, rank, c)
  {
    if c == Centre(sh) {
      path := [c];
    } else {
      var n := Offset(sh, c, At(sh, parent, c));
      ParentStep(sh, t, rank, parent, c);
      var rest := PathFrom(sh, t, rank, parent, n);
      path := [c] + rest;
      forall i | 0 <= i < |path| - 1
        ensures Joined(sh, t, path[i], path[i + 1])
      {
        if i > 0 {
          assert path[i] == rest[i - 1] && path[i + 1] == rest[i];
        }
      }
    }
  }

  /**
   * A tree of connectors: connectors match across every edge, no tile is a
   * full cross, the centre is connected, the connectors add up to twice
   * (connected tiles - 1), and there is no closed loop.
   */
  ghost predicate IsTree(sh: Shape, t: seq<bv8>)
    requires Fits(sh, t)
  {
    && (forall c, d | InGrid(sh, c) && IsDir(d) && Has(At(sh, t, c), d) :: Has(At(sh, t, Offset(sh, c, d)), F(d)))
    && (forall c | InGrid(sh, c) :: IsMask(At(sh, t, c)) && Count(At(sh, t, c)) <= 3 && At(sh, t, c) != 0x0F)
    && At(sh, t, Centre(sh)) != 0
    && SumCount(t) == 2 * (Filled(t) - 1)
    && (forall cyc :: !IsCycle(sh, t, cyc))
  }

  /** The connector graph the growth loop builds is a tree. */
  lemma GrownIsTree(sh: Shape, draw: seq<nat> -> nat)
    requires ValidShape(sh)
    ensures IsTree(sh, Grown(sh, draw))
  {
    var g, rank, parent := GrownInv(sh, draw);
    FinalTreeFacts(sh, g, rank, parent);
  }

  /** The growth loop's result with the rank and parent maps that witness its invariant. */
  lemma GrownInv(sh: Shape, draw: seq<nat> -> nat) returns (g: Growth, rank: seq<nat>, parent: seq<bv8>)
    requires ValidShape(sh)
    ensures TreeInv(sh, g, rank, parent) && |g.poss| == 0 && g.tiles == Grown(sh, draw)
  {
    StartInv(sh);
    var r0, p0 := StartTree(sh);
    rank, parent := GrowKeepsTree(sh, draw, Start(sh), r0, p0);
    g := Grow(sh, draw, Start(sh));
  }

  /** What the tree invariant gives once no possibility is left. */
  lemma FinalTreeFacts(sh: Shape, g: Growth, rank: seq<nat>, parent: seq<bv8>)
    requires TreeInv(sh, g, rank, parent) && |g.poss| == 0
    ensures IsTree(sh, g.tiles)
  {
    var t := g.tiles;
    forall cyc {
      NoCycle(sh, t, rank, parent, cyc);
    }
  }

  /** Every tile the growth loop connects is joined to the centre by a path of connectors. */
  lemma GrownReachesCentre(sh: Shape, draw: seq<nat> -> nat, c: Cell) returns (path: seq<Cell>)
    requires ValidShape(sh) && InGrid(sh, c) && At(sh, Grown(sh, draw), c) != 0
    ensures |path| > 0 && path[0] == c && path[|path| - 1] == Centre(sh)
    ensures forall i | 0 <= i < |path| :: InGrid(sh, path[i])
    ensures forall i | 0 <= i < |path| - 1 :: Joined(sh, Grown(sh, draw), path[i], path[i + 1])
  {
    var g, rank, parent := GrownInv(sh, draw);
    path := PathFrom(sh, g.tiles, rank, parent, c);
  }
}
