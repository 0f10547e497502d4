/**
 * The spanning-tree growth of new_game (net.c:202-322) as functions on
 * values: the state of the loop, one iteration of it, and the whole loop.
 * The imperative loop in module Generator is proved to compute `Grow`.
 */
module Growth {
  import opened Wrappers
  import opened Directions
  import opened Grid
  import opened Xyd
  import opened Tree234
  import opened Random

  /** The tile a possibility extends from. */
  function Src(p: Xyd): Cell {
    Cell(p.x, p.y)
  }

  /** The tile a possibility extends into. */
  function Target(sh: Shape, p: Xyd): Cell
    requires ValidShape(sh)
  {
    Offset(sh, Src(p), p.direction)
  }

  /**
   * A tile already in the tree: it has a connector, or it is the centre,
   * which the first iteration extends while it is still blank.
   */
  predicate Connected(sh: Shape, t: seq<bv8>, c: Cell)
    requires Fits(sh, t) && InGrid(sh, c)
  {
    At(sh, t, c) != 0 || c == Centre(sh)
  }

  /** The variables of the growth loop: tiles, the possibilities tree, the random state. */
  datatype Growth = Growth(tiles: seq<bv8>, poss: seq<Xyd>, history: seq<nat>)

  /** A pending possibility leads from a tree tile into a blank tile that is not the centre. */
  predicate PendingOk(sh: Shape, t: seq<bv8>, p: Xyd)
    requires Fits(sh, t)
  {
    && InGrid(sh, Src(p))
    && IsDir(p.direction)
    && Connected(sh, t, Src(p))
    && At(sh, t, Target(sh, p)) == 0
    && Target(sh, p) != Centre(sh)
  }

  /** What the growth loop keeps true, and what its termination rests on. */
  predicate GrowInv(sh: Shape, g: Growth) {
    && Fits(sh, g.tiles)
    && Sorted(g.poss)
    && (forall p | p in g.poss :: PendingOk(sh, g.tiles, p))
    && (At(sh, g.tiles, Centre(sh)) == 0 ==>
          |g.poss| > 0 && forall i | 0 <= i < |g.tiles| :: g.tiles[i] == 0)
  }

  /** Number of blank tiles: the loop variant. */
  function ZeroCount(s: seq<bv8>): (r: nat)
    ensures r <= |s|
  {
    if s == [] then 0 else (if s[0] == 0 then 1 else 0) + ZeroCount(s[1..])
  }

  /** The four possibilities out of the centre (net.c:202-206). */
  function StartPoss(sh: Shape): seq<Xyd> {
    var c := Centre(sh);
    Add(Add(Add(Add([], Xyd(c.x, c.y, R)), Xyd(c.x, c.y, U)), Xyd(c.x, c.y, L)), Xyd(c.x, c.y, D))
  }

  /** The loop's state on entry: blank tiles, four possibilities, a fresh random state. */
  function Start(sh: Shape): Growth
    requires ValidShape(sh)
  {
    Growth(Zeros(sh.width * sh.height), StartPoss(sh), [])
  }

  /** The possibility the iteration extracts: rank random_upto(rs, count) (net.c:216-220). */
  function Picked(sh: Shape, draw: seq<nat> -> nat, g: Growth): (p: Xyd)
    requires GrowInv(sh, g) && |g.poss| > 0
    ensures p in g.poss && PendingOk(sh, g.tiles, p)
  {
    g.poss[Draw(draw, g.history, |g.poss|)]
  }

  /** The two tile writes that make the connection (net.c:223-236). */
  function Connect(sh: Shape, t: seq<bv8>, p: Xyd): (r: seq<bv8>)
    requires Fits(sh, t) && InGrid(sh, Src(p))
    ensures Fits(sh, r)
    ensures At(sh, r, Src(p)) & p.direction == p.direction
    ensures At(sh, r, Target(sh, p)) & F(p.direction) == F(p.direction)
    ensures forall c | InGrid(sh, c) && c != Src(p) && c != Target(sh, p) :: At(sh, r, c) == At(sh, t, c)
  {
    OrAt(sh, OrAt(sh, t, Src(p), p.direction), Offset(sh, Src(p), p.direction), F(p.direction))
  }

  /** A tile with three connectors loses its fourth possibility (net.c:242-259). */
  function TPiece(sh: Shape, t: seq<bv8>, poss: seq<Xyd>, c1: Cell): (r: seq<Xyd>)
    requires Fits(sh, t) && InGrid(sh, c1) && Sorted(poss)
    ensures Sorted(r)
    ensures forall z :: z in r <==>
              z in poss && !(Count(At(sh, t, c1)) == 3 && z == Xyd(c1.x, c1.y, 0x0F ^ At(sh, t, c1)))
  {
    if Count(At(sh, t, c1)) == 3 then
      var key := Xyd(c1.x, c1.y, 0x0F ^ At(sh, t, c1));
      if Find(poss, key) then Del(poss, key) else poss
    else poss
  }

  /** The direction loop `for (d = 1; d < 0x10; d <<= 1)` visits 1, 2, 4, 8, then stops at 16. */
  predicate LoopDir(d: bv8) {
    d == 1 || d == 2 || d == 4 || d == 8 || d == 16
  }

  /** The possibility that enters c2 from the side d: (OFFSET(c2, d), F(d)). */
  function Entering(sh: Shape, c2: Cell, d: bv8): Xyd
    requires ValidShape(sh)
  {
    var c3 := Offset(sh, c2, d);
    Xyd(c3.x, c3.y, F(d))
  }

  /** Loop avoidance: remove every possibility pointing at c2, for the directions from d on (net.c:265-286). */
  function AvoidLoops(sh: Shape, poss: seq<Xyd>, c2: Cell, d: bv8): (r: seq<Xyd>)
    requires ValidShape(sh) && LoopDir(d) && Sorted(poss)
    ensures Sorted(r)
    decreases 16 - d as int
  {
    if d == 0x10 then poss
    else
      var key := Entering(sh, c2, d);
      AvoidLoops(sh, if Find(poss, key) then Del(poss, key) else poss, c2, d << 1)
  }

  /** Does leaving c in direction d cross the outer edge of the grid? */
  predicate AtBorder(sh: Shape, c: Cell, d: bv8) {
    || (d == U && c.y == 0)
    || (d == D && c.y == sh.height - 1)
    || (d == L && c.x == 0)
    || (d == R && c.x == sh.width - 1)
  }

  /** New frontier: possibilities out of c2, for the directions from d on (net.c:292-319). */
  function AddFrontier(sh: Shape, t: seq<bv8>, poss: seq<Xyd>, c2: Cell, d2: bv8, d: bv8): (r: seq<Xyd>)
    requires Fits(sh, t) && InGrid(sh, c2) && LoopDir(d) && Sorted(poss)
    ensures Sorted(r)
    decreases 16 - d as int
  {
    if d == 0x10 then poss
    else if d == d2 then AddFrontier(sh, t, poss, c2, d2, d << 1)
    else if !sh.wrapping && AtBorder(sh, c2, d) then AddFrontier(sh, t, poss, c2, d2, d << 1)
    else if At(sh, t, Offset(sh, c2, d)) != 0 then AddFrontier(sh, t, poss, c2, d2, d << 1)
    else AddFrontier(sh, t, Add(poss, Xyd(c2.x, c2.y, d)), c2, d2, d << 1)
  }

  /** One iteration of the growth loop (net.c:209-319). */
  function GrowStep(sh: Shape, draw: seq<nat> -> nat, g: Growth): (r: Growth)
    requires GrowInv(sh, g) && |g.poss| > 0
    ensures Fits(sh, r.tiles)
    ensures r.history == g.history + [|g.poss|]
    ensures var p := Picked(sh, draw, g);
            && Has(At(sh, r.tiles, Src(p)), p.direction)
            && Has(At(sh, r.tiles, Target(sh, p)), F(p.direction))
            && forall c | InGrid(sh, c) && c != Src(p) && c != Target(sh, p) :: At(sh, r.tiles, c) == At(sh, g.tiles, c)
  {
    FlipIsOpposite(Picked(sh, draw, g).direction);
    var i := Draw(draw, g.history, |g.poss|);
    var rest := DelPos(g.poss, i).1;
    var p := Picked(sh, draw, g);
    var c1 := Src(p);
    var c2 := Offset(sh, c1, p.direction);
    var t := Connect(sh, g.tiles, p);
    var poss1 := TPiece(sh, t, rest, c1);
    var poss2 := AvoidLoops(sh, poss1, c2, 1);
    var poss3 := AddFrontier(sh, t, poss2, c2, F(p.direction), 1);
    Growth(t, poss3, g.history + [|g.poss|])
  }

  /** The whole growth loop: iterate until no possibility remains (net.c:208-322). */
  function Grow(sh: Shape, draw: seq<nat> -> nat, g: Growth): (r: Growth)
    requires GrowInv(sh, g)
    ensures GrowInv(sh, r) && r.poss == []
    decreases ZeroCount(g.tiles)
  {
    if |g.poss| == 0 then g
    else
      GrowStepKeepsInv(sh, draw, g);
      Grow(sh, draw, GrowStep(sh, draw, g))
  }

  // ---------------------------------------------------------------------
  // Membership of the possibility tree through one iteration.

  lemma {:induction false} AvoidLoopsMembers(sh: Shape, poss: seq<Xyd>, c2: Cell, d: bv8)
    requires ValidShape(sh) && LoopDir(d) && Sorted(poss)
    ensures forall z :: z in AvoidLoops(sh, poss, c2, d) <==> z in poss && !Entered(sh, z, c2, d)
    decreases 16 - d as int
  {
    if d != 0x10 {
      var key := Entering(sh, c2, d);
      var next := if Find(poss, key) then Del(poss, key) else poss;
      AvoidLoopsMembers(sh, next, c2, d << 1);
    }
  }

  /** z is one of the possibilities entering c2 from a side d' >= d. */
  predicate Entered(sh: Shape, z: Xyd, c2: Cell, d: bv8)
    requires ValidShape(sh)
  {
    || (d <= R && z == Entering(sh, c2, R))
    || (d <= U && z == Entering(sh, c2, U))
    || (d <= L && z == Entering(sh, c2, L))
    || (d <= D && z == Entering(sh, c2, D))
  }

  /** The possibilities entering c2 are exactly those whose target is c2. */
  lemma EnteredIsTarget(sh: Shape, z: Xyd, c2: Cell)
    requires ValidShape(sh) && InGrid(sh, c2) && InGrid(sh, Src(z)) && IsDir(z.direction)
    ensures Entered(sh, z, c2, 1) <==> Target(sh, z) == c2
  {
    var e := F(z.direction);
    FlipIsOpposite(z.direction);
    if Target(sh, z) == c2 {
      OffsetRoundTrip(sh, Src(z), z.direction);
      assert z == Entering(sh, c2, e);
    }
    if Entered(sh, z, c2, 1) {
      forall d | IsDir(d) && z == Entering(sh, c2, d)
        ensures Target(sh, z) == c2
      {
        OffsetRoundTrip(sh, c2, d);
      }
    }
  }

  lemma {:induction false} AddFrontierMembers(sh: Shape, t: seq<bv8>, poss: seq<Xyd>, c2: Cell, d2: bv8, d: bv8)
    requires Fits(sh, t) && InGrid(sh, c2) && LoopDir(d) && Sorted(poss)
    ensures forall z :: z in AddFrontier(sh, t, poss, c2, d2, d) <==> z in poss || Frontier(sh, t, z, c2, d2, d)
    decreases 16 - d as int
  {
    if d != 0x10 {
      var next := if d == d2 || (!sh.wrapping && AtBorder(sh, c2, d)) || At(sh, t, Offset(sh, c2, d)) != 0
                  then poss else Add(poss, Xyd(c2.x, c2.y, d));
      AddFrontierMembers(sh, t, next, c2, d2, d << 1);
    }
  }

  /** z is a new frontier possibility out of c2, in a direction d' >= d. */
  predicate Frontier(sh: Shape, t: seq<bv8>, z: Xyd, c2: Cell, d2: bv8, d: bv8)
    requires Fits(sh, t) && InGrid(sh, c2)
  {
    && Src(z) == c2
    && IsDir(z.direction)
    && d <= z.direction
    && z.direction != d2
    && !(!sh.wrapping && AtBorder(sh, c2, z.direction))
    && At(sh, t, Offset(sh, c2, z.direction)) == 0
  }

  // ---------------------------------------------------------------------
  // Counting blank tiles.

  lemma {:induction false} ZeroCountUpdate(s: seq<bv8>, i: nat, v: bv8)
    requires i < |s|
    ensures ZeroCount(s[i := v]) == ZeroCount(s) - (if s[i] == 0 then 1 else 0) + (if v == 0 then 1 else 0)
  {
    if i > 0 {
      assert s[i := v][1..] == s[1..][i - 1 := v];
      ZeroCountUpdate(s[1..], i - 1, v);
    } else {
      assert s[i := v][1..] == s[1..];
    }
  }

  // ---------------------------------------------------------------------
  // One iteration keeps GrowInv and fills one more blank tile.

  /** Connecting along a pending possibility fills its blank target and touches nothing else. */
  lemma ConnectFacts(sh: Shape, t: seq<bv8>, p: Xyd)
    requires Fits(sh, t) && PendingOk(sh, t, p)
    requires At(sh, t, Centre(sh)) == 0 ==> Src(p) == Centre(sh)
    ensures Src(p) != Target(sh, p)
    ensures IsDir(F(p.direction))
    ensures At(sh, Connect(sh, t, p), Src(p)) == At(sh, t, Src(p)) | p.direction
    ensures At(sh, Connect(sh, t, p), Target(sh, p)) == F(p.direction)
    ensures forall c | InGrid(sh, c) && c != Src(p) && c != Target(sh, p) ::
              At(sh, Connect(sh, t, p), c) == At(sh, t, c)
    ensures forall c | InGrid(sh, c) && Connected(sh, t, c) :: At(sh, Connect(sh, t, p), c) != 0
    ensures Connect(sh, t, p) == t[Slot(sh, Src(p)) := At(sh, t, Src(p)) | p.direction]
                                  [Slot(sh, Target(sh, p)) := F(p.direction)]
    ensures ZeroCount(Connect(sh, t, p)) == ZeroCount(t) - 1 - (if At(sh, t, Src(p)) == 0 then 1 else 0)
  {
    ConnectWrites(sh, t, p);
    var v1 := At(sh, t, Src(p)) | p.direction;
    OrDirNonZero(At(sh, t, Src(p)), p.direction);
    ConnectShrinks(sh, t, p, v1);
  }

  /** Or-ing a direction into a byte sets that bit, so the result is never blank. */
  lemma OrDirNonZero(a: bv8, d: bv8)
    requires IsDir(d)
    ensures Has(a | d, d) && a | d != 0
  {
  }

  /** The two writes of Connect: the source gains the direction, the blank target gets the opposite one. */
  lemma ConnectWrites(sh: Shape, t: seq<bv8>, p: Xyd)
    requires Fits(sh, t) && PendingOk(sh, t, p)
    ensures Src(p) != Target(sh, p)
    ensures IsDir(F(p.direction))
    ensures Connect(sh, t, p) == Set(sh, Set(sh, t, Src(p), At(sh, t, Src(p)) | p.direction), Target(sh, p), F(p.direction))
  {
    var c1 := Src(p);
    var c2 := Target(sh, p);
    OffsetMoves(sh, c1, p.direction, p.direction);
    FlipIsOpposite(p.direction);
    var t1 := Set(sh, t, c1, At(sh, t, c1) | p.direction);
    assert At(sh, t1, c2) == 0;
    ZeroOr(F(p.direction));
  }

  lemma ZeroOr(a: bv8)
    ensures 0 | a == a
  {
  }

  /** Connect fills one blank tile, and a second one when the source was the blank centre. */
  lemma ConnectShrinks(sh: Shape, t: seq<bv8>, p: Xyd, v1: bv8)
    requires Fits(sh, t) && InGrid(sh, Src(p)) && IsDir(p.direction)
    requires v1 == At(sh, t, Src(p)) | p.direction && v1 != 0 && F(p.direction) != 0
    requires At(sh, t, Target(sh, p)) == 0 && Src(p) != Target(sh, p)
    ensures Connect(sh, t, p) == t[Slot(sh, Src(p)) := v1][Slot(sh, Target(sh, p)) := F(p.direction)]
    ensures ZeroCount(Connect(sh, t, p)) == ZeroCount(t) - 1 - (if At(sh, t, Src(p)) == 0 then 1 else 0)
  {
    var c1 := Src(p);
    var c2 := Target(sh, p);
    var t1 := Set(sh, t, c1, v1);
    assert Connect(sh, t, p) == t1[Slot(sh, c2) := F(p.direction)];
    ZeroCountUpdate(t, Slot(sh, c1), v1);
    ZeroCountUpdate(t1, Slot(sh, c2), F(p.direction));
  }

  /** A possibility that survives loop avoidance is still pending after the connection. */
  lemma SurvivorPending(sh: Shape, t: seq<bv8>, p: Xyd, z: Xyd)
    requires Fits(sh, t) && PendingOk(sh, t, p) && PendingOk(sh, t, z)
    requires At(sh, t, Centre(sh)) == 0 ==> Src(p) == Centre(sh)
    requires Target(sh, z) != Target(sh, p)
    ensures PendingOk(sh, Connect(sh, t, p), z)
  {
    ConnectFacts(sh, t, p);
    var c1 := Src(p);
    assert Target(sh, z) != c1 by {
      if At(sh, t, c1) == 0 {
        assert c1 == Centre(sh);
      }
    }
  }

  /** A frontier possibility out of the newly connected tile is pending. */
  lemma FrontierPending(sh: Shape, t: seq<bv8>, p: Xyd, z: Xyd)
    requires Fits(sh, t) && PendingOk(sh, t, p)
    requires At(sh, t, Centre(sh)) == 0 ==> Src(p) == Centre(sh)
    requires Frontier(sh, Connect(sh, t, p), z, Target(sh, p), F(p.direction), 1)
    ensures PendingOk(sh, Connect(sh, t, p), z)
  {
    ConnectFacts(sh, t, p);
    var t' := Connect(sh, t, p);
    assert Connected(sh, t, Centre(sh));
    assert At(sh, t', Centre(sh)) != 0;
  }

  lemma GrowStepKeepsInv(sh: Shape, draw: seq<nat> -> nat, g: Growth)
    requires GrowInv(sh, g) && |g.poss| > 0
    ensures GrowInv(sh, GrowStep(sh, draw, g))
    ensures ZeroCount(GrowStep(sh, draw, g).tiles) < ZeroCount(g.tiles)
  {
    var i := Draw(draw, g.history, |g.poss|);
    var rest := DelPos(g.poss, i).1;
    var p := Picked(sh, draw, g);
    var c1 := Src(p);
    var c2 := Target(sh, p);
    var d2 := F(p.direction);
    var t := Connect(sh, g.tiles, p);
    var poss1 := TPiece(sh, t, rest, c1);
    var poss2 := AvoidLoops(sh, poss1, c2, 1);
    var poss3 := AddFrontier(sh, t, poss2, c2, d2, 1);
    assert GrowStep(sh, draw, g) == Growth(t, poss3, g.history + [|g.poss|]);
    if At(sh, g.tiles, Centre(sh)) == 0 {
      assert At(sh, g.tiles, c1) == g.tiles[Slot(sh, c1)] == 0;
    }
    ConnectFacts(sh, g.tiles, p);

    AvoidLoopsMembers(sh, poss1, c2, 1);
    AddFrontierMembers(sh, t, poss2, c2, d2, 1);
    forall z | z in poss3
      ensures PendingOk(sh, t, z)
    {
      if z in poss2 {
        assert z in g.poss;
        EnteredIsTarget(sh, z, c2);
        SurvivorPending(sh, g.tiles, p, z);
      } else {
        FrontierPending(sh, g.tiles, p, z);
      }
    }
  }
}
