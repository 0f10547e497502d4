/**
 * compute_active (net.c:446-493): which tiles are reachable from the centre
 * over matched, unbarriered connector pairs. The source drains a `todo`
 * tree of cells, and for each cell looks at its four neighbours; a
 * neighbour is marked when both tiles point at each other, the source
 * side carries no barrier, and the neighbour is not yet marked.
 *
 * The centre starts in `todo` without being marked, so it becomes active
 * only when a walk of at least one link leads back to it.
 */
module Active {
  import opened Wrappers
  import opened Directions
  import opened Grid
  import opened Xyd
  import opened Tree234
  import opened Growth
  import opened State

  /**
   * The test inside the direction loop (net.c:479-482): c has connector d,
   * its d-neighbour has the opposite connector, and c has no barrier on
   * side d. The neighbour's own barrier bit is not consulted.
   */
  predicate Linked(sh: Shape, t: seq<bv8>, b: seq<bv8>, c: Cell, d: bv8)
    requires Fits(sh, t) && Fits(sh, b) && InGrid(sh, c)
    ensures Linked(sh, t, b, c, d) ==>
              var n := Offset(sh, c, d);
              InGrid(sh, n) && Offset(sh, n, F(d)) == c && Has(At(sh, t, n), F(d))
  {
    if IsDir(d) then
      OffsetRoundTrip(sh, c, d);
      Has(At(sh, t, c), d) && Has(At(sh, t, Offset(sh, c, d)), F(d)) && !Has(At(sh, b, c), d)
    else false
  }

  /** The cell reached from s by stepping along dirs in order. */
  function Walk(sh: Shape, s: Cell, dirs: seq<bv8>): (r: Cell)
    requires ValidShape(sh) && InGrid(sh, s)
    ensures InGrid(sh, r)
    decreases |dirs|
  {
    if dirs == [] then s else Offset(sh, Walk(sh, s, dirs[..|dirs| - 1]), dirs[|dirs| - 1])
  }

  /** Every step of dirs, taken from s, follows a link. */
  ghost predicate IsPath(sh: Shape, t: seq<bv8>, b: seq<bv8>, s: Cell, dirs: seq<bv8>)
    requires Fits(sh, t) && Fits(sh, b) && InGrid(sh, s)
    decreases |dirs|
  {
    dirs == [] ||
    (IsPath(sh, t, b, s, dirs[..|dirs| - 1]) && Linked(sh, t, b, Walk(sh, s, dirs[..|dirs| - 1]), dirs[|dirs| - 1]))
  }

  /** c is the end of a walk of one or more links from the centre. */
  ghost predicate Reachable(sh: Shape, t: seq<bv8>, b: seq<bv8>, c: Cell)
    requires Fits(sh, t) && Fits(sh, b)
    ensures Reachable(sh, t, b, c) ==> InGrid(sh, c)
  {
    exists dirs :: |dirs| > 0 && IsPath(sh, t, b, Centre(sh), dirs) && Walk(sh, Centre(sh), dirs) == c
  }

  /** One more link at the end of a path gives a path. */
  lemma PathExtend(sh: Shape, t: seq<bv8>, b: seq<bv8>, s: Cell, dirs: seq<bv8>, d: bv8)
    requires Fits(sh, t) && Fits(sh, b) && InGrid(sh, s)
    requires IsPath(sh, t, b, s, dirs) && Linked(sh, t, b, Walk(sh, s, dirs), d)
    ensures IsPath(sh, t, b, s, dirs + [d])
    ensures Walk(sh, s, dirs + [d]) == Offset(sh, Walk(sh, s, dirs), d)
  {
    assert (dirs + [d])[..|dirs|] == dirs;
  }

  /** A link out of the centre or out of a reachable cell leads to a reachable cell. */
  lemma ReachStep(sh: Shape, t: seq<bv8>, b: seq<bv8>, c: Cell, d: bv8)
    requires Fits(sh, t) && Fits(sh, b) && InGrid(sh, c)
    requires c == Centre(sh) || Reachable(sh, t, b, c)
    requires Linked(sh, t, b, c, d)
    ensures Reachable(sh, t, b, Offset(sh, c, d))
  {
    var dirs: seq<bv8> := [];
    if c != Centre(sh) {
      dirs :| |dirs| > 0 && IsPath(sh, t, b, Centre(sh), dirs) && Walk(sh, Centre(sh), dirs) == c;
    }
    PathExtend(sh, t, b, Centre(sh), dirs, d);
  }

  /**
   * The reachable cells are exactly the cells one link away from the
   * centre or from a reachable cell.
   */
  lemma ReachableUnfold(sh: Shape, t: seq<bv8>, b: seq<bv8>, c: Cell)
    requires Fits(sh, t) && Fits(sh, b) && InGrid(sh, c)
    ensures Reachable(sh, t, b, c) <==>
            exists c0, d | InGrid(sh, c0) && (c0 == Centre(sh) || Reachable(sh, t, b, c0)) ::
              Linked(sh, t, b, c0, d) && Offset(sh, c0, d) == c
  {
    if Reachable(sh, t, b, c) {
      var c0, d := LastStep(sh, t, b, c);
    }
    if exists c0, d | InGrid(sh, c0) && (c0 == Centre(sh) || Reachable(sh, t, b, c0)) ::
         Linked(sh, t, b, c0, d) && Offset(sh, c0, d) == c {
      var c0, d :| InGrid(sh, c0) && (c0 == Centre(sh) || Reachable(sh, t, b, c0)) &&
                   Linked(sh, t, b, c0, d) && Offset(sh, c0, d) == c;
      ReachStep(sh, t, b, c0, d);
    }
  }

  /** The last link of a walk to a reachable cell, and where it starts. */
  lemma LastStep(sh: Shape, t: seq<bv8>, b: seq<bv8>, c: Cell) returns (c0: Cell, d: bv8)
    requires Fits(sh, t) && Fits(sh, b) && Reachable(sh, t, b, c)
    ensures InGrid(sh, c0) && (c0 == Centre(sh) || Reachable(sh, t, b, c0))
    ensures Linked(sh, t, b, c0, d) && Offset(sh, c0, d) == c
  {
    var dirs :| |dirs| > 0 && IsPath(sh, t, b, Centre(sh), dirs) && Walk(sh, Centre(sh), dirs) == c;
    var init := dirs[..|dirs| - 1];
    c0, d := Walk(sh, Centre(sh), init), dirs[|dirs| - 1];
    if init != [] {
      assert Reachable(sh, t, b, c0);
    }
  }

  /** The first step of a non-empty path follows a link out of its start. */
  lemma {:induction false} PathFirstStep(sh: Shape, t: seq<bv8>, b: seq<bv8>, s: Cell, dirs: seq<bv8>)
    requires Fits(sh, t) && Fits(sh, b) && InGrid(sh, s)
    requires |dirs| > 0 && IsPath(sh, t, b, s, dirs)
    ensures Linked(sh, t, b, s, dirs[0])
    decreases |dirs|
  {
    var init := dirs[..|dirs| - 1];
    if |init| > 0 {
      PathFirstStep(sh, t, b, s, init);
      assert init[0] == dirs[0];
    }
  }

  /**
   * A centre tile with no connector reaches nothing; in particular the
   * centre itself is not active, since it is never marked on its own.
   */
  lemma BlankCentreReachesNothing(sh: Shape, t: seq<bv8>, b: seq<bv8>, c: Cell)
    requires Fits(sh, t) && Fits(sh, b)
    requires At(sh, t, Centre(sh)) & 0x0F == 0
    ensures !Reachable(sh, t, b, c)
  {
    if Reachable(sh, t, b, c) {
      var dirs :| |dirs| > 0 && IsPath(sh, t, b, Centre(sh), dirs) && Walk(sh, Centre(sh), dirs) == c;
      PathFirstStep(sh, t, b, Centre(sh), dirs);
      assert false;
    }
  }

  // ---------------------------------------------------------------------
  // LOCKED never matters: links look only at the four connector bits.

  /** Two tile arrays that agree on every tile's connector bits. */
  ghost predicate SameConnectors(sh: Shape, t1: seq<bv8>, t2: seq<bv8>)
    requires Fits(sh, t1) && Fits(sh, t2)
  {
    forall c | InGrid(sh, c) :: At(sh, t1, c) & 0x0F == At(sh, t2, c) & 0x0F
  }

  lemma HasLowBits(x: bv8, y: bv8, d: bv8)
    requires IsDir(d) && x & 0x0F == y & 0x0F
    ensures Has(x, d) == Has(y, d)
  {
  }

  lemma {:induction false} PathIgnoresLocked(sh: Shape, t1: seq<bv8>, t2: seq<bv8>, b: seq<bv8>, s: Cell, dirs: seq<bv8>)
    requires Fits(sh, t1) && Fits(sh, t2) && Fits(sh, b) && InGrid(sh, s)
    requires SameConnectors(sh, t1, t2)
    ensures IsPath(sh, t1, b, s, dirs) == IsPath(sh, t2, b, s, dirs)
    decreases |dirs|
  {
    if dirs != [] {
      var init := dirs[..|dirs| - 1];
      var c, d := Walk(sh, s, init), dirs[|dirs| - 1];
      PathIgnoresLocked(sh, t1, t2, b, s, init);
      if IsDir(d) {
        HasLowBits(At(sh, t1, c), At(sh, t2, c), d);
        HasLowBits(At(sh, t1, Offset(sh, c, d)), At(sh, t2, Offset(sh, c, d)), F(d));
      }
      assert Linked(sh, t1, b, c, d) == Linked(sh, t2, b, c, d);
    }
  }

  /** Tiles that differ only in LOCKED (or other bits above the connectors) reach the same cells. */
  lemma ReachIgnoresLocked(sh: Shape, t1: seq<bv8>, t2: seq<bv8>, b: seq<bv8>, c: Cell)
    requires Fits(sh, t1) && Fits(sh, t2) && Fits(sh, b)
    requires SameConnectors(sh, t1, t2)
    ensures Reachable(sh, t1, b, c) == Reachable(sh, t2, b, c)
  {
    forall dirs {
      PathIgnoresLocked(sh, t1, t2, b, Centre(sh), dirs);
    }
  }

  // ---------------------------------------------------------------------
  // The fixpoint the loop reaches.

  /** The cells an active array marks (any non-zero entry). */
  predicate Marked(sh: Shape, a: seq<bv8>, c: Cell)
    requires Fits(sh, a) && InGrid(sh, c)
  {
    At(sh, a, c) != 0
  }

  /** Every link out of the centre or out of a marked cell ends at a marked cell. */
  ghost predicate Closed(sh: Shape, t: seq<bv8>, b: seq<bv8>, a: seq<bv8>)
    requires Fits(sh, t) && Fits(sh, b) && Fits(sh, a)
  {
    forall c, d | InGrid(sh, c) && (c == Centre(sh) || Marked(sh, a, c)) && Linked(sh, t, b, c, d) ::
      Marked(sh, a, Offset(sh, c, d))
  }

  lemma {:induction false} ClosedMarksPath(sh: Shape, t: seq<bv8>, b: seq<bv8>, a: seq<bv8>, dirs: seq<bv8>)
    requires Fits(sh, t) && Fits(sh, b) && Fits(sh, a) && Closed(sh, t, b, a)
    requires |dirs| > 0 && IsPath(sh, t, b, Centre(sh), dirs)
    ensures Marked(sh, a, Walk(sh, Centre(sh), dirs))
    decreases |dirs|
  {
    var init := dirs[..|dirs| - 1];
    if |init| > 0 {
      ClosedMarksPath(sh, t, b, a, init);
    }
    assert Linked(sh, t, b, Walk(sh, Centre(sh), init), dirs[|dirs| - 1]);
  }

  /** An array closed under links marks every reachable cell. */
  lemma ClosedMarksReachable(sh: Shape, t: seq<bv8>, b: seq<bv8>, a: seq<bv8>, c: Cell)
    requires Fits(sh, t) && Fits(sh, b) && Fits(sh, a) && Closed(sh, t, b, a)
    requires InGrid(sh, c) && Reachable(sh, t, b, c)
    ensures Marked(sh, a, c)
  {
    var dirs :| |dirs| > 0 && IsPath(sh, t, b, Centre(sh), dirs) && Walk(sh, Centre(sh), dirs) == c;
    ClosedMarksPath(sh, t, b, a, dirs);
  }

  // ---------------------------------------------------------------------
  // The direction loop for one cell (net.c:469-486).

  /** c is the d-neighbour of c1 and linked from it. */
  predicate Hit(sh: Shape, t: seq<bv8>, b: seq<bv8>, c1: Cell, c: Cell, d: bv8)
    requires Fits(sh, t) && Fits(sh, b) && InGrid(sh, c1)
  {
    Linked(sh, t, b, c1, d) && Offset(sh, c1, d) == c
  }

  /** c is linked from c1 by one of the directions below lim (d1 = 1, 2, 4, 8 in turn). */
  predicate HitBelow(sh: Shape, t: seq<bv8>, b: seq<bv8>, c1: Cell, c: Cell, lim: bv8)
    requires Fits(sh, t) && Fits(sh, b) && InGrid(sh, c1)
  {
    || (R < lim && Hit(sh, t, b, c1, c, R))
    || (U < lim && Hit(sh, t, b, c1, c, U))
    || (L < lim && Hit(sh, t, b, c1, c, L))
    || (D < lim && Hit(sh, t, b, c1, c, D))
  }

  /** Passing direction d1 adds exactly the cell it hits. */
  lemma HitBelowNext(sh: Shape, t: seq<bv8>, b: seq<bv8>, c1: Cell, d1: bv8)
    requires Fits(sh, t) && Fits(sh, b) && InGrid(sh, c1)
    requires d1 == R || d1 == U || d1 == L || d1 == D
    ensures forall c | InGrid(sh, c) ::
              HitBelow(sh, t, b, c1, c, d1 << 1) == (HitBelow(sh, t, b, c1, c, d1) || Hit(sh, t, b, c1, c, d1))
    ensures forall c | InGrid(sh, c) && c != Offset(sh, c1, d1) :: !Hit(sh, t, b, c1, c, d1)
  {
  }

  /** Entries are flags, 0 or 1. */
  ghost predicate Flags(sh: Shape, a: seq<bv8>)
    requires Fits(sh, a)
  {
    forall c | InGrid(sh, c) :: At(sh, a, c) == 0 || At(sh, a, c) == 1
  }

  /**
   * The body of the outer loop for the cell c1 just taken from todo: marks
   * each linked, unmarked neighbour and adds it to todo.
   */
  method VisitNeighbours(sh: Shape, tiles: array<bv8>, barriers: array<bv8>, active: array<bv8>,
                         todo: seq<Xyd>, c1: Cell) returns (todo': seq<Xyd>)
    requires Fits(sh, tiles[..]) && Fits(sh, barriers[..]) && Fits(sh, active[..]) && InGrid(sh, c1)
    requires active != tiles && active != barriers && Sorted(todo)
    modifies active
    ensures Sorted(todo')
    ensures forall c | InGrid(sh, c) :: At(sh, active[..], c) ==
              if Marked(sh, old(active[..]), c) then At(sh, old(active[..]), c)
              else if HitBelow(sh, tiles[..], barriers[..], c1, c, 0x10) then 1 else 0
    ensures forall z :: z in todo' <==>
              (|| z in todo
               || (z.direction == 0 && InGrid(sh, Cell(z.x, z.y)) &&
                   !Marked(sh, old(active[..]), Cell(z.x, z.y)) && Marked(sh, active[..], Cell(z.x, z.y))))
    ensures ZeroCount(active[..]) + |todo'| <= ZeroCount(old(active[..])) + |todo|
  {
    ghost var a0 := active[..];
    todo' := todo;
    var d1: bv8 := 1;
    while d1 < 0x10
      invariant d1 == 1 || d1 == 2 || d1 == 4 || d1 == 8 || d1 == 0x10
      invariant Fits(sh, active[..]) && Sorted(todo')
      invariant forall c | InGrid(sh, c) :: At(sh, active[..], c) ==
                  if Marked(sh, a0, c) then At(sh, a0, c)
                  else if HitBelow(sh, tiles[..], barriers[..], c1, c, d1) then 1 else 0
      invariant forall z :: z in todo' <==>
                  (|| z in todo
                   || (z.direction == 0 && InGrid(sh, Cell(z.x, z.y)) &&
                       !Marked(sh, a0, Cell(z.x, z.y)) && Marked(sh, active[..], Cell(z.x, z.y))))
      invariant ZeroCount(active[..]) + |todo'| <= ZeroCount(a0) + |todo|
      decreases 0x10 - d1 as int
    {
      var c2 := Offset(sh, c1, d1);
      var d2 := F(d1);
      var i1, i2 := Slot(sh, c1), Slot(sh, c2);
      HitBelowNext(sh, tiles[..], barriers[..], c1, d1);
      if tiles[i1] & d1 != 0 && tiles[i2] & d2 != 0 && barriers[i1] & d1 == 0 && active[i2] == 0 {
        ghost var before := active[..];
        ZeroCountUpdate(before, i2, 1);
        active[i2] := 1;
        assert active[..] == Set(sh, before, c2, 1);
        todo' := Add(todo', Xyd(c2.x, c2.y, 0));
      }
      d1 := d1 << 1;
    }
  }

  /**
   * compute_active: a fresh array with 1 on exactly the cells reachable
   * from the centre by one or more links, and 0 elsewhere.
   */
  method ComputeActive(state: GameState) returns (active: array<bv8>)
    requires state.Valid()
    ensures fresh(active)
    ensures Fits(state.Dims(), active[..])
    ensures forall c | InGrid(state.Dims(), c) :: At(state.Dims(), active[..], c) ==
              if Reachable(state.Dims(), state.tiles[..], state.barriers[..], c) then 1 else 0
  {
    var sh := state.Dims();
    var w, h := state.width, state.height;
    ghost var t, b := state.tiles[..], state.barriers[..];
    active := new bv8[w * h](_ => 0);
    var todo: seq<Xyd> := Add([], Xyd(w / 2, h / 2, 0));
    ghost var done: set<Cell> := {};
    while true
      invariant Fits(sh, active[..]) && Sorted(todo) && Flags(sh, active[..])
      invariant forall z | z in todo :: z.direction == 0 && InGrid(sh, Cell(z.x, z.y)) &&
                  (Cell(z.x, z.y) == Centre(sh) || Marked(sh, active[..], Cell(z.x, z.y)))
      invariant forall c | InGrid(sh, c) && Marked(sh, active[..], c) :: Reachable(sh, t, b, c)
      invariant forall c | InGrid(sh, c) && Marked(sh, active[..], c) :: c in done || Xyd(c.x, c.y, 0) in todo
      invariant Centre(sh) in done || Xyd(w / 2, h / 2, 0) in todo
      invariant forall c, d | c in done && InGrid(sh, c) && Linked(sh, t, b, c, d) :: Marked(sh, active[..], Offset(sh, c, d))
      invariant forall c | c in done :: InGrid(sh, c)
      decreases ZeroCount(active[..]) + |todo|
    {
      var next := DelPos(todo, 0);
      if next.0.None? {
        break;
      }
      var c1 := Cell(next.0.value.x, next.0.value.y);
      ghost var a0 := active[..];
      todo := VisitNeighbours(sh, state.tiles, state.barriers, active, next.1, c1);
      VisitKeepsInvariant(sh, t, b, a0, active[..], c1, done);
      done := done + {c1};
    }
    assert Closed(sh, t, b, active[..]);
    forall c | InGrid(sh, c)
      ensures At(sh, active[..], c) == if Reachable(sh, t, b, c) then 1 else 0
    {
      if Reachable(sh, t, b, c) {
        ClosedMarksReachable(sh, t, b, active[..], c);
      }
    }
  }

  /** What one visit of c1 does to the marks, as VisitNeighbours promises it. */
  ghost predicate Visited(sh: Shape, t: seq<bv8>, b: seq<bv8>, a0: seq<bv8>, a1: seq<bv8>, c1: Cell)
    requires Fits(sh, t) && Fits(sh, b) && Fits(sh, a0) && Fits(sh, a1) && InGrid(sh, c1)
  {
    forall c | InGrid(sh, c) :: At(sh, a1, c) ==
      if Marked(sh, a0, c) then At(sh, a0, c)
      else if HitBelow(sh, t, b, c1, c, 0x10) then 1 else 0
  }

  /** After a visit of c1 (the centre or a reachable cell) the marks stay flags, reachable and closed at c1. */
  lemma VisitKeepsInvariant(sh: Shape, t: seq<bv8>, b: seq<bv8>, a0: seq<bv8>, a1: seq<bv8>, c1: Cell, done: set<Cell>)
    requires Fits(sh, t) && Fits(sh, b) && Fits(sh, a0) && Fits(sh, a1) && InGrid(sh, c1)
    requires Visited(sh, t, b, a0, a1, c1)
    ensures Flags(sh, a0) ==> Flags(sh, a1)
    ensures forall c | InGrid(sh, c) && Marked(sh, a0, c) :: Marked(sh, a1, c)
    ensures (c1 == Centre(sh) || Reachable(sh, t, b, c1)) && (forall c | InGrid(sh, c) && Marked(sh, a0, c) :: Reachable(sh, t, b, c))
            ==> forall c | InGrid(sh, c) && Marked(sh, a1, c) :: Reachable(sh, t, b, c)
    ensures forall d | Linked(sh, t, b, c1, d) :: Marked(sh, a1, Offset(sh, c1, d))
  {
    forall d | Linked(sh, t, b, c1, d)
      ensures Marked(sh, a1, Offset(sh, c1, d))
    {
      assert HitBelow(sh, t, b, c1, Offset(sh, c1, d), 0x10);
    }
    if (c1 == Centre(sh) || Reachable(sh, t, b, c1)) && (forall c | InGrid(sh, c) && Marked(sh, a0, c) :: Reachable(sh, t, b, c)) {
      forall c | InGrid(sh, c) && Marked(sh, a1, c) && !Marked(sh, a0, c)
        ensures Reachable(sh, t, b, c)
      {
        assert HitBelow(sh, t, b, c1, c, 0x10);
        if Hit(sh, t, b, c1, c, R) {
          ReachStep(sh, t, b, c1, R);
        } else if Hit(sh, t, b, c1, c, U) {
          ReachStep(sh, t, b, c1, U);
        } else if Hit(sh, t, b, c1, c, L) {
          ReachStep(sh, t, b, c1, L);
        } else {
          ReachStep(sh, t, b, c1, D);
        }
      }
    }
  }
}
