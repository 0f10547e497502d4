/**
 * make_move (net.c:498-583): a mouse click either is refused (null) or
 * yields a fresh copy of the state with one tile locked/unlocked or
 * turned a quarter turn, and with `completed` raised once every tile is
 * reachable from the centre.
 */
module Move {
  import opened Wrappers
  import opened Directions
  import opened Grid
  import opened State
  import opened Active

  /** Pixel geometry of the playing area (net.c:36-38). */
  const TileSize: int := 32
  const TileBorder: int := 1
  const WindowOffset: int := 16

  /** The three mouse buttons make_move accepts; every other button code is Other. */
  datatype Button = LeftButton | MiddleButton | RightButton | OtherButton

  /** Pixel p lies in the drawn square of tile column (or row) i: not in the 1-pixel gap after it. */
  predicate InSquare(i: int, p: int) {
    WindowOffset + TileSize * i <= p < WindowOffset + TileSize * i + (TileSize - TileBorder)
  }

  /** Pixel p lies in the 32-pixel slot of tile column (or row) i, gap included. */
  predicate InSlot(i: int, p: int) {
    WindowOffset + TileSize * i <= p < WindowOffset + TileSize * (i + 1)
  }

  /**
   * The tile a click lands on, as written (net.c:513-524): the margin test
   * takes the remainder of the tile index tx rather than of the pixel x.
   */
  function ClickedTileAsWritten(sh: Shape, px: int, py: int): (r: Option<Cell>)
    ensures r.Some? ==> InGrid(sh, r.value)
  {
    var x, y := px - WindowOffset, py - WindowOffset;
    if x < 0 || y < 0 then None
    else
      var tx, ty := x / TileSize, y / TileSize;
      if tx >= sh.width || ty >= sh.height then None
      else if tx % TileSize >= TileSize - TileBorder || ty % TileSize >= TileSize - TileBorder then None
      else Some(Cell(tx, ty))
  }

  /** The tile a click lands on, with the margin test on the pixel remainders. */
  function ClickedTile(sh: Shape, px: int, py: int): (r: Option<Cell>)
    ensures r.Some? ==> InGrid(sh, r.value)
  {
    var x, y := px - WindowOffset, py - WindowOffset;
    if x < 0 || y < 0 then None
    else
      var tx, ty := x / TileSize, y / TileSize;
      if tx >= sh.width || ty >= sh.height then None
      else if x % TileSize >= TileSize - TileBorder || y % TileSize >= TileSize - TileBorder then None
      else Some(Cell(tx, ty))
  }

  lemma DivSlot(p: int, i: int)
    requires p >= WindowOffset && i >= 0
    ensures (p - WindowOffset) / TileSize == i <==> InSlot(i, p)
    ensures (p - WindowOffset) / TileSize == i ==> ((p - WindowOffset) % TileSize < TileSize - TileBorder <==> InSquare(i, p))
  {
    var x := p - WindowOffset;
    var q, m := x / TileSize, x % TileSize;
    assert x == TileSize * q + m;
  }

  /** A click is taken exactly when it is inside the drawn square of an in-grid tile. */
  lemma ClickedTileIsSquare(sh: Shape, px: int, py: int, c: Cell)
    ensures ClickedTile(sh, px, py) == Some(c) <==> InGrid(sh, c) && InSquare(c.x, px) && InSquare(c.y, py)
  {
    if InGrid(sh, c) && InSquare(c.x, px) && InSquare(c.y, py) {
      DivSlot(px, c.x);
      DivSlot(py, c.y);
    }
    if ClickedTile(sh, px, py) == Some(c) {
      DivSlot(px, c.x);
      DivSlot(py, c.y);
    }
  }

  /**
   * As written, a click is taken exactly when it is inside the 32-pixel
   * slot of an in-grid tile, gap included, and neither coordinate of that
   * tile leaves remainder 31 modulo 32.
   */
  lemma ClickedTileAsWrittenIsSlot(sh: Shape, px: int, py: int, c: Cell)
    ensures ClickedTileAsWritten(sh, px, py) == Some(c) <==>
              && InGrid(sh, c) && InSlot(c.x, px) && InSlot(c.y, py)
              && c.x % TileSize < TileSize - TileBorder && c.y % TileSize < TileSize - TileBorder
  {
    if InGrid(sh, c) && InSlot(c.x, px) && InSlot(c.y, py) {
      DivSlot(px, c.x);
      DivSlot(py, c.y);
    }
    if ClickedTileAsWritten(sh, px, py) == Some(c) {
      DivSlot(px, c.x);
      DivSlot(py, c.y);
    }
  }

  /**
   * So on grids narrower and shorter than 31 tiles the margin test never
   * refuses anything: a click anywhere in a tile's slot selects that tile.
   */
  lemma ClickedTileAsWrittenIgnoresGap(sh: Shape, px: int, py: int, c: Cell)
    requires sh.width < TileSize - TileBorder && sh.height < TileSize - TileBorder
    ensures ClickedTileAsWritten(sh, px, py) == Some(c) <==> InGrid(sh, c) && InSlot(c.x, px) && InSlot(c.y, py)
  {
    ClickedTileAsWrittenIsSlot(sh, px, py, c);
  }

  /**
   * Two clicks on which the two margin tests disagree: the last pixel
   * column of tile (0, 0) is taken as written, and the interior of
   * column 31 of a 32-wide grid is refused as written.
   */
  lemma MarginTestCounterexamples()
    ensures ClickedTileAsWritten(Shape(3, 3, false), 47, 20) == Some(Cell(0, 0))
    ensures ClickedTile(Shape(3, 3, false), 47, 20) == None
    ensures ClickedTileAsWritten(Shape(32, 3, false), 1013, 20) == None
    ensures ClickedTile(Shape(32, 3, false), 1013, 20) == Some(Cell(31, 0))
  {
    ClickedTileIsSquare(Shape(32, 3, false), 1013, 20, Cell(31, 0));
  }

  /** Every cell is reachable from the centre: what the completion loop tests. */
  ghost predicate AllReachable(sh: Shape, t: seq<bv8>, b: seq<bv8>)
    requires Fits(sh, t) && Fits(sh, b)
  {
    forall c | InGrid(sh, c) :: Reachable(sh, t, b, c)
  }

  /**
   * The effect of make_move on the tiles and the completed flag, or None
   * when the click is refused.
   */
  ghost function Move(sh: Shape, t: seq<bv8>, b: seq<bv8>, completed: bool, px: int, py: int, button: Button)
    : (r: Option<(seq<bv8>, bool)>)
    requires Fits(sh, t) && Fits(sh, b)
    ensures r.Some? ==> Fits(sh, r.value.0)
    ensures r.Some? ==> !button.OtherButton? && ClickedTileAsWritten(sh, px, py).Some? && (completed ==> r.value.1)
  {
    if button.OtherButton? then None
    else match ClickedTileAsWritten(sh, px, py)
      case None => None
      case Some(c) =>
        if button.MiddleButton? then Some((Set(sh, t, c, At(sh, t, c) ^ LOCKED), completed))
        else if Has(At(sh, t, c), LOCKED) then None
        else
          var orig := At(sh, t, c);
          var t' := Set(sh, t, c, if button.LeftButton? then A(orig) else C(orig));
          Some((t', completed || AllReachable(sh, t', b)))
  }

  /**
   * The completion scan (net.c:564-574): columns outer, rows inner, stopping
   * at the first inactive tile.
   */
  method AllActive(sh: Shape, active: array<bv8>) returns (complete: bool)
    requires Fits(sh, active[..])
    ensures complete <==> forall c | InGrid(sh, c) :: At(sh, active[..], c) != 0
  {
    var x1 := 0;
    while x1 < sh.width
      invariant 0 <= x1 <= sh.width
      invariant forall c | InGrid(sh, c) && c.x < x1 :: At(sh, active[..], c) != 0
    {
      var y1 := 0;
      while y1 < sh.height
        invariant 0 <= y1 <= sh.height
        invariant forall c | InGrid(sh, c) && (c.x < x1 || (c.x == x1 && c.y < y1)) :: At(sh, active[..], c) != 0
      {
        if active[Slot(sh, Cell(x1, y1))] == 0 {
          return false;
        }
        y1 := y1 + 1;
      }
      x1 := x1 + 1;
    }
    return true;
  }

  /** The middle-button branch (net.c:536-540): a copy with LOCKED toggled on tile c. */
  method ToggleLock(state: GameState, c: Cell) returns (ret: GameState)
    requires state.Valid() && InGrid(state.Dims(), c)
    ensures fresh(ret) && fresh(ret.tiles) && fresh(ret.barriers) && ret.Valid()
    ensures ret.Dims() == state.Dims() && ret.barriers[..] == state.barriers[..] && ret.completed == state.completed
    ensures ret.tiles[..] == Set(state.Dims(), state.tiles[..], c, At(state.Dims(), state.tiles[..], c) ^ LOCKED)
  {
    var i := Slot(state.Dims(), c);
    ret := DupGame(state);
    ret.tiles[i] := ret.tiles[i] ^ LOCKED;
  }

  /**
   * The turning branch (net.c:553-580): a copy with tile c turned
   * anticlockwise (left) or clockwise (right), completed raised when the
   * scan finds every tile active.
   */
  method TurnTile(state: GameState, c: Cell, left: bool) returns (ret: GameState)
    requires state.Valid() && InGrid(state.Dims(), c)
    ensures fresh(ret) && fresh(ret.tiles) && fresh(ret.barriers) && ret.Valid()
    ensures ret.Dims() == state.Dims() && ret.barriers[..] == state.barriers[..]
    ensures var orig := At(state.Dims(), state.tiles[..], c);
            ret.tiles[..] == Set(state.Dims(), state.tiles[..], c, if left then A(orig) else C(orig))
    ensures ret.completed == (state.completed || AllReachable(state.Dims(), ret.tiles[..], state.barriers[..]))
  {
    ret := TurnedCopy(state, c, left);
    ghost var t1 := ret.tiles[..];
    var complete := IsComplete(ret);
    if complete {
      ret.completed := true;
    }
    assert ret.tiles[..] == t1;
  }

  /** dup_game, then `tile(ret, tx, ty) = A(orig)` or `C(orig)` (net.c:553-561). */
  method TurnedCopy(state: GameState, c: Cell, left: bool) returns (ret: GameState)
    requires state.Valid() && InGrid(state.Dims(), c)
    ensures fresh(ret) && fresh(ret.tiles) && fresh(ret.barriers) && ret.Valid()
    ensures ret.Dims() == state.Dims() && ret.barriers[..] == state.barriers[..] && ret.completed == state.completed
    ensures var orig := At(state.Dims(), state.tiles[..], c);
            ret.tiles[..] == Set(state.Dims(), state.tiles[..], c, if left then A(orig) else C(orig))
  {
    var i := Slot(state.Dims(), c);
    ret := DupGame(state);
    var orig := ret.tiles[i];
    if left {
      ret.tiles[i] := A(orig);
    } else {
      ret.tiles[i] := C(orig);
    }
  }

  /**
   * The completion check after a turn (net.c:565-580): compute_active,
   * then the scan for an inactive tile.
   */
  method IsComplete(state: GameState) returns (complete: bool)
    requires state.Valid()
    ensures complete <==> AllReachable(state.Dims(), state.tiles[..], state.barriers[..])
  {
    var sh := state.Dims();
    var active := ComputeActive(state);
    complete := AllActive(sh, active);
    if !complete {
      var c :| InGrid(sh, c) && At(sh, active[..], c) == 0;
    }
  }

  /**
   * make_move (with the margin test as written): null for a refused click, otherwise a fresh state whose
   * tiles and completed flag are those Move gives. The input state is not
   * changed (nothing is modified).
   */
  method MakeMove(state: GameState, px: int, py: int, button: Button) returns (ret: GameState?)
    requires state.Valid()
    ensures ret == null <==> Move(state.Dims(), state.tiles[..], state.barriers[..], state.completed, px, py, button).None?
    ensures ret != null ==>
              && fresh(ret) && fresh(ret.tiles) && fresh(ret.barriers) && ret.Valid()
              && ret.Dims() == state.Dims() && ret.barriers[..] == state.barriers[..]
              && Move(state.Dims(), state.tiles[..], state.barriers[..], state.completed, px, py, button)
                 == Some((ret.tiles[..], ret.completed))
  {
    if button.OtherButton? {
      return null;
    }
    var clicked := ClickedTileAsWritten(state.Dims(), px, py);
    if clicked.None? {
      return null;
    }
    var c := clicked.value;
    if button.MiddleButton? {
      ret := ToggleLock(state, c);
      return;
    }
    if state.tiles[Slot(state.Dims(), c)] & LOCKED != 0 {
      return null;
    }
    ret := TurnTile(state, c, button.LeftButton?);
  }

  // ---------------------------------------------------------------------
  // Properties of a move.

  /**
   * A taken move changes only the clicked tile, keeps its connector count,
   * never clears completed, and sets it after a turn exactly when every
   * tile becomes reachable; a middle click only toggles LOCKED.
   */
  lemma MoveEffect(sh: Shape, t: seq<bv8>, b: seq<bv8>, completed: bool, px: int, py: int, button: Button,
                   t': seq<bv8>, completed': bool)
    requires Fits(sh, t) && Fits(sh, b)
    requires Move(sh, t, b, completed, px, py, button) == Some((t', completed'))
    ensures ClickedTileAsWritten(sh, px, py).Some? && !button.OtherButton?
    ensures var c := ClickedTileAsWritten(sh, px, py).value;
            && (forall c' | InGrid(sh, c') && c' != c :: At(sh, t', c') == At(sh, t, c'))
            && Count(At(sh, t', c)) == Count(At(sh, t, c))
            && (button.MiddleButton? ==> At(sh, t', c) == At(sh, t, c) ^ LOCKED && completed' == completed)
            && (button.LeftButton? ==> At(sh, t', c) == A(At(sh, t, c)))
            && (button.RightButton? ==> At(sh, t', c) == C(At(sh, t, c)))
            && (!button.MiddleButton? ==> !Has(At(sh, t, c), LOCKED) && completed' == (completed || AllReachable(sh, t', b)))
    ensures completed ==> completed'
  {
    var c := ClickedTileAsWritten(sh, px, py).value;
    RotationKeepsCount(At(sh, t, c), 0);
  }

  /** A left or right click on a locked tile is refused; a middle click never is, on a tile. */
  lemma LockedRefusesTurns(sh: Shape, t: seq<bv8>, b: seq<bv8>, completed: bool, px: int, py: int, c: Cell)
    requires Fits(sh, t) && Fits(sh, b)
    requires ClickedTileAsWritten(sh, px, py) == Some(c)
    ensures Has(At(sh, t, c), LOCKED) <==> Move(sh, t, b, completed, px, py, LeftButton).None?
    ensures Has(At(sh, t, c), LOCKED) <==> Move(sh, t, b, completed, px, py, RightButton).None?
    ensures Move(sh, t, b, completed, px, py, MiddleButton).Some?
  {
  }

  /** Two middle clicks on the same spot restore the tiles and the flag. */
  lemma LockTwiceRestores(sh: Shape, t: seq<bv8>, b: seq<bv8>, completed: bool, px: int, py: int)
    requires Fits(sh, t) && Fits(sh, b)
    requires Move(sh, t, b, completed, px, py, MiddleButton).Some?
    ensures var (t1, done1) := Move(sh, t, b, completed, px, py, MiddleButton).value;
            Move(sh, t1, b, done1, px, py, MiddleButton) == Some((t, completed))
  {
    var c := ClickedTileAsWritten(sh, px, py).value;
    var t1 := Move(sh, t, b, completed, px, py, MiddleButton).value.0;
    assert At(sh, t1, c) ^ LOCKED == At(sh, t, c);
    SameCells(sh, Set(sh, t1, c, At(sh, t1, c) ^ LOCKED), t);
  }

  /** Locking or unlocking a tile never changes which tiles are reachable. */
  lemma LockKeepsReachable(sh: Shape, t: seq<bv8>, b: seq<bv8>, completed: bool, px: int, py: int, c: Cell)
    requires Fits(sh, t) && Fits(sh, b)
    requires Move(sh, t, b, completed, px, py, MiddleButton).Some?
    ensures var t1 := Move(sh, t, b, completed, px, py, MiddleButton).value.0;
            Reachable(sh, t1, b, c) == Reachable(sh, t, b, c)
  {
    var t1 := Move(sh, t, b, completed, px, py, MiddleButton).value.0;
    ReachIgnoresLocked(sh, t1, t, b, c);
  }

  /**
   * A left click followed by a right click on the same spot (or the other
   * way round) gives back the original tiles, for a tile that carries
   * connector bits and nothing else.
   */
  lemma TurnBackRestores(sh: Shape, t: seq<bv8>, b: seq<bv8>, completed: bool, px: int, py: int, first: Button, second: Button)
    requires Fits(sh, t) && Fits(sh, b)
    requires (first, second) == (LeftButton, RightButton) || (first, second) == (RightButton, LeftButton)
    requires ClickedTileAsWritten(sh, px, py).Some? && IsMask(At(sh, t, ClickedTileAsWritten(sh, px, py).value))
    ensures Move(sh, t, b, completed, px, py, first).Some?
    ensures var (t1, done1) := Move(sh, t, b, completed, px, py, first).value;
            Move(sh, t1, b, done1, px, py, second).Some? &&
            Move(sh, t1, b, done1, px, py, second).value.0 == t
  {
    var c := ClickedTileAsWritten(sh, px, py).value;
    var (t1, done1) := Move(sh, t, b, completed, px, py, first).value;
    RotationInverses(At(sh, t, c));
    assert !Has(At(sh, t1, c), LOCKED);
    var t2 := Move(sh, t1, b, done1, px, py, second).value.0;
    SameCells(sh, t2, t);
  }
}
