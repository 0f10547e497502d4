/**
 * game_params and game_state (net.c:40-51), and dup_game (net.c:411-426).
 * A state owns two flat width*height byte arrays: the tiles (connector
 * bits and LOCKED) and the barriers (one bit per blocked side).
 */
module State {
  import opened Grid

  /**
   * game_params. The float barrier_probability is kept as an exact ratio
   * barrierNum / barrierDen.
   */
  datatype Params = Params(width: int, height: int, wrapping: bool, barrierNum: nat, barrierDen: nat)

  class GameState {
    const width: int
    const height: int
    const wrapping: bool
    var completed: bool
    const tiles: array<bv8>
    const barriers: array<bv8>

    function Dims(): Shape
      reads this
    {
      Shape(width, height, wrapping)
    }

    /** The two arrays have one byte per tile, and are distinct. */
    predicate Valid()
      reads this
    {
      && width > 2 && height > 2
      && tiles.Length == width * height
      && barriers.Length == width * height
      && tiles != barriers
    }

    /** snew(game_state) with freshly allocated zeroed arrays (net.c:131-140). */
    constructor (width: int, height: int, wrapping: bool)
      requires width > 2 && height > 2
      ensures Valid() && fresh(tiles) && fresh(barriers)
      ensures this.width == width && this.height == height && this.wrapping == wrapping
      ensures !completed
      ensures tiles[..] == Zeros(width * height) && barriers[..] == Zeros(width * height)
    {
      this.width := width;
      this.height := height;
      this.wrapping := wrapping;
      completed := false;
      tiles := new bv8[width * height](_ => 0);
      barriers := new bv8[width * height](_ => 0);
    }
  }

  /** dup_game: a fresh state with the same fields and copies of both arrays. */
  method DupGame(state: GameState) returns (ret: GameState)
    requires state.Valid()
    ensures fresh(ret) && fresh(ret.tiles) && fresh(ret.barriers) && ret.Valid()
    ensures ret.Dims() == state.Dims() && ret.completed == state.completed
    ensures ret.tiles[..] == state.tiles[..] && ret.barriers[..] == state.barriers[..]
  {
    ret := new GameState(state.width, state.height, state.wrapping);
    ret.completed := state.completed;
    forall i | 0 <= i < ret.tiles.Length {
      ret.tiles[i] := state.tiles[i];
    }
    forall i | 0 <= i < ret.barriers.Length {
      ret.barriers[i] := state.barriers[i];
    }
  }
}
