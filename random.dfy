/**
 * The random source of new_game (random_init / random_upto). Its
 * algorithm is not part of this model: it is an oracle `draw` that
 * answers each call from the whole history of bounds asked so far, which
 * covers any deterministic generator seeded once (net.c:158).
 */
module Random {

  /** The value random_upto(rs, n) returns after the earlier calls `history`. */
  function Draw(draw: seq<nat> -> nat, history: seq<nat>, n: nat): (r: nat)
    requires n > 0
    ensures r < n
  {
    draw(history + [n]) % n
  }

  /** random_state: the oracle fixed by the seed, and the calls made so far. */
  class RandomState {
    const draw: seq<nat> -> nat
    var history: seq<nat>

    /** random_init(seed, len): `draw` stands for the stream the seed selects. */
    constructor (draw: seq<nat> -> nat)
      ensures this.draw == draw && history == []
    {
      this.draw := draw;
      history := [];
    }

    /** random_upto(rs, n): a value in [0, n), recorded in the history. */
    method Upto(n: nat) returns (r: nat)
      requires n > 0
      modifies this
      ensures r == Draw(draw, old(history), n)
      ensures history == old(history) + [n]
    {
      r := draw(history + [n]) % n;
      history := history + [n];
    }
  }
}
