/**
 * Direction bitfields of a Net tile and the macros that rotate, flip and
 * count them (net.c:13-34). A tile byte holds a 4-bit connector mask
 * (R = 1, U = 2, L = 4, D = 8) and the LOCKED flag 0x10.
 */
module Directions {

  const R: bv8 := 0x01
  const U: bv8 := 0x02
  const L: bv8 := 0x04
  const D: bv8 := 0x08
  const LOCKED: bv8 := 0x10

  /** One of the four single-direction masks. */
  predicate IsDir(d: bv8) {
    d == R || d == U || d == L || d == D
  }

  /** Does mask `t` carry the connector (or barrier) bit `d`? */
  predicate Has(t: bv8, d: bv8) {
    t & d != 0
  }

  /** A tile byte with no bit above the four connector bits. */
  predicate IsMask(t: bv8) {
    t & 0xF0 == 0
  }

  /** Rotate anticlockwise: every connector moves one quarter turn, R to U to L to D to R. */
  function A(x: bv8): (r: bv8)
    ensures IsMask(r)
    ensures Has(r, U) == Has(x, R) && Has(r, L) == Has(x, U)
    ensures Has(r, D) == Has(x, L) && Has(r, R) == Has(x, D)
  {
    ((x & 0x07) << 1) | ((x & 0x08) >> 3)
  }

  /** Rotate clockwise: R to D to L to U to R. */
  function C(x: bv8): (r: bv8)
    ensures IsMask(r)
    ensures Has(r, D) == Has(x, R) && Has(r, R) == Has(x, U)
    ensures Has(r, U) == Has(x, L) && Has(r, L) == Has(x, D)
  {
    ((x & 0x0E) >> 1) | ((x & 0x01) << 3)
  }

  /** Flip (half turn): R and L swap, U and D swap. */
  function F(x: bv8): (r: bv8)
    ensures IsMask(r)
    ensures Has(r, L) == Has(x, R) && Has(r, R) == Has(x, L)
    ensures Has(r, D) == Has(x, U) && Has(r, U) == Has(x, D)
  {
    ((x & 0x0C) >> 2) | ((x & 0x03) << 2)
  }

  /**
   * The general rotation ROT(x, n): only the two low bits of n matter.
   * `n & 3` on a two's-complement int is the Euclidean remainder `n % 4`.
   */
  function Rot(x: bv8, n: int): (r: bv8)
    ensures Count(r) == Count(x)
    ensures IsMask(x) ==> IsMask(r)
  {
    var q := n % 4;
    if q == 0 then x
    else if q == 1 then A(x)
    else if q == 2 then F(x)
    else C(x)
  }

  /** Horizontal displacement of a single direction (macro X). */
  function X(d: bv8): (r: int)
    ensures -1 <= r <= 1
    ensures r == 1 <==> d == R
    ensures r == -1 <==> d == L
  {
    if d == R then 1 else if d == L then -1 else 0
  }

  /** Vertical displacement of a single direction (macro Y); down is +1. */
  function Y(d: bv8): (r: int)
    ensures -1 <= r <= 1
    ensures r == 1 <==> d == D
    ensures r == -1 <==> d == U
  {
    if d == D then 1 else if d == U then -1 else 0
  }

  function Bit(t: bv8, d: bv8): int {
    if Has(t, d) then 1 else 0
  }

  /** Number of connectors on a tile (macro COUNT). */
  function Count(x: bv8): (r: int)
    ensures 0 <= r <= 4
    ensures r == Bit(x, R) + Bit(x, U) + Bit(x, L) + Bit(x, D)
    ensures r == 4 <==> x & 0x0F == 0x0F
    ensures r == 0 <==> x & 0x0F == 0
  {
    ((((x & 0x08) >> 3) + ((x & 0x04) >> 2) + ((x & 0x02) >> 1) + (x & 0x01)) as int)
  }

  /** A and C undo each other, F is its own inverse and is two quarter turns. */
  lemma RotationInverses(x: bv8)
    requires IsMask(x)
    ensures C(A(x)) == x && A(C(x)) == x
    ensures F(F(x)) == x && F(x) == A(A(x))
  {
  }

  /** ROT(x, 1) is A, ROT(x, 2) is F, ROT(x, 3) is C, and ROT adds turns modulo 4. */
  lemma RotComposes(x: bv8, m: int, n: int)
    requires IsMask(x)
    ensures Rot(x, 1) == A(x) && Rot(x, 2) == F(x) && Rot(x, 3) == C(x)
    ensures Rot(Rot(x, m), n) == Rot(x, m + n)
  {
    RotationInverses(x);
    RotationInverses(A(x));
    RotationInverses(C(x));
    var p, q := m % 4, n % 4;
    assert (m + n) % 4 == (p + q) % 4;
  }

  /** Rotations keep the connector count and never produce bits above the mask. */
  lemma RotationKeepsCount(x: bv8, n: int)
    ensures Count(A(x)) == Count(x) && Count(C(x)) == Count(x) && Count(F(x)) == Count(x)
    ensures Count(Rot(x, n)) == Count(x)
    ensures IsMask(x) ==> IsMask(Rot(x, n))
  {
  }

  /** F maps every single direction to its opposite, with opposite displacement. */
  lemma FlipIsOpposite(d: bv8)
    requires IsDir(d)
    ensures IsDir(F(d)) && F(F(d)) == d && F(d) != d
    ensures F(R) == L && F(L) == R && F(U) == D && F(D) == U
    ensures X(F(d)) == -X(d) && Y(F(d)) == -Y(d)
  {
  }

  /** Adding a connector that is not yet there raises the count by one. */
  lemma CountAddBit(t: bv8, d: bv8)
    requires IsDir(d) && !Has(t, d)
    ensures Count(t | d) == Count(t) + 1
    ensures Has(t | d, d)
  {
  }

  /** A 4-bit tile with three connectors is missing exactly the direction 0x0F ^ t. */
  lemma FourthDirection(t: bv8, d: bv8)
    requires IsMask(t) && Count(t) == 3 && IsDir(d) && !Has(t, d)
    ensures d == 0x0F ^ t
  {
  }

  /** Two single directions share a bit exactly when they are equal. */
  lemma SingleBit(d: bv8, e: bv8)
    requires IsDir(d) && IsDir(e)
    ensures Has(d, e) <==> d == e
    ensures Count(d) == 1 && IsMask(d)
  {
  }

  /** Or-ing in a direction d adds bit d and keeps every other bit and the mask. */
  lemma OrBit(a: bv8, d: bv8, e: bv8)
    requires IsDir(d) && IsDir(e)
    ensures Has(a | d, e) <==> Has(a, e) || d == e
    ensures IsMask(a) ==> IsMask(a | d)
  {
  }
}
