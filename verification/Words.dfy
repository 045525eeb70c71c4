/** The fixed-width unsigned integers of the firmware, as subset types of `nat`. */
module Words {

  type uint32 = n: nat | n < 0x1_0000_0000
  type byte = n: nat | n < 256

  /** Truncation to 32 bits: what C and C++ keep of an unsigned sum, difference or product. */
  function Wrap32(n: int): (w: uint32) {
    n % 0x1_0000_0000
  }

  function Min(a: int, b: int): (m: int) {
    if a < b then a else b
  }

  function Max(a: int, b: int): (m: int) {
    if a < b then b else a
  }

  function Clamp(v: int, lo: int, hi: int): (c: int) {
    if v < lo then lo else if hi < v then hi else v
  }

  /** The truncated value is the one in range that differs by whole laps. */
  lemma WrapIs(n: int, laps: int)
    requires 0 <= n - 0x1_0000_0000 * laps < 0x1_0000_0000
    ensures Wrap32(n) == n - 0x1_0000_0000 * laps
  {
    WrapShift(n, -laps);
  }

  /** Truncation commutes with the difference: wrapping counters count distances exactly. */
  lemma WrapDifference(a: int, b: int)
    ensures Wrap32(Wrap32(a) - Wrap32(b)) == Wrap32(a - b)
  {
    var qa, qb := a / 0x1_0000_0000, b / 0x1_0000_0000;
    WrapShift(a - b, qb - qa);
  }

  lemma WrapShift(n: int, q: int)
    ensures Wrap32(n + 0x1_0000_0000 * q) == Wrap32(n)
  {
  }

  lemma WrapSum(a: int, b: int)
    ensures Wrap32(Wrap32(a) + b) == Wrap32(a + b)
  {
    WrapShift(a + b, -(a / 0x1_0000_0000));
  }

  /** A wrapping counter tells two values apart exactly when they are not a multiple of 2^32 apart. */
  lemma WrapInjective(a: int, b: int)
    requires 0 <= b - a < 0x1_0000_0000
    ensures Wrap32(a) == Wrap32(b) <==> a == b
  {
  }
}
