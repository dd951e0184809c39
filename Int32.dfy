/**
 * The 32-bit integer conversions of ECMAScript that the fingerprint hash relies on.
 * Numbers here are the integral values the hash loop produces; all of them stay far
 * below 2^53, so double arithmetic on them is exact and Dafny's unbounded int models it.
 */
module Int32 {

  const TwoTo31: int := 0x8000_0000
  const TwoTo32: int := 0x1_0000_0000

  predicate InRange(x: int)
  {
    -TwoTo31 <= x < TwoTo31
  }

  /** ToInt32 of an integral Number: its residue modulo 2^32, read as a signed 32-bit value. */
  function ToInt32(x: int): (r: int)
    ensures InRange(r)
    ensures (x - r) % TwoTo32 == 0
    ensures InRange(x) ==> r == x
  {
    var m := x % TwoTo32;
    if m < TwoTo31 then m else m - TwoTo32
  }

  /** Numbers that agree modulo 2^32 have the same ToInt32. */
  lemma Congruent(x: int, y: int)
    requires (x - y) % TwoTo32 == 0
    ensures ToInt32(x) == ToInt32(y)
  {
    var q := (x - y) / TwoTo32;
    assert x == y + q * TwoTo32;
    assert x % TwoTo32 == y % TwoTo32;
  }

  /** A multiple of 2^32 times any integer is a multiple of 2^32. */
  lemma ScaledMultiple(d: int, k: int)
    requires d % TwoTo32 == 0
    ensures (k * d) % TwoTo32 == 0
  {
    var q := d / TwoTo32;
    assert d == q * TwoTo32;
    assert k * d == (k * q) * TwoTo32;
  }

  /** Numbers that differ modulo 2^32 have different ToInt32. */
  lemma DistinctResidues(x: int, y: int)
    requires (x - y) % TwoTo32 != 0
    ensures ToInt32(x) != ToInt32(y)
  {
  }

  /** `x << 5`: ToInt32(x) shifted left by five bits, the bits above bit 31 dropped. */
  function ShiftLeft5(x: int): (r: int)
    ensures InRange(r)
    ensures (r - 32 * x) % TwoTo32 == 0
  {
    var a := ToInt32(x);
    var q := (x - a) / TwoTo32;
    assert x == a + q * TwoTo32;
    assert 32 * x - 32 * a == (32 * q) * TwoTo32;
    ToInt32(a * 32)
  }

  /**
   * `x & x`: both operands go through ToInt32, and a bit pattern and-ed with itself is
   * unchanged, so the result is ToInt32(x).
   */
  function AndSelf(x: int): (r: int)
    ensures InRange(r)
  {
    ToInt32(x)
  }

  /** Math.abs on an int32 value: at most 2^31, reached only by -2^31. */
  function Abs(x: int): (r: nat)
    ensures r == x || r == -x
    ensures InRange(x) ==> r <= TwoTo31
  {
    if x < 0 then -x else x
  }
}
