/**
 The Java integer semantics the slider handler relies on, written out
 explicitly over Dafny's unbounded integers: `int` and `long` ranges,
 two's-complement narrowing (`Long.intValue`), 64-bit wrap-around of a
 `long` product, and `/` truncating toward zero.
 */
module JavaArith {

  const TWO_32: int := 0x1_0000_0000
  const TWO_64: int := 0x1_0000_0000_0000_0000
  const INT_MIN: int := -0x8000_0000
  const INT_MAX: int := 0x7fff_ffff
  const LONG_MIN: int := -0x8000_0000_0000_0000
  const LONG_MAX: int := 0x7fff_ffff_ffff_ffff

  /** A Java `int`. */
  type Int32 = x: int | -0x8000_0000 <= x <= 0x7fff_ffff

  /** A non-negative Java `long`. */
  type NonNegLong = x: int | 0 <= x <= 0x7fff_ffff_ffff_ffff

  predicate IsInt32(x: int) {
    INT_MIN <= x <= INT_MAX
  }

  predicate IsInt64(x: int) {
    LONG_MIN <= x <= LONG_MAX
  }

  /** Two's-complement narrowing of any integer to 32 bits, as `(int) x` does. */
  function Wrap32(x: int): (r: int)
    ensures IsInt32(r)
    ensures (x - r) % TWO_32 == 0
    ensures IsInt32(x) ==> r == x
  {
    var m := x % TWO_32;
    if m > INT_MAX then m - TWO_32 else m
  }

  /** Two's-complement wrap-around of any integer to 64 bits, as `long` arithmetic does. */
  function Wrap64(x: int): (r: int)
    ensures IsInt64(r)
    ensures (x - r) % TWO_64 == 0
    ensures IsInt64(x) ==> r == x
  {
    var m := x % TWO_64;
    if m > LONG_MAX then m - TWO_64 else m
  }

  /** Java's integer `/` by a positive divisor: the quotient is rounded toward zero. */
  function TruncDiv(a: int, b: int): (q: int)
    requires b > 0
    ensures a >= 0 ==> 0 <= a - q * b < b
    ensures a < 0 ==> -b < a - q * b <= 0
  {
    if a >= 0 then a / b else -((-a) / b)
  }
}
