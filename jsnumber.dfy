/**
 * The handful of ECMAScript number operators the wallet code applies to
 * integral values: ToInt32 and the 32-bit operators built on it (`<<`, `>>`,
 * `| 0`, `& 0xff`, `x & x`), and the truncating `/` and `%`.
 * Every operand in the modelled code is an integer well inside the range
 * where a double is exact, so each operator is stated on `int`.
 */
module JsNumber {

  const TWO_31: int := 0x8000_0000
  const TWO_32: int := 0x1_0000_0000

  predicate IsInt32(x: int) {
    -TWO_31 <= x < TWO_31
  }

  /** ToInt32 of ECMA-262 (section 7.1.6): wrap an integer to signed 32 bits. */
  function ToInt32(x: int): (r: int)
    ensures IsInt32(r)
    ensures (x - r) % TWO_32 == 0
    ensures IsInt32(x) ==> r == x
  {
    var m := x % TWO_32;
    if m >= TWO_31 then m - TWO_32 else m
  }

  /** Two integers that differ by a multiple of 2^32 wrap to the same value. */
  lemma ToInt32Congruent(a: int, b: int)
    requires (a - b) % TWO_32 == 0
    ensures ToInt32(a) == ToInt32(b)
  {
    var k := (a - b) / TWO_32;
    assert a == b + k * TWO_32;
    assert a % TWO_32 == b % TWO_32;
  }

  function Pow2(n: nat): (r: nat)
    ensures r >= 1
  {
    if n == 0 then 1 else 2 * Pow2(n - 1)
  }

  /** `x << n` for a shift count below 32. */
  function ShiftLeft(x: int, n: nat): (r: int)
    requires n < 32
    ensures IsInt32(r)
    ensures IsInt32(x) && IsInt32(x * Pow2(n)) ==> r == x * Pow2(n)
  {
    ToInt32(ToInt32(x) * Pow2(n))
  }

  /** `x >> n` (sign-propagating) for a shift count below 32. */
  function ShiftRight(x: int, n: nat): (r: int)
    requires n < 32
    ensures IsInt32(x) ==> r == x / Pow2(n)
  {
    ToInt32(x) / Pow2(n)
  }

  /** `Math.trunc(x / d)`: the quotient rounded toward zero. */
  function TruncDiv(x: int, d: int): (q: int)
    requires d > 0
    ensures x >= 0 ==> q == x / d
    ensures x < 0 ==> q == -((-x) / d)
  {
    if x >= 0 then x / d else -((-x) / d)
  }

  /** `(x / d) | 0` */
  function DivOrZero(x: int, d: int): (r: int)
    requires d > 0
    ensures 0 <= x < TWO_31 ==> r == x / d
  {
    QuotientBelow(x, d);
    ToInt32(TruncDiv(x, d))
  }

  lemma QuotientBelow(x: int, d: int)
    requires d > 0
    ensures 0 <= x ==> 0 <= x / d <= x
  {
    if 0 <= x {
      var q, r := x / d, x % d;
      assert x == d * q + r && 0 <= r < d;
      assert d * q == q + (d - 1) * q;
      MulNonNegative(d - 1, q);
    }
  }

  lemma MulNonNegative(a: int, b: int)
    requires a >= 0 && b >= 0
    ensures a * b >= 0
  {
  }

  /** `x % d`: the remainder takes the sign of the dividend. */
  function Rem(x: int, d: int): (r: int)
    requires d > 0
    ensures x >= 0 ==> r == x % d
    ensures x < 0 ==> r == -((-x) % d)
  {
    x - d * TruncDiv(x, d)
  }

  /** `x & 0xff`: the low byte of the two's-complement 32-bit value. */
  function AndLowByte(x: int): (r: int)
    ensures 0 <= r < 256
    ensures 0 <= x < TWO_31 ==> r == x % 256
  {
    ToInt32(x) % 256
  }

  /** `x & x`: a bitwise AND of a value with itself leaves its 32-bit form. */
  function AndSelf(x: int): (r: int)
    ensures IsInt32(r)
  {
    ToInt32(x)
  }
}
