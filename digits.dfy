/**
 * Positional notation: the numeric value of a digit list read least
 * significant digit first (how the Base58 codec keeps its working array) or
 * most significant digit first (how bytes and strings are read), and the
 * canonical digit list of a number.
 */
module Digits {

  /** A base-256 digit. */
  type Byte = x: int | 0 <= x < 256

  function Pow(base: nat, k: nat): nat {
    if k == 0 then 1 else base * Pow(base, k - 1)
  }

  function Repeat<T>(x: T, n: nat): (s: seq<T>)
    ensures |s| == n && forall i :: 0 <= i < n ==> s[i] == x
  {
    seq(n, _ => x)
  }

  function Reverse<T>(s: seq<T>): (r: seq<T>)
    ensures |r| == |s|
  {
    if s == [] then [] else Reverse(s[1..]) + [s[0]]
  }

  /**
   * Element k of the reversal is element |s| - 1 - k of the original. Kept
   * out of Reverse's own contract: for a list equal to its own reversal the
   * quantifier would keep producing new indices.
   */
  lemma {:induction false} ReverseIndex<T>(s: seq<T>)
    ensures forall k :: 0 <= k < |s| ==> Reverse(s)[k] == s[|s| - 1 - k]
  {
    if s != [] {
      ReverseIndex(s[1..]);
    }
  }

  lemma ReverseReverse<T>(s: seq<T>)
    ensures Reverse(Reverse(s)) == s
  {
    ReverseIndex(s);
    ReverseIndex(Reverse(s));
  }

  /** Value of `d` read least significant digit first. */
  function LittleEndian(d: seq<int>, base: nat): int {
    if d == [] then 0 else d[0] + base * LittleEndian(d[1..], base)
  }

  /** Value of `d` read most significant digit first. */
  function BigEndian(d: seq<int>, base: nat): (v: int)
    ensures InBase(d, base) ==> v >= 0
  {
    if d == [] then 0 else base * BigEndian(d[..|d| - 1], base) + d[|d| - 1]
  }

  predicate InBase(d: seq<int>, base: nat) {
    forall i :: 0 <= i < |d| ==> 0 <= d[i] < base
  }

  /**
   * A working digit list as the codec keeps it: at least one digit, every
   * digit in range, and no zero in the most significant place unless it is
   * the only digit.
   */
  predicate Canonical(d: seq<int>, base: nat) {
    |d| >= 1 && InBase(d, base) && (|d| == 1 || d[|d| - 1] != 0)
  }

  /** The canonical digits of `n`, least significant first (`[0]` for zero). */
  function ToDigits(n: nat, base: nat): (d: seq<int>)
    requires base >= 2
    ensures Canonical(d, base) && LittleEndian(d, base) == n
    decreases n
  {
    if n < base then [n]
    else
      DivMod(n, base);
      var rest := ToDigits(n / base, base);
      assert ([n % base] + rest)[1..] == rest;
      [n % base] + rest
  }

  lemma DivMod(n: int, base: nat)
    requires base >= 2
    ensures n == base * (n / base) + n % base && 0 <= n % base < base
    ensures n >= base ==> n / base >= 1 && n / base < n
  {
  }

  lemma MulAtLeast(a: int, k: int)
    requires a >= 0 && k >= 1
    ensures a * k >= a
  {
  }

  /** Quotient and remainder are the only pair with the division property. */
  lemma DivUnique(n: int, base: nat, q: int, r: int)
    requires base >= 2 && n == base * q + r && 0 <= r < base
    ensures n / base == q && n % base == r
  {
    DivMod(n, base);
    var q', r' := n / base, n % base;
    assert base * q' + r' == base * q + r;
    if q' > q {
      assert base * q' - base * q == base * (q' - q);
      MulAtLeast(base, q' - q);
      assert false;
    } else if q' < q {
      assert base * q - base * q' == base * (q - q');
      MulAtLeast(base, q - q');
      assert false;
    }
  }

  /** Every digit multiplied by `m`. */
  function Scale(d: seq<int>, m: int): (r: seq<int>)
    ensures |r| == |d| && forall i :: 0 <= i < |d| ==> r[i] == m * d[i]
  {
    seq(|d|, i requires 0 <= i < |d| => m * d[i])
  }

  lemma {:induction false} LittleEndianBounds(d: seq<int>, base: nat)
    requires InBase(d, base)
    ensures 0 <= LittleEndian(d, base) < Pow(base, |d|)
  {
    if d != [] {
      LittleEndianBounds(d[1..], base);
      DigitBound(d[0], base, LittleEndian(d[1..], base), Pow(base, |d| - 1));
    }
  }

  /** A digit below `base` plus `base` times a number below `p` stays below `base * p`. */
  lemma DigitBound(x: int, base: int, r: int, p: int)
    requires 0 <= x < base && 0 <= r < p
    ensures 0 <= x + base * r < base * p
  {
    MulMono(base, r, p - 1);
    assert base * (p - 1) == base * p - base;
  }

  lemma MulMono(a: int, x: int, y: int)
    requires a >= 0 && 0 <= x <= y
    ensures 0 <= a * x <= a * y
  {
    assert a * y - a * x == a * (y - x);
  }

  /** A list whose top digit is not zero stands for a positive number. */
  lemma {:induction false} LittleEndianPositive(d: seq<int>, base: nat)
    requires InBase(d, base) && |d| >= 1 && d[|d| - 1] != 0
    ensures LittleEndian(d, base) > 0
  {
    if |d| > 1 {
      LittleEndianPositive(d[1..], base);
      MulAtLeast(base, LittleEndian(d[1..], base));
    } else {
      assert d[1..] == [];
    }
  }

  /** A list whose top digit is not zero is worth at least `base^(|d| - 1)`. */
  lemma {:induction false} LittleEndianTop(d: seq<int>, base: nat)
    requires InBase(d, base) && |d| >= 1 && d[|d| - 1] != 0
    ensures LittleEndian(d, base) >= Pow(base, |d| - 1)
  {
    if |d| > 1 {
      LittleEndianTop(d[1..], base);
      MulMono(base, Pow(base, |d| - 2), LittleEndian(d[1..], base));
    } else {
      assert d[1..] == [];
    }
  }

  lemma {:induction false} PowMono(base: nat, i: nat, j: nat)
    requires base >= 1 && i <= j
    ensures 1 <= Pow(base, i) <= Pow(base, j)
    decreases j
  {
    if j > 0 {
      if i < j {
        PowMono(base, i, j - 1);
      } else {
        PowMono(base, 0, j - 1);
      }
      MulAtLeast(Pow(base, j - 1), base);
    }
  }

  /** A canonical list for a value below `base^k` has at most `k` digits. */
  lemma CanonicalLength(d: seq<int>, base: nat, k: nat)
    requires base >= 2 && Canonical(d, base) && k >= 1
    requires LittleEndian(d, base) < Pow(base, k)
    ensures |d| <= k
  {
    if |d| > k {
      LittleEndianTop(d, base);
      PowMono(base, k, |d| - 1);
      assert false;
    }
  }

  /** A canonical digit list is the only one for its value. */
  lemma {:induction false} CanonicalUnique(d: seq<int>, base: nat)
    requires base >= 2 && Canonical(d, base)
    ensures LittleEndian(d, base) >= 0
    ensures ToDigits(LittleEndian(d, base), base) == d
  {
    if |d| == 1 {
      assert LittleEndian(d, base) == d[0];
    } else {
      var rest := d[1..];
      assert Canonical(rest, base);
      CanonicalUnique(rest, base);
      LittleEndianPositive(rest, base);
      var v := LittleEndian(rest, base);
      var n := d[0] + base * v;
      assert LittleEndian(d, base) == n;
      MulAtLeast(base, v);
      DivUnique(n, base, v, d[0]);
      assert ToDigits(n, base) == [d[0]] + ToDigits(v, base);
      assert d == [d[0]] + rest;
    }
  }

  /** Changing digit `j` changes the value by the change times `base^j`. */
  lemma {:induction false} LittleEndianUpdate(d: seq<int>, j: nat, v: int, base: nat)
    requires j < |d|
    ensures LittleEndian(d[j := v], base) == LittleEndian(d, base) + Pow(base, j) * (v - d[j])
  {
    if j > 0 {
      LittleEndianUpdate(d[1..], j - 1, v, base);
      assert d[j := v][1..] == d[1..][j - 1 := v];
      ScaleShift(base, LittleEndian(d[1..], base), Pow(base, j - 1), v - d[j]);
    } else {
      assert d[0 := v][1..] == d[1..];
    }
  }

  /** Multiplying a value plus a weighted change by `base` moves the change up one place. */
  lemma ScaleShift(base: int, value: int, p: int, delta: int)
    ensures base * (value + p * delta) == base * value + (base * p) * delta
  {
    assert base * (p * delta) == (base * p) * delta;
  }

  /** A new most significant digit `x` adds `x * base^|d|`. */
  lemma {:induction false} LittleEndianAppend(d: seq<int>, x: int, base: nat)
    ensures LittleEndian(d + [x], base) == LittleEndian(d, base) + Pow(base, |d|) * x
  {
    if d != [] {
      var rest, p := LittleEndian(d[1..], base), Pow(base, |d| - 1);
      LittleEndianAppend(d[1..], x, base);
      assert LittleEndian(d + [x], base) == d[0] + base * (rest + p * x) by {
        assert (d + [x])[0] == d[0] && (d + [x])[1..] == d[1..] + [x];
      }
      assert LittleEndian(d, base) == d[0] + base * rest;
      assert Pow(base, |d|) == base * p;
      Distribute(base, rest, p, x);
    } else {
      assert [x][1..] == [];
    }
  }

  lemma Distribute(b: int, r: int, p: int, x: int)
    ensures b * (r + p * x) == b * r + (b * p) * x
  {
    assert b * (p * x) == (b * p) * x;
  }

  lemma {:induction false} LittleEndianScale(d: seq<int>, m: int, base: nat)
    ensures LittleEndian(Scale(d, m), base) == m * LittleEndian(d, base)
  {
    if d != [] {
      assert Scale(d, m)[1..] == Scale(d[1..], m);
      LittleEndianScale(d[1..], m, base);
      ScaleDigit(m, d[0], base, LittleEndian(d[1..], base));
    }
  }

  lemma ScaleDigit(m: int, x: int, base: int, rest: int)
    ensures m * x + base * (m * rest) == m * (x + base * rest)
  {
    assert base * (m * rest) == m * (base * rest);
  }

  /**
   * One step of carry propagation: digit `j` absorbs the incoming carry,
   * keeps the remainder and passes the quotient on; the total is unchanged.
   */
  lemma CarryStep(d: seq<int>, j: nat, carry: int, base: nat)
    requires j < |d| && base >= 2
    ensures var x := d[j] + carry;
      LittleEndian(d[j := x % base], base) + Pow(base, j + 1) * (x / base)
      == LittleEndian(d, base) + Pow(base, j) * carry
  {
    var x := d[j] + carry;
    DivMod(x, base);
    LittleEndianUpdate(d, j, x % base, base);
    PositionShift(Pow(base, j), base, x / base, x % base, d[j], carry);
  }

  /**
   * The arithmetic of one carry or push step at weight `p`: the digit left
   * behind and the quotient moved up one place together weigh what the
   * incoming carry did.
   */
  lemma PositionShift(p: int, base: int, q: int, r: int, prior: int, carry: int)
    requires prior + carry == base * q + r
    ensures p * (r - prior) + (base * p) * q == p * carry
  {
    assert (base * p) * q == p * (base * q);
    assert p * (r - prior) + p * (base * q) == p * (r - prior + base * q);
  }

  /** Pushing the low digit of a carry and keeping its quotient preserves the total. */
  lemma PushStep(d: seq<int>, carry: int, base: nat)
    requires base >= 2
    ensures LittleEndian(d + [carry % base], base) + Pow(base, |d| + 1) * (carry / base)
      == LittleEndian(d, base) + Pow(base, |d|) * carry
  {
    DivMod(carry, base);
    PushSplit(d, carry, carry / base, carry % base, base);
  }

  lemma PushSplit(d: seq<int>, carry: int, hi: int, lo: int, base: nat)
    requires carry == base * hi + lo
    ensures LittleEndian(d + [lo], base) + Pow(base, |d| + 1) * hi
      == LittleEndian(d, base) + Pow(base, |d|) * carry
  {
    LittleEndianAppend(d, lo, base);
    PositionShift(Pow(base, |d|), base, hi, lo, 0, carry);
  }

  /** Appending a digit on the right of a most-significant-first list. */
  lemma BigEndianAppend(d: seq<int>, x: int, base: nat)
    ensures BigEndian(d + [x], base) == base * BigEndian(d, base) + x
  {
    assert (d + [x])[..|d|] == d;
  }

  /** Reading a list backwards turns most-significant-first into least-significant-first. */
  lemma {:induction false} ReverseValue(s: seq<int>, base: nat)
    ensures LittleEndian(Reverse(s), base) == BigEndian(s, base)
  {
    if s != [] {
      var init := s[..|s| - 1];
      ReverseIndex(s);
      ReverseIndex(init);
      assert Reverse(s) == [s[|s| - 1]] + Reverse(init);
      assert Reverse(s)[1..] == Reverse(init);
      ReverseValue(init, base);
    }
  }

  /** Leading zeros do not change a most-significant-first value. */
  lemma {:induction false} BigEndianLeadingZeros(k: nat, s: seq<int>, base: nat)
    ensures BigEndian(Repeat(0, k) + s, base) == BigEndian(s, base)
    decreases |s|
  {
    if s == [] {
      assert Repeat(0, k) + s == Repeat(0, k);
      BigEndianZeros(k, base);
    } else {
      var init, last := s[..|s| - 1], s[|s| - 1];
      assert Repeat(0, k) + s == (Repeat(0, k) + init) + [last];
      BigEndianAppend(Repeat(0, k) + init, last, base);
      BigEndianLeadingZeros(k, init, base);
    }
  }

  /** A run of zeros is worth zero. */
  lemma {:induction false} BigEndianZeros(k: nat, base: nat)
    ensures BigEndian(Repeat(0, k), base) == 0
  {
    if k > 0 {
      assert Repeat(0, k) == Repeat(0, k - 1) + [0];
      BigEndianAppend(Repeat(0, k - 1), 0, base);
      BigEndianZeros(k - 1, base);
    }
  }
}
