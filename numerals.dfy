/**
 * How JavaScript turns a non-negative integer into text with
 * `Number.prototype.toString(radix)` (lower-case digits, no leading zero
 * except for zero itself), how a template literal renders an integer, and
 * `String.prototype.padStart` with a one-character pad. `ParseNumeral` is
 * the reading-back partner the round-trip lemmas use.
 */
module Numerals {
  import opened Digits

  predicate IsLowerHexDigit(c: char) {
    '0' <= c <= '9' || 'a' <= c <= 'f'
  }

  /** The value of a digit character; -1 for anything that is not one. */
  function DigitValue(c: char): (v: int)
    ensures IsLowerHexDigit(c) <==> 0 <= v < 16
  {
    if '0' <= c <= '9' then c as int - '0' as int
    else if 'a' <= c <= 'f' then c as int - 'a' as int + 10
    else -1
  }

  /** The character `toString` uses for digit value `x`. */
  function DigitChar(x: int): (c: char)
    requires 0 <= x < 16
    ensures IsLowerHexDigit(c) && DigitValue(c) == x
  {
    if x < 10 then ('0' as int + x) as char else ('a' as int + (x - 10)) as char
  }

  /** Least-significant-first digits written out most significant first. */
  function SpellDigits(d: seq<int>): (s: string)
    requires InBase(d, 16)
    ensures |s| == |d|
  {
    if d == [] then "" else SpellDigits(d[1..]) + [DigitChar(d[0])]
  }

  function Values(s: string): (v: seq<int>)
    ensures |v| == |s| && forall i :: 0 <= i < |s| ==> v[i] == DigitValue(s[i])
  {
    seq(|s|, i requires 0 <= i < |s| => DigitValue(s[i]))
  }

  /** `n.toString(radix)` for a non-negative integer `n`. */
  function Numeral(n: nat, radix: nat): string
    requires 2 <= radix <= 16
  {
    SpellDigits(ToDigits(n, radix))
  }

  /** Reads a numeral back: the digits' value, most significant first. */
  function ParseNumeral(s: string, radix: nat): int {
    BigEndian(Values(s), radix)
  }

  /** `${t}` for an integer `t` (well below 10^21, where JavaScript switches to exponent form). */
  function Decimal(t: int): (s: string)
    ensures |s| >= 1
  {
    NumeralShape(if t < 0 then -t else t, 10);
    if t < 0 then "-" + Numeral(-t, 10) else Numeral(t, 10)
  }

  /** `s.padStart(width, pad)` with a one-character `pad`. */
  function PadStart(s: string, width: nat, pad: char): (r: string)
    ensures |r| == if |s| >= width then |s| else width
  {
    if |s| >= width then s else Repeat(pad, width - |s|) + s
  }

  lemma {:induction false} SpellValues(d: seq<int>)
    requires InBase(d, 16)
    ensures Values(SpellDigits(d)) == Reverse(d)
  {
    if d != [] {
      SpellValues(d[1..]);
      assert Values(SpellDigits(d)) == Values(SpellDigits(d[1..])) + [d[0]];
    }
  }

  /**
   * A numeral is one or more digit characters below the radix, with no
   * leading zero unless it is "0".
   */
  lemma NumeralShape(n: nat, radix: nat)
    requires 2 <= radix <= 16
    ensures var s := Numeral(n, radix);
      |s| >= 1 && (|s| == 1 || s[0] != '0')
      && forall i :: 0 <= i < |s| ==> IsLowerHexDigit(s[i]) && DigitValue(s[i]) < radix
  {
    var d := ToDigits(n, radix);
    SpellValues(d);
    ReverseIndex(d);
    var s := Numeral(n, radix);
    assert Values(s) == Reverse(d);
    forall i | 0 <= i < |s|
      ensures IsLowerHexDigit(s[i]) && DigitValue(s[i]) < radix
    {
      assert Values(s)[i] == d[|d| - 1 - i];
    }
    assert Values(s)[0] == d[|d| - 1];
  }

  /** Reading a numeral back gives the number. */
  lemma NumeralRoundTrip(n: nat, radix: nat)
    requires 2 <= radix <= 16
    ensures ParseNumeral(Numeral(n, radix), radix) == n
  {
    var d := ToDigits(n, radix);
    SpellValues(d);
    ReverseValue(Reverse(d), radix);
    ReverseReverse(d);
  }

  /** A number below `radix^k` (k >= 1) has a numeral of at most `k` characters. */
  lemma NumeralLength(n: nat, radix: nat, k: nat)
    requires 2 <= radix <= 16 && k >= 1 && n < Pow(radix, k)
    ensures |Numeral(n, radix)| <= k
  {
    CanonicalLength(ToDigits(n, radix), radix, k);
  }

  /** Zeros padded on the left do not change the value read back. */
  lemma PadStartValue(s: string, width: nat, radix: nat)
    ensures ParseNumeral(PadStart(s, width, '0'), radix) == ParseNumeral(s, radix)
  {
    if |s| < width {
      var k := width - |s|;
      assert PadStart(s, width, '0') == Repeat('0', k) + s;
      ValuesAppend(Repeat('0', k), s);
      ValuesZeros(k);
      BigEndianLeadingZeros(k, Values(s), radix);
    }
  }

  lemma ValuesZeros(k: nat)
    ensures Values(Repeat('0', k)) == Repeat(0, k)
  {
  }

  lemma ValuesAppend(a: string, b: string)
    ensures Values(a + b) == Values(a) + Values(b)
  {
  }
}
