/**
 * The Base58 codec of lib/base58.js: the Bitcoin alphabet, `encode` from a
 * byte buffer to a string and `decode` back, each an arbitrary-precision
 * base conversion on a growable digit array.
 *
 * The methods follow the code step by step; EncodeSpec and DecodeSpec say
 * what they compute in terms of numeric values; the lemmas at the end state
 * what that means for callers, including the round trip as the code has it
 * (the decoded payload comes back least significant byte first).
 */
module Base58Codec {
  import opened Digits
  import opened JsNumber
  import opened Outcomes

  /**
   * The Bitcoin Base58 alphabet: the digits and letters in code order
   * without '0', 'I', 'O' and 'l'. AlphabetText shows it is the literal
   * the constructor stores (lib/base58.js:4).
   */
  const ALPHABET: string := Span('1', '9') + Span('A', 'H') + Span('J', 'N') + Span('P', 'Z') + Span('a', 'k') + Span('m', 'z')

  /** The characters from `lo` to `hi` inclusive, in code order. */
  function Span(lo: char, hi: char): (s: string)
    requires lo <= hi < 128 as char
    ensures |s| == hi as int - lo as int + 1
    ensures forall k :: 0 <= k < |s| ==> s[k] as int == lo as int + k
  {
    seq(hi as int - lo as int + 1, k requires 0 <= k <= hi as int - lo as int => (lo as int + k) as char)
  }

  /**
   * The position of `c` in the alphabet, worked out from the six ranges of
   * digits and letters it is made of (no '0', 'I', 'O' or 'l'); -1 for any
   * other character.
   */
  function SymbolIndex(c: char): (r: int)
    ensures -1 <= r < 58
  {
    if '1' <= c <= '9' then c as int - '1' as int
    else if 'A' <= c <= 'H' then c as int - 'A' as int + 9
    else if 'J' <= c <= 'N' then c as int - 'J' as int + 17
    else if 'P' <= c <= 'Z' then c as int - 'P' as int + 22
    else if 'a' <= c <= 'k' then c as int - 'a' as int + 33
    else if 'm' <= c <= 'z' then c as int - 'm' as int + 44
    else -1
  }

  predicate IsSymbol(c: char) {
    SymbolIndex(c) >= 0
  }

  lemma AlphabetText()
    ensures ALPHABET == "123456789ABCDEFGHJKLMNPQRSTUVWXYZabcdefghijkmnopqrstuvwxyz"
  {
    UpperSpans();
    LowerSpans();
    assert "123456789ABCDEFGHJKLMNPQRSTUVWXYZ" + "abcdefghijk" + "mnopqrstuvwxyz"
      == "123456789ABCDEFGHJKLMNPQRSTUVWXYZabcdefghijkmnopqrstuvwxyz";
  }

  /** The digits and upper-case letters of the alphabet. */
  lemma UpperSpans()
    ensures Span('1', '9') + Span('A', 'H') + Span('J', 'N') + Span('P', 'Z') == "123456789ABCDEFGHJKLMNPQRSTUVWXYZ"
  {
    assert Span('1', '9') == "123456789";
    assert Span('A', 'H') == "ABCDEFGH";
    assert Span('J', 'N') == "JKLMN";
    assert Span('P', 'Z') == "PQRSTUVWXYZ";
    assert "123456789" + "ABCDEFGH" + "JKLMN" + "PQRSTUVWXYZ" == "123456789ABCDEFGHJKLMNPQRSTUVWXYZ";
  }

  /** The lower-case letters of the alphabet. */
  lemma LowerSpans()
    ensures Span('a', 'k') == "abcdefghijk" && Span('m', 'z') == "mnopqrstuvwxyz"
  {
    assert Span('a', 'k') == "abcdefghijk";
    assert Span('m', 'z') == "mnopqrstuvwxyz";
  }

  /** The alphabet has 58 symbols and SymbolIndex undoes indexing into it. */
  lemma AlphabetIndexed()
    ensures |ALPHABET| == 58
    ensures forall i :: 0 <= i < |ALPHABET| ==> SymbolIndex(ALPHABET[i]) == i
  {
  }

  /** Indexing into the alphabet undoes SymbolIndex. */
  lemma SymbolAt(c: char)
    requires IsSymbol(c)
    ensures ALPHABET[SymbolIndex(c)] == c
  {
  }

  /** The 58 symbols are distinct, and the look-alikes '0', 'O', 'I' and 'l' are not among them. */
  lemma AlphabetDistinct()
    ensures forall i, j :: 0 <= i < j < |ALPHABET| ==> ALPHABET[i] != ALPHABET[j]
    ensures '0' !in ALPHABET && 'O' !in ALPHABET && 'I' !in ALPHABET && 'l' !in ALPHABET
  {
    AlphabetIndexed();
    forall c | c in ALPHABET ensures IsSymbol(c) {
      var i :| 0 <= i < |ALPHABET| && ALPHABET[i] == c;
      assert SymbolIndex(ALPHABET[i]) == i;
    }
  }

  /** The number of zero bytes in front of the first nonzero one. */
  function LeadingZeros(b: seq<int>): (n: nat)
    ensures n <= |b|
    ensures forall i :: 0 <= i < n ==> b[i] == 0
    ensures n < |b| ==> b[n] != 0
  {
    if b == [] || b[0] != 0 then 0 else 1 + LeadingZeros(b[1..])
  }

  /** The number of '1' characters in front of the first other one. */
  function LeadingOnes(s: string): (n: nat)
    ensures n <= |s|
    ensures forall i :: 0 <= i < n ==> s[i] == '1'
    ensures n < |s| ==> s[n] != '1'
  {
    if s == [] || s[0] != '1' then 0 else 1 + LeadingOnes(s[1..])
  }

  /** Least-significant-first digits written out most significant symbol first. */
  function Spell(d: seq<int>): (s: string)
    requires InBase(d, 58)
    ensures |s| == |d|
    ensures forall k :: 0 <= k < |d| ==> s[k] == ALPHABET[d[|d| - 1 - k]]
  {
    if d == [] then "" else Spell(d[1..]) + [ALPHABET[d[0]]]
  }

  /** The alphabet positions of the characters of `s`. */
  function Indices(s: string): (r: seq<int>)
    ensures |r| == |s| && forall k :: 0 <= k < |s| ==> r[k] == SymbolIndex(s[k])
    ensures (forall k :: 0 <= k < |s| ==> IsSymbol(s[k])) ==> InBase(r, 58)
  {
    seq(|s|, k requires 0 <= k < |s| => SymbolIndex(s[k]))
  }

  /** The position of the first character outside the alphabet, or |s| if there is none. */
  function FirstNonSymbol(s: string): (i: nat)
    ensures i <= |s|
    ensures forall k :: 0 <= k < i ==> IsSymbol(s[k])
    ensures i < |s| ==> !IsSymbol(s[i])
  {
    if s == [] || !IsSymbol(s[0]) then 0 else 1 + FirstNonSymbol(s[1..])
  }

  datatype DecodeError = InvalidCharacter(c: char)

  /**
   * What `encode` returns: nothing for an empty buffer; otherwise one '1' per
   * leading zero byte, then the canonical base-58 digits of the whole buffer
   * read as a big-endian number, most significant first (a single '1' when
   * that number is zero).
   */
  function EncodeSpec(b: seq<Byte>): string {
    if |b| == 0 then ""
    else Repeat('1', LeadingZeros(b)) + Spell(ToDigits(BigEndian(b, 256), 58))
  }

  /**
   * What `decode` returns: the first character outside the alphabet is an
   * error; otherwise one zero byte per leading '1', then the canonical base-256
   * digits of the string's base-58 value, LEAST significant byte first.
   */
  function DecodeSpec(s: string): Result<seq<Byte>, DecodeError> {
    if |s| == 0 then Success([])
    else
      var bad := FirstNonSymbol(s);
      if bad < |s| then Failure(InvalidCharacter(s[bad]))
      else
        var payload := ToDigits(BigEndian(Indices(s), 58), 256);
        assert InBase(payload, 256);
        Success(Repeat(0, LeadingOnes(s)) + payload)
  }

  /**
   * One pass of `encode`'s outer loop (lib/base58.js:16-31): every digit is
   * shifted left by 8 bits, the byte is added to the lowest, and carries are
   * propagated and pushed. The result is the canonical base-58 form of
   * 256 times the old value plus the byte, and no 32-bit operator wraps.
   */
  method ShiftInByte(digits: seq<int>, byte: Byte) returns (next: seq<int>)
    requires Canonical(digits, 58)
    ensures Canonical(next, 58)
    ensures LittleEndian(next, 58) == 256 * LittleEndian(digits, 58) + byte
  {
    assert Pow2(8) == 256;
    var spread := digits;
    var j := 0;
    while j < |spread|
      invariant 0 <= j <= |spread| == |digits|
      invariant forall k :: 0 <= k < j ==> spread[k] == 256 * digits[k]
      invariant forall k :: j <= k < |spread| ==> spread[k] == digits[k]
    {
      spread := spread[j := ShiftLeft(spread[j], 8)];
      j := j + 1;
    }
    assert spread == Scale(digits, 256);
    LittleEndianScale(digits, 256, 58);
    LittleEndianUpdate(spread, 0, spread[0] + byte, 58);
    spread := spread[0 := spread[0] + byte];
    var carry;
    next, carry := CarryBase58(spread);
    next := PushBase58(next, carry);
  }

  /** The carry pass of `encode` (lib/base58.js:21-26): digits reduced below 58, the overflow left in `carry`. */
  method CarryBase58(spread: seq<int>) returns (next: seq<int>, carry: int)
    requires |spread| >= 1
    requires forall k :: 0 <= k < |spread| ==> 0 <= spread[k] <= 57 * 256 + 255
    ensures |next| == |spread| && InBase(next, 58) && 0 <= carry <= 260
    ensures LittleEndian(next, 58) + Pow(58, |next|) * carry == LittleEndian(spread, 58)
    ensures |spread| >= 2 && spread[|spread| - 1] >= 256 ==> carry > 0
  {
    next := spread;
    carry := 0;
    var j := 0;
    while j < |next|
      invariant 0 <= j <= |next| == |spread|
      invariant 0 <= carry <= 260
      invariant forall k :: 0 <= k < j ==> 0 <= next[k] < 58
      invariant forall k :: j <= k < |next| ==> next[k] == spread[k]
      invariant LittleEndian(next, 58) + Pow(58, j) * carry == LittleEndian(spread, 58)
      invariant j == |next| && |next| >= 2 && spread[|spread| - 1] >= 256 ==> carry > 0
    {
      ghost var before, x := next, next[j] + carry;
      CarryStep(next, j, carry, 58);
      next := next[j := next[j] + carry];
      carry := DivOrZero(next[j], 58);
      next := next[j := Rem(next[j], 58)];
      assert carry == x / 58 && next == before[j := x % 58];
      j := j + 1;
    }
  }

  /** The push loop of `encode` (lib/base58.js:28-31): the carry becomes new top digits. */
  method PushBase58(digits: seq<int>, carry: int) returns (next: seq<int>)
    requires |digits| >= 1 && InBase(digits, 58) && 0 <= carry <= 260
    requires carry > 0 || |digits| == 1 || digits[|digits| - 1] != 0
    ensures Canonical(next, 58)
    ensures LittleEndian(next, 58) == LittleEndian(digits, 58) + Pow(58, |digits|) * carry
  {
    next := digits;
    var c := carry;
    while c != 0
      invariant 0 <= c <= 260
      invariant |next| >= 1 && InBase(next, 58)
      invariant LittleEndian(next, 58) + Pow(58, |next|) * c
        == LittleEndian(digits, 58) + Pow(58, |digits|) * carry
      invariant c > 0 || |next| == 1 || next[|next| - 1] != 0
      decreases c
    {
      PushStep(next, c, 58);
      next := next + [Rem(c, 58)];
      c := DivOrZero(c, 58);
    }
  }

  /**
   * One pass of `decode`'s outer loop (lib/base58.js:57-72): every byte is
   * multiplied by 58, the symbol's value is added to the lowest, and carries
   * are split off with `>> 8` and `& 0xff` and pushed. The result is the
   * canonical base-256 form of 58 times the old value plus the symbol's.
   */
  method ShiftInSymbol(bytes: seq<int>, value: int) returns (next: seq<int>)
    requires Canonical(bytes, 256) && 0 <= value < 58
    ensures Canonical(next, 256)
    ensures LittleEndian(next, 256) == 58 * LittleEndian(bytes, 256) + value
  {
    var spread := bytes;
    var j := 0;
    while j < |spread|
      invariant 0 <= j <= |spread| == |bytes|
      invariant forall k :: 0 <= k < j ==> spread[k] == 58 * bytes[k]
      invariant forall k :: j <= k < |spread| ==> spread[k] == bytes[k]
    {
      spread := spread[j := spread[j] * 58];
      j := j + 1;
    }
    assert spread == Scale(bytes, 58);
    LittleEndianScale(bytes, 58, 256);
    LittleEndianUpdate(spread, 0, spread[0] + value, 256);
    spread := spread[0 := spread[0] + value];
    var carry;
    next, carry := CarryBase256(spread);
    next := PushBase256(next, carry);
  }

  /** The carry pass of `decode` (lib/base58.js:62-67): bytes reduced with `& 0xff`, the rest carried with `>> 8`. */
  method CarryBase256(spread: seq<int>) returns (next: seq<int>, carry: int)
    requires |spread| >= 1
    requires forall k :: 0 <= k < |spread| ==> 0 <= spread[k] <= 255 * 58 + 57
    ensures |next| == |spread| && InBase(next, 256) && 0 <= carry <= 58
    ensures LittleEndian(next, 256) + Pow(256, |next|) * carry == LittleEndian(spread, 256)
    ensures |spread| >= 2 && spread[|spread| - 1] >= 58 ==> carry > 0 || next[|next| - 1] != 0
  {
    assert Pow2(8) == 256;
    next := spread;
    carry := 0;
    var j := 0;
    while j < |next|
      invariant 0 <= j <= |next| == |spread|
      invariant 0 <= carry <= 58
      invariant forall k :: 0 <= k < j ==> 0 <= next[k] < 256
      invariant forall k :: j <= k < |next| ==> next[k] == spread[k]
      invariant LittleEndian(next, 256) + Pow(256, j) * carry == LittleEndian(spread, 256)
      invariant j == |next| && |next| >= 2 && spread[|spread| - 1] >= 58 ==> carry > 0 || next[|next| - 1] != 0
    {
      ghost var before, x := next, next[j] + carry;
      CarryStep(next, j, carry, 256);
      next := next[j := next[j] + carry];
      carry := ShiftRight(next[j], 8);
      next := next[j := AndLowByte(next[j])];
      assert carry == x / 256 && next == before[j := x % 256];
      j := j + 1;
    }
  }

  /** The push loop of `decode` (lib/base58.js:69-72): the carry becomes new top bytes. */
  method PushBase256(bytes: seq<int>, carry: int) returns (next: seq<int>)
    requires |bytes| >= 1 && InBase(bytes, 256) && 0 <= carry <= 58
    requires carry > 0 || |bytes| == 1 || bytes[|bytes| - 1] != 0
    ensures Canonical(next, 256)
    ensures LittleEndian(next, 256) == LittleEndian(bytes, 256) + Pow(256, |bytes|) * carry
  {
    assert Pow2(8) == 256;
    next := bytes;
    var c := carry;
    while c != 0
      invariant 0 <= c <= 58
      invariant |next| >= 1 && InBase(next, 256)
      invariant LittleEndian(next, 256) + Pow(256, |next|) * c
        == LittleEndian(bytes, 256) + Pow(256, |bytes|) * carry
      invariant c > 0 || |next| == 1 || next[|next| - 1] != 0
      decreases c
    {
      PushStep(next, c, 256);
      next := next + [AndLowByte(c)];
      c := ShiftRight(c, 8);
    }
  }

  /** The outer loop of `encode` (lib/base58.js:14-32): the canonical base-58 digits of the buffer's value. */
  method EncodeValue(buffer: seq<Byte>) returns (digits: seq<int>)
    ensures digits == ToDigits(BigEndian(buffer, 256), 58)
  {
    digits := [0];
    var i := 0;
    while i < |buffer|
      invariant 0 <= i <= |buffer|
      invariant Canonical(digits, 58)
      invariant LittleEndian(digits, 58) == BigEndian(buffer[..i], 256)
    {
      assert buffer[..i + 1] == buffer[..i] + [buffer[i]];
      BigEndianAppend(buffer[..i], buffer[i], 256);
      digits := ShiftInByte(digits, buffer[i]);
      i := i + 1;
    }
    assert buffer[..i] == buffer;
    CanonicalUnique(digits, 58);
  }

  /** The `Base58` object: its alphabet and the map from each symbol to its position. */
  class Base58 {
    const alphabet: string
    const alphabetMap: map<char, int>

    /** The alphabet is the Bitcoin one and the map holds exactly its symbols, each at its position. */
    predicate Valid() {
      && alphabet == ALPHABET
      && (forall c :: c in alphabetMap <==> IsSymbol(c))
      && (forall c :: c in alphabetMap ==> alphabetMap[c] == SymbolIndex(c))
    }

    /** lib/base58.js:3-9: the map is filled by one pass over the alphabet. */
    constructor ()
      ensures Valid()
      ensures forall i :: 0 <= i < |alphabet| ==> alphabet[i] in alphabetMap && alphabetMap[alphabet[i]] == i
    {
      AlphabetIndexed();
      var m: map<char, int> := map[];
      var i := 0;
      while i < |ALPHABET|
        invariant 0 <= i <= |ALPHABET|
        invariant forall c :: c in m <==> c in ALPHABET[..i]
        invariant forall k :: 0 <= k < i ==> ALPHABET[k] in m && m[ALPHABET[k]] == k
      {
        m := m[ALPHABET[i] := i];
        i := i + 1;
      }
      forall c ensures c in m <==> IsSymbol(c) {
        if IsSymbol(c) {
          SymbolAt(c);
          assert ALPHABET[SymbolIndex(c)] in ALPHABET[..i];
        }
      }
      alphabet := ALPHABET;
      alphabetMap := m;
    }

    /** `encode` (lib/base58.js:11-45). */
    method Encode(buffer: seq<Byte>) returns (result: string)
      requires Valid()
      ensures result == EncodeSpec(buffer)
      ensures |buffer| == 0 ==> result == ""
    {
      if |buffer| == 0 {
        return "";
      }
      var digits := EncodeValue(buffer);
      result := ZeroPrefix(buffer);
      result := AppendDigits(result, digits);
    }

    /** The leading '1' loop of `encode` (lib/base58.js:34-38): one '1' per leading zero byte. */
    method ZeroPrefix(buffer: seq<Byte>) returns (ones: string)
      ensures ones == Repeat('1', LeadingZeros(buffer))
    {
      ones := "";
      var i := 0;
      while i < |buffer| && buffer[i] == 0
        invariant 0 <= i <= |buffer|
        invariant ones == Repeat('1', i)
        invariant forall k :: 0 <= k < i ==> buffer[k] == 0
      {
        ones := ones + "1";
        i := i + 1;
      }
      assert i == LeadingZeros(buffer);
    }

    /** The spelling loop of `encode` (lib/base58.js:40-42): digits appended most significant first. */
    method AppendDigits(prefix: string, digits: seq<int>) returns (result: string)
      requires Valid() && InBase(digits, 58)
      ensures result == prefix + Spell(digits)
    {
      result := prefix;
      var k := |digits| - 1;
      while k >= 0
        invariant -1 <= k < |digits|
        invariant result == prefix + Spell(digits[k + 1..])
      {
        assert digits[k..][1..] == digits[k + 1..];
        result := result + [alphabet[digits[k]]];
        k := k - 1;
      }
      assert digits[0..] == digits;
    }

    /**
     * The outer loop of `decode` (lib/base58.js:50-73): a failure naming the
     * first character outside the alphabet, or the canonical base-256 digits
     * of the string's base-58 value.
     */
    method DecodeValue(s: string) returns (r: Result<seq<int>, DecodeError>)
      requires Valid() && |s| > 0
      ensures var bad := FirstNonSymbol(s);
        if bad < |s| then r == Failure(InvalidCharacter(s[bad]))
        else r == Success(ToDigits(BigEndian(Indices(s), 58), 256))
    {
      var bytes := [0];
      var i := 0;
      while i < |s|
        invariant 0 <= i <= |s|
        invariant forall k :: 0 <= k < i ==> IsSymbol(s[k])
        invariant Canonical(bytes, 256)
        invariant LittleEndian(bytes, 256) == BigEndian(Indices(s[..i]), 58)
      {
        var c := s[i];
        if c !in alphabetMap {
          assert FirstNonSymbol(s) == i;
          return Failure(InvalidCharacter(c));
        }
        IndicesSnoc(s, i);
        bytes := ShiftInSymbol(bytes, alphabetMap[c]);
        i := i + 1;
      }
      assert s[..i] == s;
      CanonicalUnique(bytes, 256);
      r := Success(bytes);
    }

    /** `decode` (lib/base58.js:47-84). */
    method Decode(s: string) returns (r: Result<seq<Byte>, DecodeError>)
      requires Valid()
      ensures r == DecodeSpec(s)
      ensures |s| == 0 ==> r == Success([])
    {
      if |s| == 0 {
        return Success([]);
      }
      var value := DecodeValue(s);
      if value.Failure? {
        return Failure(value.error);
      }
      var out := PrependZeros(s, value.value);
      r := Success(out);
    }
  }

  /** The leading '1' loop of `decode` (lib/base58.js:75-81): one zero byte put in front per leading '1'. */
  method PrependZeros(s: string, bytes: seq<int>) returns (out: seq<Byte>)
    requires InBase(bytes, 256)
    ensures out == Repeat(0, LeadingOnes(s)) + bytes
  {
    out := bytes;
    var i := 0;
    while i < |s| && s[i] == '1'
      invariant 0 <= i <= |s|
      invariant out == Repeat(0, i) + bytes
      invariant forall k :: 0 <= k < i ==> s[k] == '1'
    {
      assert [0] + (Repeat(0, i) + bytes) == Repeat(0, i + 1) + bytes;
      out := [0] + out;
      i := i + 1;
    }
    assert i == LeadingOnes(s);
  }


  // ---------------------------------------------------------------------
  // What encode and decode promise their callers
  // ---------------------------------------------------------------------

  /** '1', the symbol for zero, is the only symbol whose value is zero. */
  lemma ZeroSymbol(x: int)
    requires 0 <= x < 58
    ensures ALPHABET[x] == '1' <==> x == 0
  {
    AlphabetIndexed();
    assert SymbolIndex('1') == 0;
  }

  lemma {:induction false} LeadingOnesPrefix(z: nat, t: string)
    ensures LeadingOnes(Repeat('1', z) + t) == z + LeadingOnes(t)
  {
    if z > 0 {
      assert (Repeat('1', z) + t)[1..] == Repeat('1', z - 1) + t;
      LeadingOnesPrefix(z - 1, t);
    } else {
      assert Repeat('1', 0) + t == t;
    }
  }

  /** One more character read moves the base-58 value up one place. */
  lemma IndicesSnoc(s: string, i: nat)
    requires i < |s|
    ensures BigEndian(Indices(s[..i + 1]), 58) == 58 * BigEndian(Indices(s[..i]), 58) + SymbolIndex(s[i])
  {
    assert Indices(s[..i + 1]) == Indices(s[..i]) + [SymbolIndex(s[i])];
    BigEndianAppend(Indices(s[..i]), SymbolIndex(s[i]), 58);
  }

  lemma IndicesAppend(a: string, b: string)
    ensures Indices(a + b) == Indices(a) + Indices(b)
  {
  }

  /** Spelled digits read back as alphabet positions give the digits most significant first. */
  lemma SpellIndices(d: seq<int>)
    requires InBase(d, 58)
    ensures forall k :: 0 <= k < |d| ==> IsSymbol(Spell(d)[k])
    ensures Indices(Spell(d)) == Reverse(d)
  {
    AlphabetIndexed();
    ReverseIndex(d);
  }

  /** Every character `encode` produces is accepted by SymbolIndex. */
  lemma EncodeSymbols(b: seq<Byte>)
    ensures forall k :: 0 <= k < |EncodeSpec(b)| ==> IsSymbol(EncodeSpec(b)[k])
  {
    if |b| > 0 {
      var z := LeadingZeros(b);
      var d := ToDigits(BigEndian(b, 256), 58);
      var e := EncodeSpec(b);
      assert e == Repeat('1', z) + Spell(d);
      SpellIndices(d);
      forall k | 0 <= k < |e| ensures IsSymbol(e[k]) {
        if k >= z {
          assert e[k] == Spell(d)[k - z];
        }
      }
    }
  }

  /** Every character `encode` produces is a symbol of the alphabet. */
  lemma EncodeInAlphabet(b: seq<Byte>)
    ensures forall k :: 0 <= k < |EncodeSpec(b)| ==> EncodeSpec(b)[k] in ALPHABET
  {
    EncodeSymbols(b);
    AlphabetMembers();
  }

  /** A buffer with a nonzero byte: one '1' per leading zero byte, then a symbol other than '1'. */
  lemma EncodeLeadingOnes(b: seq<Byte>)
    requires LeadingZeros(b) < |b|
    ensures LeadingOnes(EncodeSpec(b)) == LeadingZeros(b)
    ensures |EncodeSpec(b)| > LeadingZeros(b)
  {
    var z := LeadingZeros(b);
    var d := ToDigits(BigEndian(b, 256), 58);
    assert d[|d| - 1] != 0 by {
      BigEndianPositive(b);
      if |d| == 1 {
        assert LittleEndian(d, 58) == d[0] + 58 * LittleEndian(d[1..], 58);
        assert d[1..] == [];
      }
    }
    assert Spell(d)[0] != '1' by {
      ZeroSymbol(d[|d| - 1]);
    }
    LeadingOnesPrefix(z, Spell(d));
  }

  /** The value of a buffer whose first nonzero byte is at `LeadingZeros(b)` is positive and is the value of its tail. */
  lemma BigEndianPositive(b: seq<Byte>)
    requires LeadingZeros(b) < |b|
    ensures BigEndian(b, 256) == BigEndian(b[LeadingZeros(b)..], 256) > 0
  {
    var z := LeadingZeros(b);
    var tail: seq<int> := b[z..];
    assert BigEndian(b, 256) == BigEndian(tail, 256) by {
      SplitZeros(b);
      BigEndianLeadingZeros(z, tail, 256);
    }
    assert BigEndian(tail, 256) > 0 by {
      var r := Reverse(tail);
      ReverseIndex(tail);
      assert InBase(r, 256) && r[|r| - 1] == tail[0] != 0;
      LittleEndianPositive(r, 256);
      ReverseValue(tail, 256);
    }
  }

  /** An all-zero buffer of length n encodes as n + 1 '1's: one per zero byte and one for the value zero. */
  lemma EncodeAllZeros(n: nat)
    requires n >= 1
    ensures EncodeSpec(Repeat(0, n)) == Repeat('1', n + 1)
  {
    var b: seq<Byte> := Repeat(0, n);
    BigEndianLeadingZeros(n, [], 256);
    assert b == Repeat(0, n) + [];
    assert ToDigits(0, 58) == [0];
    AlphabetIndexed();
    assert Spell([0]) == [ALPHABET[0]];
  }

  /** `decode` fails exactly when the string holds a character outside the alphabet, and names one such character. */
  lemma DecodeFailure(s: string)
    ensures DecodeSpec(s).Failure? <==> exists k :: 0 <= k < |s| && s[k] !in ALPHABET
    ensures DecodeSpec(s).Failure? ==> DecodeSpec(s).error.c in s && DecodeSpec(s).error.c !in ALPHABET
  {
    AlphabetMembers();
  }

  /** The alphabet holds exactly the characters SymbolIndex accepts. */
  lemma AlphabetMembers()
    ensures forall c :: c in ALPHABET <==> IsSymbol(c)
  {
    AlphabetIndexed();
    forall c | c in ALPHABET ensures IsSymbol(c) {
      var i :| 0 <= i < |ALPHABET| && ALPHABET[i] == c;
    }
    forall c | IsSymbol(c) ensures c in ALPHABET {
      SymbolAt(c);
    }
  }

  /**
   * A successful decode: one zero byte per leading '1', then bytes whose
   * least-significant-first value is the base-58 value of the string.
   */
  lemma DecodeValueMeaning(s: string)
    requires DecodeSpec(s).Success? && |s| > 0
    ensures var out := DecodeSpec(s).value;
      && LeadingOnes(s) < |out|
      && out[..LeadingOnes(s)] == Repeat(0, LeadingOnes(s))
      && LittleEndian(out[LeadingOnes(s)..], 256) == BigEndian(Indices(s), 58)
  {
    var z := LeadingOnes(s);
    var out := DecodeSpec(s).value;
    var payload := ToDigits(BigEndian(Indices(s), 58), 256);
    assert out == Repeat(0, z) + payload;
    assert out[z..] == payload;
  }

  /** The canonical bytes of a buffer's value, least significant first, are its bytes after the leading zeros, reversed. */
  lemma ReversedTail(b: seq<Byte>)
    requires LeadingZeros(b) < |b|
    ensures ToDigits(BigEndian(b, 256), 256) == Reverse<int>(b[LeadingZeros(b)..])
  {
    var z := LeadingZeros(b);
    var tail: seq<int> := b[z..];
    var r := Reverse(tail);
    assert Canonical(r, 256) by {
      ReverseIndex(tail);
      assert r[|r| - 1] == tail[0] != 0;
    }
    assert LittleEndian(r, 256) == BigEndian(b, 256) by {
      BigEndianPositive(b);
      ReverseValue(tail, 256);
    }
    CanonicalUnique(r, 256);
    ReverseBytes(b[z..]);
  }

  /** Reversing bytes is the same whether they are seen as bytes or as integers. */
  lemma ReverseBytes(b: seq<Byte>)
    ensures Reverse<Byte>(b) == Reverse<int>(b)
  {
    var x: seq<int> := Reverse<Byte>(b);
    var y: seq<int> := Reverse<int>(b);
    ReverseIndex<Byte>(b);
    ReverseIndex<int>(b);
    assert |x| == |y|;
    assert forall k :: 0 <= k < |x| ==> x[k] == y[k];
  }

  /** Every character of an encoding passes decode's alphabet check. */
  lemma EncodeSymbolsOnly(b: seq<Byte>)
    ensures FirstNonSymbol(EncodeSpec(b)) == |EncodeSpec(b)|
  {
    EncodeSymbols(b);
  }

  /** The alphabet positions of an encoding: zeros for the leading '1's, then the digits most significant first. */
  lemma EncodeIndices(b: seq<Byte>)
    requires |b| > 0
    ensures Indices(EncodeSpec(b)) == Repeat(0, LeadingZeros(b)) + Reverse(ToDigits(BigEndian(b, 256), 58))
  {
    var z := LeadingZeros(b);
    var d := ToDigits(BigEndian(b, 256), 58);
    assert EncodeSpec(b) == Repeat('1', z) + Spell(d);
    IndicesAppend(Repeat('1', z), Spell(d));
    SpellIndices(d);
    assert SymbolIndex('1') == 0;
    assert Indices(Repeat('1', z)) == Repeat(0, z);
  }

  /** The encoding of a buffer with a nonzero byte, read back symbol by symbol. */
  lemma EncodeReadBack(b: seq<Byte>)
    requires LeadingZeros(b) < |b|
    ensures var e := EncodeSpec(b);
      && |e| > 0
      && FirstNonSymbol(e) == |e|
      && LeadingOnes(e) == LeadingZeros(b)
      && BigEndian(Indices(e), 58) == BigEndian(b, 256)
  {
    var z := LeadingZeros(b);
    var d := ToDigits(BigEndian(b, 256), 58);
    EncodeLeadingOnes(b);
    EncodeSymbolsOnly(b);
    EncodeIndices(b);
    BigEndianLeadingZeros(z, Reverse(d), 58);
    ReverseValue(Reverse(d), 58);
    ReverseReverse(d);
  }

  /** Decoding a string made only of symbols. */
  lemma DecodeSymbols(s: string)
    requires |s| > 0 && FirstNonSymbol(s) == |s|
    ensures DecodeSpec(s) == Success(Repeat(0, LeadingOnes(s)) + ToDigits(BigEndian(Indices(s), 58), 256))
  {
  }

  /**
   * The round trip as the code has it: for a buffer with a nonzero byte,
   * decoding its encoding keeps the leading zero bytes but returns the rest
   * reversed.
   */
  lemma RoundTripReversesPayload(b: seq<Byte>)
    requires LeadingZeros(b) < |b|
    ensures DecodeSpec(EncodeSpec(b)) == Success(Repeat(0, LeadingZeros(b)) + Reverse(b[LeadingZeros(b)..]))
  {
    var z := LeadingZeros(b);
    DecodeEncoding(b);
    ReversedTail(b);
    ReverseBytes(b[z..]);
    assert Repeat<int>(0, z) == Repeat<Byte>(0, z);
  }

  /** Decoding the encoding of a buffer with a nonzero byte gives its leading zeros, then its value's bytes. */
  lemma DecodeEncoding(b: seq<Byte>)
    requires LeadingZeros(b) < |b|
    ensures BigEndian(b, 256) > 0
    ensures DecodeSpec(EncodeSpec(b)) == Success(Repeat(0, LeadingZeros(b)) + ToDigits(BigEndian(b, 256), 256))
  {
    var e := EncodeSpec(b);
    BigEndianPositive(b);
    EncodeReadBack(b);
    DecodeSymbols(e);
  }

  /**
   * So the exact round trip holds for a buffer with a nonzero byte exactly
   * when the bytes after its leading zeros read the same backwards.
   */
  lemma RoundTripExactIff(b: seq<Byte>)
    requires LeadingZeros(b) < |b|
    ensures DecodeSpec(EncodeSpec(b)) == Success(b) <==> Reverse(b[LeadingZeros(b)..]) == b[LeadingZeros(b)..]
  {
    var z := LeadingZeros(b);
    var zeros, tail := Repeat<Byte>(0, z), b[z..];
    RoundTripReversesPayload(b);
    SplitZeros(b);
    assert Repeat<int>(0, z) == zeros;
    PrefixCancel(zeros, Reverse(tail), tail);
  }

  /** A digit list is its leading zeros followed by the rest. */
  lemma SplitZeros(b: seq<int>)
    ensures b == Repeat(0, LeadingZeros(b)) + b[LeadingZeros(b)..]
  {
    var z := LeadingZeros(b);
    var r := Repeat(0, z) + b[z..];
    assert |r| == |b|;
    forall k | 0 <= k < |b| ensures r[k] == b[k] {
      if k < z {
        assert r[k] == 0;
      }
    }
  }

  lemma PrefixCancel<T>(p: seq<T>, x: seq<T>, y: seq<T>)
    ensures p + x == p + y <==> x == y
  {
    if p + x == p + y {
      assert x == (p + x)[|p|..];
    }
  }

  /** An all-zero buffer of length n comes back from the round trip with two extra zero bytes. */
  lemma RoundTripAllZeros(n: nat)
    requires n >= 1
    ensures DecodeSpec(EncodeSpec(Repeat(0, n))) == Success(Repeat(0, n + 2))
  {
    EncodeAllZeros(n);
    var e := Repeat('1', n + 1);
    assert SymbolIndex('1') == 0;
    assert FirstNonSymbol(e) == |e|;
    assert LeadingOnes(e) == n + 1 by {
      LeadingOnesPrefix(n + 1, "");
      assert e + "" == e;
    }
    assert BigEndian(Indices(e), 58) == 0 by {
      assert Indices(e) == Repeat(0, n + 1) + [];
      BigEndianLeadingZeros(n + 1, [], 58);
    }
    DecodeSymbols(e);
    assert ToDigits(0, 256) == [0];
    assert Repeat<int>(0, n + 1) + [0] == Repeat<Byte>(0, n + 2);
  }

  /** The bytes [1, 2] encode as "5T", which decodes to [2, 1]. */
  lemma RoundTripSwapsTwoBytes()
    ensures EncodeSpec([1, 2]) == "5T"
    ensures DecodeSpec("5T") == Success([2, 1])
  {
    EncodeTwoBytes();
    DecodeTwoSymbols();
  }

  lemma EncodeTwoBytes()
    ensures EncodeSpec([1, 2]) == "5T"
  {
    var b: seq<Byte> := [1, 2];
    assert b[..1] == [1] && [1][..0] == [];
    assert BigEndian(b, 256) == 258;
    assert ToDigits(4, 58) == [4];
    DivUnique(258, 58, 4, 26);
    assert ToDigits(258, 58) == [26, 4];
    assert Spell([26, 4]) == Spell([4]) + [ALPHABET[26]];
    assert Spell([4]) == [ALPHABET[4]];
    SymbolAt('5');
    SymbolAt('T');
    assert LeadingZeros(b) == 0;
  }

  lemma DecodeTwoSymbols()
    ensures DecodeSpec("5T") == Success([2, 1])
  {
    var s := "5T";
    assert IsSymbol(s[0]) && IsSymbol(s[1]) && s[0] != '1';
    assert FirstNonSymbol(s[1..]) == 1;
    assert FirstNonSymbol(s) == 2;
    assert LeadingOnes(s) == 0;
    assert Indices(s) == [4, 26];
    assert [4, 26][..1] == [4] && [4][..0] == [];
    assert BigEndian([4, 26], 58) == 258;
    assert ToDigits(1, 256) == [1];
    DivUnique(258, 256, 1, 2);
    assert ToDigits(258, 256) == [2, 1];
    DecodeSymbols(s);
    assert Repeat<int>(0, 0) + [2, 1] == [2, 1];
  }

  /**
   * The other round trip fails too: "5T" decodes to [2, 1], whose encoding
   * is "9r".
   */
  lemma RoundTripTextSwaps()
    ensures DecodeSpec("5T") == Success([2, 1])
    ensures EncodeSpec([2, 1]) == "9r"
  {
    DecodeTwoSymbols();
    var b: seq<Byte> := [2, 1];
    assert b[..1] == [2] && [2][..0] == [];
    assert BigEndian(b, 256) == 513;
    assert ToDigits(8, 58) == [8];
    DivUnique(513, 58, 8, 49);
    assert ToDigits(513, 58) == [49, 8];
    assert Spell([49, 8]) == Spell([8]) + [ALPHABET[49]];
    assert Spell([8]) == [ALPHABET[8]];
    SymbolAt('9');
    SymbolAt('r');
    assert LeadingZeros(b) == 0;
  }

  /** The single zero byte encodes as "11", which decodes to three zero bytes. */
  lemma RoundTripGrowsZero()
    ensures EncodeSpec([0]) == "11"
    ensures DecodeSpec("11") == Success([0, 0, 0])
  {
    EncodeAllZeros(1);
    RoundTripAllZeros(1);
    assert Repeat<Byte>(0, 1) == [0];
    assert Repeat('1', 2) == "11";
    assert Repeat<Byte>(0, 3) == [0, 0, 0];
  }
}
