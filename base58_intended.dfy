/**
 * The Base58 codec as its callers evidently expect it to behave (the
 * textbook scheme of draft-msporny-base58, sections 3 and 4): the value zero
 * contributes no digit, and decoding returns the value's bytes most
 * significant first. The as-written codec in Base58Codec differs in exactly
 * these two places; here the exact round trip holds for every buffer.
 */
module Base58Intended {
  import opened Digits
  import opened Outcomes
  import opened Base58Codec

  /** The digits of a value with no digit at all for zero, least significant first. */
  function Significant(n: nat, base: nat): (d: seq<int>)
    requires base >= 2
    ensures InBase(d, base)
  {
    if n == 0 then [] else ToDigits(n, base)
  }

  /** Corrected `encode`: one '1' per leading zero byte, then the digits of a nonzero value. */
  function Encode(b: seq<Byte>): string {
    Repeat('1', LeadingZeros(b)) + Spell(Significant(BigEndian(b, 256), 58))
  }

  /** Corrected `decode`: one zero byte per leading '1', then the value's bytes most significant first. */
  function Decode(s: string): Result<seq<Byte>, DecodeError> {
    var bad := FirstNonSymbol(s);
    if bad < |s| then Failure(InvalidCharacter(s[bad]))
    else
      var payload := Reverse(Significant(BigEndian(Indices(s), 58), 256));
      ReverseInBase(Significant(BigEndian(Indices(s), 58), 256), 256);
      Success(Repeat(0, LeadingOnes(s)) + payload)
  }

  lemma ReverseInBase(d: seq<int>, base: nat)
    requires InBase(d, base)
    ensures InBase(Reverse(d), base)
  {
    ReverseIndex(d);
  }

  /** Where the buffer has a nonzero byte, the corrected encoder agrees with the code as written. */
  lemma EncodeAgrees(b: seq<Byte>)
    requires LeadingZeros(b) < |b|
    ensures Encode(b) == EncodeSpec(b)
  {
    BigEndianPositive(b);
  }

  /** The exact round trip: decoding an encoding gives the buffer back, for every buffer. */
  lemma RoundTrip(b: seq<Byte>)
    ensures Decode(Encode(b)) == Success(b)
  {
    if LeadingZeros(b) < |b| {
      RoundTripNonzero(b);
    } else {
      RoundTripZeros(b);
    }
  }

  lemma RoundTripNonzero(b: seq<Byte>)
    requires LeadingZeros(b) < |b|
    ensures Decode(Encode(b)) == Success(b)
  {
    var z := LeadingZeros(b);
    var v := BigEndian(b, 256);
    var e := Encode(b);
    var tail: seq<int> := b[z..];
    assert e == EncodeSpec(b) && v > 0 by {
      EncodeAgrees(b);
      BigEndianPositive(b);
    }
    assert FirstNonSymbol(e) == |e| && LeadingOnes(e) == z && BigEndian(Indices(e), 58) == v by {
      EncodeReadBack(b);
    }
    assert Reverse(Significant(v, 256)) == tail by {
      ReversedTail(b);
      ReverseReverse(tail);
    }
    calc {
      Decode(e);
    == { DecodeText(e); }
      Success(Repeat(0, z) + Reverse(Significant(v, 256)));
    ==
      Success(Repeat(0, z) + tail);
    == { SplitZeros(b); }
      Success(b);
    }
  }

  /** Decoding a string made only of symbols: its leading zeros, then its value's bytes. */
  lemma DecodeText(s: string)
    requires FirstNonSymbol(s) == |s|
    ensures Decode(s) == Success(Repeat(0, LeadingOnes(s)) + Reverse(Significant(BigEndian(Indices(s), 58), 256)))
  {
  }

  /**
   * The other round trip: a string made only of alphabet symbols decodes,
   * and encoding what it decodes to gives the string back.
   */
  lemma RoundTripText(s: string)
    requires FirstNonSymbol(s) == |s|
    ensures Decode(s).Success? && Encode(Decode(s).value) == s
  {
    var z := LeadingOnes(s);
    var v := BigEndian(Indices(s), 58);
    DecodedBytes(s);
    var b := Decode(s).value;
    calc {
      Encode(b);
    ==
      Repeat('1', LeadingZeros(b)) + Spell(Significant(BigEndian(b, 256), 58));
    ==
      Repeat('1', z) + Spell(Significant(v, 58));
    == { SymbolTextDigits(s); }
      Repeat('1', z) + s[z..];
    == { OnesSplit(s); }
      s;
    }
  }

  /** A string is its leading '1's followed by the rest. */
  lemma OnesSplit(s: string)
    ensures s == Repeat('1', LeadingOnes(s)) + s[LeadingOnes(s)..]
  {
  }

  /** What a symbol string decodes to: one leading zero byte per leading '1', and the string's value. */
  lemma DecodedBytes(s: string)
    requires FirstNonSymbol(s) == |s|
    ensures Decode(s).Success?
    ensures LeadingZeros(Decode(s).value) == LeadingOnes(s)
    ensures BigEndian(Decode(s).value, 256) == BigEndian(Indices(s), 58)
  {
    var z := LeadingOnes(s);
    var v := BigEndian(Indices(s), 58);
    var payload := Reverse(Significant(v, 256));
    assert Decode(s).value == Repeat(0, z) + payload;
    PayloadShape(v);
    DecodedLeadingZeros(z, payload);
  }

  /** The bytes decode puts after the zeros: a value's bytes most significant first, with no leading zero. */
  lemma PayloadShape(v: nat)
    ensures var payload := Reverse(Significant(v, 256));
      (payload == [] || payload[0] != 0) && BigEndian(payload, 256) == v
  {
    var bytes := Significant(v, 256);
    ReverseIndex(bytes);
    ReverseValue(Reverse(bytes), 256);
    ReverseReverse(bytes);
  }

  /** The digits encode spells for a symbol string's value are the symbols after its leading '1's. */
  lemma SymbolTextDigits(s: string)
    requires FirstNonSymbol(s) == |s|
    ensures Spell(Significant(BigEndian(Indices(s), 58), 58)) == s[LeadingOnes(s)..]
  {
    var t := s[LeadingOnes(s)..];
    var rest := Indices(t);
    SymbolTextHead(s);
    SymbolTextValue(s);
    SignificantDigits(rest);
    var r := Reverse(rest);
    ReverseInBase(rest, 58);
    SpellReadBack(t, r);
  }

  /** The symbols after the leading '1's: base-58 positions, the first of which is not zero. */
  lemma SymbolTextHead(s: string)
    requires FirstNonSymbol(s) == |s|
    ensures var rest := Indices(s[LeadingOnes(s)..]);
      InBase(rest, 58) && (rest == [] || rest[0] != 0)
  {
    var z := LeadingOnes(s);
    var t := s[z..];
    if t != [] {
      assert t[0] == s[z] && s[z] != '1' && IsSymbol(s[z]);
    }
  }

  /** The leading '1's add nothing to the value of a string. */
  lemma SymbolTextValue(s: string)
    ensures BigEndian(Indices(s), 58) == BigEndian(Indices(s[LeadingOnes(s)..]), 58)
  {
    OnesIndices(s);
    BigEndianLeadingZeros(LeadingOnes(s), Indices(s[LeadingOnes(s)..]), 58);
  }

  /** The leading '1's of a symbol string stand for zeros. */
  lemma OnesIndices(s: string)
    ensures Indices(s) == Repeat(0, LeadingOnes(s)) + Indices(s[LeadingOnes(s)..])
  {
    var z := LeadingOnes(s);
    assert s == s[..z] + s[z..];
    IndicesAppend(s[..z], s[z..]);
    assert SymbolIndex('1') == 0;
    assert Indices(s[..z]) == Repeat(0, z);
  }

  /** Base-58 positions with a nonzero first one are the value's digits, most significant first. */
  lemma SignificantDigits(rest: seq<int>)
    requires InBase(rest, 58) && (rest == [] || rest[0] != 0)
    ensures Significant(BigEndian(rest, 58), 58) == Reverse(rest)
  {
    var r := Reverse(rest);
    ReverseValue(rest, 58);
    if rest != [] {
      ReverseIndex(rest);
      assert r[|r| - 1] == rest[0];
      LittleEndianPositive(r, 58);
      CanonicalUnique(r, 58);
    }
  }

  /** Spelling the reversed positions of a symbol string gives the string. */
  lemma SpellReadBack(t: string, d: seq<int>)
    requires forall k :: 0 <= k < |t| ==> IsSymbol(t[k])
    requires d == Reverse(Indices(t)) && InBase(d, 58)
    ensures Spell(d) == t
  {
    var spelled := Spell(d);
    ReverseIndex(Indices(t));
    forall k | 0 <= k < |t|
      ensures spelled[k] == t[k]
    {
      var j := |d| - 1 - k;
      assert d[j] == Indices(t)[k] == SymbolIndex(t[k]);
      assert spelled[k] == ALPHABET[d[j]];
      SymbolAt(t[k]);
    }
  }

  /** Zero bytes put in front of a payload without a leading zero are its leading zeros, and add no value. */
  lemma DecodedLeadingZeros(z: nat, payload: seq<int>)
    requires payload == [] || payload[0] != 0
    ensures LeadingZeros(Repeat(0, z) + payload) == z
    ensures BigEndian(Repeat(0, z) + payload, 256) == BigEndian(payload, 256)
  {
    var b := Repeat(0, z) + payload;
    assert forall i :: 0 <= i < z ==> b[i] == 0;
    assert z < |b| ==> b[z] == payload[0];
    BigEndianLeadingZeros(z, payload, 256);
  }

  lemma RoundTripZeros(b: seq<Byte>)
    requires LeadingZeros(b) == |b|
    ensures Decode(Encode(b)) == Success(b)
  {
    var n := |b|;
    EncodeZeros(b);
    DecodeOnes(n);
    var zeros: seq<Byte> := Repeat(0, n);
    assert b == zeros;
    assert Encode(b) == Repeat('1', n);
    assert Decode(Repeat('1', n)) == Success(zeros);
  }

  /** A buffer of zero bytes becomes one '1' per byte. */
  lemma EncodeZeros(b: seq<Byte>)
    requires LeadingZeros(b) == |b|
    ensures Encode(b) == Repeat('1', |b|)
  {
    var n := |b|;
    assert b == Repeat(0, n);
    assert BigEndian(b, 256) == 0 by {
      BigEndianLeadingZeros(n, [], 256);
      assert Repeat(0, n) + [] == Repeat(0, n);
    }
    assert Repeat('1', n) + "" == Repeat('1', n);
  }

  /** A run of '1's becomes as many zero bytes. */
  lemma DecodeOnes(n: nat)
    ensures Decode(Repeat('1', n)) == Success(Repeat<Byte>(0, n))
  {
    var e := Repeat('1', n);
    assert SymbolIndex('1') == 0;
    assert FirstNonSymbol(e) == |e|;
    assert LeadingOnes(e) == n by {
      LeadingOnesPrefix(n, "");
      assert e + "" == e;
    }
    assert BigEndian(Indices(e), 58) == 0 by {
      assert Indices(e) == Repeat(0, n) + [];
      BigEndianLeadingZeros(n, [], 58);
    }
    assert Repeat<int>(0, n) + [] == Repeat<Byte>(0, n);
  }

  /** "5T", the encoding of [1, 2], now decodes to [1, 2]. */
  lemma CorrectedTwoBytes()
    ensures Encode([1, 2]) == "5T"
    ensures Decode("5T") == Success([1, 2])
  {
    var b: seq<Byte> := [1, 2];
    assert LeadingZeros(b) == 0;
    EncodeAgrees(b);
    EncodeTwoBytes();
    RoundTrip(b);
  }

  /** The single zero byte now encodes as "1", which decodes back to it. */
  lemma CorrectedZeroByte()
    ensures Encode([0]) == "1"
    ensures Decode("1") == Success([0])
  {
    var b: seq<Byte> := [0];
    assert LeadingZeros(b) == 1 by {
      assert b[1..] == [];
    }
    assert BigEndian(b, 256) == 0 by {
      assert b[..0] == [];
    }
    assert Encode(b) == Repeat('1', 1) + Spell([]);
    assert Repeat('1', 1) == "1";
    RoundTrip(b);
  }
}
