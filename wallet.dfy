/**
 * The Novara wallet manager: a 32-bit rolling string hash (named `sha256`
 * in the program, though it is not SHA-256), the key and address
 * derivations built on it, and the wallet table with its current selection.
 *
 * Random bytes, the clock and the creation date are parameters. Storage is
 * not modelled: the table starts as whatever map was stored.
 */
module Wallet {
  import opened Outcomes
  import opened Digits
  import opened JsNumber
  import opened Numerals
  import opened JsString

  // ---------------------------------------------------------------------
  // The rolling hash
  // ---------------------------------------------------------------------

  /** The UTF-16 code units of one character (a surrogate pair above U+FFFF). */
  function Utf16(c: char): (u: seq<int>)
    ensures 1 <= |u| <= 2 && forall i :: 0 <= i < |u| ==> 0 <= u[i] < 0x1_0000
  {
    var v := c as int;
    if v < 0x1_0000 then [v]
    else [0xD800 + (v - 0x1_0000) / 0x400, 0xDC00 + (v - 0x1_0000) % 0x400]
  }

  /** What `length` counts and `charCodeAt` returns: the string's UTF-16 code units. */
  function CodeUnits(s: string): (u: seq<int>)
    ensures |u| >= |s|
    ensures forall i :: 0 <= i < |u| ==> 0 <= u[i] < 0x1_0000
  {
    if s == [] then [] else Utf16(s[0]) + CodeUnits(s[1..])
  }

  /**
   * One step of the loop: `((hash << 5) - hash) + char`, then `hash & hash`.
   * It multiplies by 31 and adds the unit, wrapped to signed 32 bits.
   */
  function HashStep(hash: int, unit: int): (h: int)
    requires IsInt32(hash)
    ensures h == ToInt32(31 * hash + unit)
  {
    TimesThirtyOne(hash, unit);
    AndSelf(ShiftLeft(hash, 5) - hash + unit)
  }

  /** Shifting left by 5 and subtracting once is multiplying by 31, modulo 2^32. */
  lemma TimesThirtyOne(hash: int, unit: int)
    requires IsInt32(hash)
    ensures AndSelf(ShiftLeft(hash, 5) - hash + unit) == ToInt32(31 * hash + unit)
  {
    var shifted := ToInt32(hash * 32);
    assert ShiftLeft(hash, 5) == shifted;
    var k := (hash * 32 - shifted) / TWO_32;
    assert hash * 32 - shifted == k * TWO_32;
    assert (shifted - hash + unit) - (31 * hash + unit) == (-k) * TWO_32;
    ToInt32Congruent(shifted - hash + unit, 31 * hash + unit);
  }

  /**
   * The accumulator after the loop has consumed `units`, starting from 0:
   * the polynomial hash of the units wrapped to signed 32 bits.
   */
  function HashUnits(units: seq<int>): (h: int)
    ensures IsInt32(h)
    ensures h == ToInt32(Polynomial(units))
  {
    if units == [] then 0
    else
      var init, unit := units[..|units| - 1], units[|units| - 1];
      StepCongruent(HashUnits(init), Polynomial(init), unit);
      HashStep(HashUnits(init), unit)
  }

  /** The accumulator after one more unit, as the loop computes it. */
  lemma HashUnitsNext(units: seq<int>, i: nat, hash: int, sum: int)
    requires i < |units| && hash == HashUnits(units[..i])
    requires sum == ShiftLeft(hash, 5) - hash + units[i]
    ensures HashUnits(units[..i + 1]) == AndSelf(sum)
  {
    var next := units[..i + 1];
    assert next[..|next| - 1] == units[..i] && next[|next| - 1] == units[i];
    assert HashUnits(next) == HashStep(hash, units[i]);
  }

  function Hash(message: string): int {
    HashUnits(CodeUnits(message))
  }

  /** The unwrapped polynomial: sum of unit[i] * 31^(n-1-i). */
  function Polynomial(units: seq<int>): int {
    if units == [] then 0 else 31 * Polynomial(units[..|units| - 1]) + units[|units| - 1]
  }

  function Abs(x: int): nat {
    if x < 0 then -x else x
  }

  /** `Math.abs(hash).toString(16).padStart(64, '0')`. */
  function Digest(hash: int): string {
    PadStart(Numeral(Abs(hash), 16), 64, '0')
  }

  /**
   * What `sha256(message)` returns: 64 lower-case hex characters, the first
   * 56 of them '0', reading back as the absolute value of the hash.
   */
  function HashDigest(message: string): (digest: string)
    ensures |digest| == 64
    ensures forall i :: 0 <= i < 56 ==> digest[i] == '0'
    ensures forall i :: 0 <= i < 64 ==> IsLowerHexDigit(digest[i])
    ensures ParseNumeral(digest, 16) == Abs(Hash(message))
  {
    DigestShape(Hash(message));
    Digest(Hash(message))
  }

  /** Congruent accumulators stay congruent after a step. */
  lemma StepCongruent(h: int, p: int, u: int)
    requires h == ToInt32(p)
    ensures ToInt32(31 * h + u) == ToInt32(31 * p + u)
  {
    assert (h - p) % TWO_32 == 0;
    MultipleScaled(h - p);
    assert (31 * h + u) - (31 * p + u) == 31 * (h - p);
    ToInt32Congruent(31 * h + u, 31 * p + u);
  }

  lemma MultipleScaled(d: int)
    requires d % 0x1_0000_0000 == 0
    ensures (31 * d) % 0x1_0000_0000 == 0
  {
    var k := d / 0x1_0000_0000;
    assert 31 * d == (31 * k) * 0x1_0000_0000;
  }

  /**
   * Every digest is 64 lower-case hex characters, the first 56 of them '0',
   * and reads back as the absolute value of the hash.
   */
  lemma DigestShape(hash: int)
    requires IsInt32(hash)
    ensures var d := Digest(hash);
      |d| == 64
      && (forall i :: 0 <= i < 56 ==> d[i] == '0')
      && (forall i :: 0 <= i < 64 ==> IsLowerHexDigit(d[i]))
      && ParseNumeral(d, 16) == Abs(hash)
  {
    var n := Numeral(Abs(hash), 16);
    assert Pow(16, 8) == TWO_32;
    NumeralLength(Abs(hash), 16, 8);
    NumeralShape(Abs(hash), 16);
    NumeralRoundTrip(Abs(hash), 16);
    PadStartValue(n, 64, 16);
    var d := Digest(hash);
    assert d == Repeat('0', 64 - |n|) + n;
    forall i | 0 <= i < 64
      ensures IsLowerHexDigit(d[i]) && (i < 56 ==> d[i] == '0')
    {
      if i >= 64 - |n| {
        assert d[i] == n[i - (64 - |n|)];
      }
    }
  }

  // ---------------------------------------------------------------------
  // Keys and addresses
  // ---------------------------------------------------------------------

  /** `b.toString(16).padStart(2, '0')`: the high nibble's digit, then the low nibble's. */
  function ByteHex(b: Byte): (hex: string)
    ensures hex == [DigitChar(b / 16), DigitChar(b % 16)]
  {
    ByteNumeral(b);
    PadStart(Numeral(b, 16), 2, '0')
  }

  /**
   * The hex mapping of `generatePrivateKey`, applied to the random bytes:
   * two lower-case hex characters per byte.
   */
  function PrivateKeyHex(bytes: seq<Byte>): (key: string)
    ensures |key| == 2 * |bytes|
    ensures forall i :: 0 <= i < |key| ==> IsLowerHexDigit(key[i])
  {
    if bytes == [] then "" else ByteHex(bytes[0]) + PrivateKeyHex(bytes[1..])
  }

  /** Reads a key back two hex characters at a time. */
  function KeyBytes(key: string): seq<int>
    decreases |key|
  {
    if |key| < 2 then [] else [16 * DigitValue(key[0]) + DigitValue(key[1])] + KeyBytes(key[2..])
  }

  /**
   * `derivePublicKey`: the first 64 characters of the private key's digest,
   * which are the whole digest.
   */
  function DerivePublicKey(privateKey: string): (publicKey: string)
    ensures publicKey == HashDigest(privateKey) && |publicKey| == 64
  {
    Substring(HashDigest(privateKey), 0, 64)
  }

  /**
   * `generateBitcoinAddress`: '1' and the first 33 characters of a digest.
   * Those are always padding, so every public key gets the same address.
   */
  function BitcoinAddress(publicKey: string): (address: string)
    ensures address == SharedAddress()
  {
    var digest := HashDigest(publicKey + "novara");
    assert Substring(digest, 0, 33) == digest[..33] == Repeat('0', 33);
    "1" + Substring(digest, 0, 33)
  }

  /** The only address the derivation can produce. */
  function SharedAddress(): (a: string)
    ensures |a| == 34
  {
    "1" + Repeat('0', 33)
  }

  /**
   * The send form's recipient check: non-empty, starts with '1', at least
   * 26 characters. The emptiness test is implied by the other two.
   */
  predicate RecipientAccepted(toAddress: string): (accepted: bool)
    ensures accepted <==> |toAddress| >= 26 && toAddress[0] == '1'
  {
    toAddress != "" && toAddress[0] == '1' && |toAddress| >= 26
  }

  /** A byte's numeral padded to two digits is its high and its low nibble. */
  lemma ByteNumeral(b: Byte)
    ensures PadStart(Numeral(b, 16), 2, '0') == [DigitChar(b / 16), DigitChar(b % 16)]
  {
    if b < 16 {
      assert ToDigits(b, 16) == [b];
      assert Numeral(b, 16) == [DigitChar(b)];
      assert DigitChar(0) == '0';
    } else {
      var d := ToDigits(b, 16);
      assert d == [b % 16] + ToDigits(b / 16, 16);
      assert ToDigits(b / 16, 16) == [b / 16];
      assert d[1..] == [b / 16];
      assert SpellDigits(d[1..]) == [DigitChar(b / 16)];
    }
  }

  /** Two lower-case hex digits per byte, high nibble first. */
  lemma {:induction false} PrivateKeyHexShape(bytes: seq<Byte>)
    ensures var key := PrivateKeyHex(bytes);
      |key| == 2 * |bytes|
      && forall i :: 0 <= i < |bytes| ==>
           key[2 * i] == DigitChar(bytes[i] / 16) && key[2 * i + 1] == DigitChar(bytes[i] % 16)
  {
    if bytes != [] {
      PrivateKeyHexShape(bytes[1..]);
      var key, rest := PrivateKeyHex(bytes), PrivateKeyHex(bytes[1..]);
      assert key == ByteHex(bytes[0]) + rest;
      forall i | 1 <= i < |bytes|
        ensures key[2 * i] == DigitChar(bytes[i] / 16) && key[2 * i + 1] == DigitChar(bytes[i] % 16)
      {
        assert key[2 * i] == rest[2 * (i - 1)];
        assert key[2 * i + 1] == rest[2 * (i - 1) + 1];
        assert bytes[1..][i - 1] == bytes[i];
      }
    }
  }

  /** Reading the key back two characters at a time recovers the random bytes. */
  lemma {:induction false} PrivateKeyRoundTrip(bytes: seq<Byte>)
    ensures KeyBytes(PrivateKeyHex(bytes)) == bytes
  {
    if bytes != [] {
      var b := bytes[0];
      PrivateKeyRoundTrip(bytes[1..]);
      var key := PrivateKeyHex(bytes);
      assert key[2..] == PrivateKeyHex(bytes[1..]);
      DivMod(b, 16);
    }
  }

  /** That address passes the recipient check of the send form. */
  lemma AddressAccepted(publicKey: string)
    ensures RecipientAccepted(BitcoinAddress(publicKey))
  {
  }

  /**
   * Two different imported keys get different public keys and the same
   * address (import takes any string as a key).
   */
  lemma AddressCollision()
    ensures DerivePublicKey("a") != DerivePublicKey("b")
    ensures BitcoinAddress(DerivePublicKey("a")) == BitcoinAddress(DerivePublicKey("b"))
  {
    assert CodeUnits("a") == [97] && CodeUnits("b") == [98];
    assert Hash("a") == 97 && Hash("b") == 98;
  }

  /**
   * The address the derivation evidently means to produce: '1' and the last
   * 33 characters of the digest, which carry its significant digits.
   */
  function IntendedAddress(publicKey: string): (address: string)
    ensures |address| == 34 && address[0] == '1'
    ensures ParseNumeral(address[1..], 16) == Abs(Hash(publicKey + "novara"))
  {
    var digest := HashDigest(publicKey + "novara");
    var tail := digest[31..];
    assert PadStart(tail, 64, '0') == digest;
    PadStartValue(tail, 64, 16);
    assert ("1" + tail)[1..] == tail;
    "1" + tail
  }

  /** With the intended derivation, public keys whose hashes differ get different addresses. */
  lemma IntendedAddressesDiffer(publicKey1: string, publicKey2: string)
    requires Abs(Hash(publicKey1 + "novara")) != Abs(Hash(publicKey2 + "novara"))
    ensures IntendedAddress(publicKey1) != IntendedAddress(publicKey2)
  {
  }

  // ---------------------------------------------------------------------
  // The wallet table
  // ---------------------------------------------------------------------

  datatype WalletRecord = WalletRecord(
    privateKey: string, publicKey: string, address: string, balance: real, createdAt: string)

  /** The `currentWallet` object. */
  datatype Selection = Selection(address: string, privateKey: string, publicKey: string)

  datatype SignedTransaction = SignedTransaction(
    from: string, to: string, amount: string, timestamp: int, signature: string, publicKey: string)

  /** One element of `getWalletList`. */
  datatype WalletSummary = WalletSummary(address: string, balance: real, created: string)

  /** The record `generateWallet` and `importWallet` store for a private key. */
  function NewRecord(privateKey: string, createdAt: string): (r: WalletRecord)
    ensures r.balance == 0.0 && r.address == SharedAddress()
  {
    var publicKey := DerivePublicKey(privateKey);
    WalletRecord(privateKey, publicKey, BitcoinAddress(publicKey), 0.0, createdAt)
  }

  function SummaryOf(wallets: map<string, WalletRecord>, a: string): WalletSummary
    requires a in wallets
  {
    WalletSummary(a, wallets[a].balance, wallets[a].createdAt)
  }

  function Summaries(wallets: map<string, WalletRecord>): set<WalletSummary> {
    set a | a in wallets :: SummaryOf(wallets, a)
  }

  /** The list has one entry per stored wallet. */
  lemma {:induction false} SummaryCount(wallets: map<string, WalletRecord>)
    ensures |Summaries(wallets)| == |wallets|
    decreases |wallets|
  {
    if |wallets| > 0 {
      var a :| a in wallets;
      var rest := wallets - {a};
      SummaryCount(rest);
      var s := SummaryOf(wallets, a);
      forall x | x in Summaries(wallets)
        ensures x in Summaries(rest) + {s}
      {
        var b :| b in wallets && x == SummaryOf(wallets, b);
        if b != a {
          assert x == SummaryOf(rest, b);
        }
      }
      forall x | x in Summaries(rest)
        ensures x in Summaries(wallets)
      {
        var b :| b in rest && x == SummaryOf(rest, b);
        assert x == SummaryOf(wallets, b);
      }
      assert Summaries(wallets) == Summaries(rest) + {s};
      assert s !in Summaries(rest);
    }
  }

  /** The Unix-seconds timestamp `Math.floor(nowMillis / 1000)`. */
  function Seconds(nowMillis: int): int {
    nowMillis / 1000
  }

  /** The string the signature hashes, private key last. */
  function SignedMessage(from: string, to: string, amount: string, timestamp: int, privateKey: string): string {
    from + to + amount + Decimal(timestamp) + privateKey
  }

  /** The largest magnitude of an ECMAScript time value (section 21.4.1.1 of ECMA-262). */
  const MAX_TIME: int := 8_640_000_000_000_000

  class NovaraWalletManager {
    var wallets: map<string, WalletRecord>
    var currentWallet: Option<Selection>

    /** Starts from the stored table and, if it is not empty, selects one of its wallets. */
    constructor(stored: map<string, WalletRecord>)
      ensures wallets == stored
      ensures stored == map[] ==> currentWallet == None
      ensures stored != map[] ==>
        currentWallet.Some? && currentWallet.value.address in stored
        && currentWallet.value == SelectionOf(stored, currentWallet.value.address)
    {
      wallets := stored;
      currentWallet := None;
      if stored != map[] {
        var a :| a in stored;
        currentWallet := Some(Selection(a, stored[a].privateKey, stored[a].publicKey));
      }
    }

    static function SelectionOf(wallets: map<string, WalletRecord>, address: string): Selection
      requires address in wallets
    {
      Selection(address, wallets[address].privateKey, wallets[address].publicKey)
    }

    /** The loop of `sha256`, one code unit at a time. */
    method Sha256(message: string) returns (digest: string)
      ensures digest == HashDigest(message)
      ensures |digest| == 64 && forall i :: 0 <= i < 64 ==> IsLowerHexDigit(digest[i])
    {
      var units := CodeUnits(message);
      var hash := 0;
      var i := 0;
      while i < |units|
        invariant 0 <= i <= |units|
        invariant hash == HashUnits(units[..i])
      {
        var unit := units[i];
        ghost var before := hash;
        hash := (ShiftLeft(hash, 5) - hash) + unit;
        HashUnitsNext(units, i, before, hash);
        hash := AndSelf(hash);
        i := i + 1;
      }
      assert units[..i] == units;
      digest := PadStart(Numeral(Abs(hash), 16), 64, '0');
    }

    /** Selects the wallet stored under `address`, if there is one. */
    method SelectWallet(address: string) returns (selected: bool)
      modifies this
      ensures selected <==> address in wallets
      ensures wallets == old(wallets)
      ensures selected ==> currentWallet == Some(SelectionOf(wallets, address))
      ensures !selected ==> currentWallet == old(currentWallet)
    {
      if address in wallets {
        currentWallet := Some(Selection(address, wallets[address].privateKey, wallets[address].publicKey));
        return true;
      }
      return false;
    }

    /** Makes a wallet from 32 random bytes, stores it under its address and selects it. */
    method GenerateWallet(random: seq<Byte>, createdAt: string) returns (address: string, privateKey: string)
      requires |random| == 32
      modifies this
      ensures privateKey == PrivateKeyHex(random) && |privateKey| == 64
      ensures address == BitcoinAddress(DerivePublicKey(privateKey)) && address == SharedAddress()
      ensures wallets == old(wallets)[address := NewRecord(privateKey, createdAt)]
      ensures currentWallet == Some(SelectionOf(wallets, address))
    {
      privateKey := PrivateKeyHex(random);
      var publicKey := DerivePublicKey(privateKey);
      address := BitcoinAddress(publicKey);
      wallets := wallets[address := WalletRecord(privateKey, publicKey, address, 0.0, createdAt)];
      var selected := SelectWallet(address);
    }

    /** Stores the wallet for a given private key, unchecked, and selects it. */
    method ImportWallet(privateKey: string, createdAt: string) returns (address: string)
      modifies this
      ensures address == BitcoinAddress(DerivePublicKey(privateKey)) && address == SharedAddress()
      ensures wallets == old(wallets)[address := NewRecord(privateKey, createdAt)]
      ensures currentWallet == Some(SelectionOf(wallets, address))
    {
      var publicKey := DerivePublicKey(privateKey);
      address := BitcoinAddress(publicKey);
      wallets := wallets[address := WalletRecord(privateKey, publicKey, address, 0.0, createdAt)];
      var selected := SelectWallet(address);
    }

    /** Builds and "signs" a transaction from the current wallet; None without one. */
    method SignTransaction(toAddress: string, amount: string, nowMillis: int) returns (r: Option<SignedTransaction>)
      requires -MAX_TIME <= nowMillis <= MAX_TIME
      ensures r.None? <==> currentWallet.None?
      ensures r.Some? ==> var w := currentWallet.value; var t := r.value;
        t.from == w.address && t.to == toAddress && t.amount == amount
        && t.timestamp == Seconds(nowMillis) && t.publicKey == w.publicKey
        && t.signature == HashDigest(SignedMessage(w.address, toAddress, amount, t.timestamp, w.privateKey))
    {
      if currentWallet == None {
        return None;
      }
      var w := currentWallet.value;
      var timestamp := nowMillis / 1000;
      var message := w.address + toAddress + amount + Decimal(timestamp);
      var signature := Sha256(message + w.privateKey);
      r := Some(SignedTransaction(w.address, toAddress, amount, timestamp, signature, w.publicKey));
    }

    function GetWalletList(): (list: set<WalletSummary>)
      reads this
      ensures forall a :: a in wallets ==> WalletSummary(a, wallets[a].balance, wallets[a].createdAt) in list
      ensures forall s :: s in list ==>
        s.address in wallets && s.balance == wallets[s.address].balance && s.created == wallets[s.address].createdAt
    {
      Summaries(wallets)
    }

    /** Sets the cached balance of a stored wallet. */
    method UpdateBalance(address: string, newBalance: real) returns (updated: bool)
      modifies this
      ensures updated <==> address in old(wallets)
      ensures updated ==> wallets == old(wallets)[address := old(wallets)[address].(balance := newBalance)]
      ensures !updated ==> wallets == old(wallets)
      ensures currentWallet == old(currentWallet)
    {
      if address in wallets {
        wallets := wallets[address := wallets[address].(balance := newBalance)];
        return true;
      }
      return false;
    }

    /** `wallets[address]?.privateKey || null`: None when absent or empty. */
    function GetPrivateKey(address: string): (key: Option<string>)
      reads this
      ensures key.Some? <==> address in wallets && wallets[address].privateKey != ""
      ensures key.Some? ==> key.value == wallets[address].privateKey
    {
      if address in wallets && wallets[address].privateKey != "" then Some(wallets[address].privateKey) else None
    }
  }

  /**
   * Two wallets generated or imported one after the other: the second is
   * stored under the same address, so the table ends as if the first had
   * never been made, and the first private key is kept only if it was
   * already stored before.
   */
  lemma SecondWalletReplacesFirst(wallets: map<string, WalletRecord>, key1: string, created1: string,
                                  key2: string, created2: string)
    ensures var first := wallets[SharedAddress() := NewRecord(key1, created1)];
      first[SharedAddress() := NewRecord(key2, created2)] == wallets[SharedAddress() := NewRecord(key2, created2)]
    ensures var table := wallets[SharedAddress() := NewRecord(key1, created1)][SharedAddress() := NewRecord(key2, created2)];
      key1 != key2 ==>
        forall a :: a in table && table[a].privateKey == key1 ==> a in wallets && wallets[a] == table[a]
  {
    var address, record1, record2 := SharedAddress(), NewRecord(key1, created1), NewRecord(key2, created2);
    StoreTwice(wallets, address, record1, record2);
  }

  lemma StoreTwice(wallets: map<string, WalletRecord>, address: string, record1: WalletRecord, record2: WalletRecord)
    ensures wallets[address := record1][address := record2] == wallets[address := record2]
  {
  }

  /** Every signature is a 64-character lower-case hex digest. */
  lemma SignatureShape(from: string, to: string, amount: string, timestamp: int, privateKey: string)
    ensures var s := HashDigest(SignedMessage(from, to, amount, timestamp, privateKey));
      |s| == 64 && forall i :: 0 <= i < 64 ==> IsLowerHexDigit(s[i])
  {
    DigestShape(Hash(SignedMessage(from, to, amount, timestamp, privateKey)));
  }
}
