/** Bytes and their hexadecimal text. */
module Hex {
  import opened Basics

  function HexChar(d: nat): (c: char)
    requires d < 16
  {
    "0123456789abcdef"[d]
  }

  /** The digit of a character, in either case; zero for any other character. */
  function Nibble(c: char): (d: nat)
    ensures d < 16
  {
    if '0' <= c <= '9' then c as int - '0' as int
    else if 'a' <= c <= 'f' then c as int - 'a' as int + 10
    else if 'A' <= c <= 'F' then c as int - 'A' as int + 10
    else 0
  }

  lemma NibbleOfHexChar(d: nat)
    requires d < 16
    ensures Nibble(HexChar(d)) == d && HexChar(d) != 'x'
  {
  }

  /** Digits are read in either case. */
  lemma CaseDoesNotMatter(d: nat)
    requires d < 16
    ensures Nibble("0123456789abcdef"[d]) == d && Nibble("0123456789ABCDEF"[d]) == d
  {
  }

  /** Two digits for every byte. */
  function HexDigits(bytes: seq<Byte>): (r: string)
    ensures |r| == 2 * |bytes|
  {
    if bytes == [] then ""
    else
      var b := bytes[|bytes| - 1];
      HexDigits(bytes[..|bytes| - 1]) + [HexChar(b / 16), HexChar(b % 16)]
  }

  method ToHex(bytes: seq<Byte>) returns (r: string)
    ensures r == "0x" + HexDigits(bytes)
  {
    r := "0x";
    var i := 0;
    while i < |bytes|
      invariant i <= |bytes| && r == "0x" + HexDigits(bytes[..i])
    {
      var b := bytes[i];
      i := i + 1;
      assert bytes[..i][..i - 1] == bytes[..i - 1];
      r := r + [HexChar(b / 16), HexChar(b % 16)];
    }
    assert bytes[..|bytes|] == bytes;
  }

  /** The digit at a place; reading past the end gives zero. */
  function NibbleAt(s: string, i: nat): (d: nat)
    ensures d < 16
  {
    if i < |s| then Nibble(s[i]) else 0
  }

  function PrefixLength(s: string): nat {
    if |s| > 1 && s[1] == 'x' then 2 else 0
  }

  /**
   * An even number of digits is read in pairs. Of an odd number, the character at place 2 becomes
   * the first byte, and the digits after the first are read in pairs.
   */
  function Unhex(s: string): seq<Byte> {
    seq(UnhexLength(s), i requires 0 <= i => UnhexAt(s, i))
  }

  /** Where the digits that are read in pairs start. */
  function PairsStart(s: string): nat {
    PrefixLength(s) + |s| % 2
  }

  function UnhexLength(s: string): nat {
    (|s| - PairsStart(s)) / 2 + |s| % 2
  }

  function UnhexAt(s: string, i: nat): Byte {
    if i < |s| % 2 then NibbleAt(s, 2)
    else 16 * NibbleAt(s, PairsStart(s) + 2 * (i - |s| % 2)) + NibbleAt(s, PairsStart(s) + 2 * (i - |s| % 2) + 1)
  }

  method FromHex(s: string) returns (bytes: seq<Byte>)
    ensures bytes == Unhex(s)
  {
    var odd := |s| % 2;
    var start := PrefixLength(s) + odd;
    var nBytes := (|s| - start) / 2 + odd;
    var buffer := new Byte[nBytes](_ => 0);
    if odd == 1 {
      buffer[0] := NibbleAt(s, 2);
    }
    var i := 0;
    while i < nBytes
      invariant 0 <= i <= nBytes
      invariant forall k :: 0 <= k < odd + i && k < nBytes ==> buffer[k] == UnhexAt(s, k)
    {
      var idx := start + i * 2;
      if odd + i < nBytes {  // a byte beyond the end is not stored
        buffer[odd + i] := 16 * NibbleAt(s, idx) + NibbleAt(s, idx + 1);
      }
      i := i + 1;
    }
    bytes := buffer[..];
  }

  lemma {:induction false} DigitsAt(bytes: seq<Byte>, i: nat)
    requires i < |bytes|
    ensures HexDigits(bytes)[2 * i] == HexChar(bytes[i] / 16) && HexDigits(bytes)[2 * i + 1] == HexChar(bytes[i] % 16)
  {
    var n := |bytes| - 1;
    if i < n {
      DigitsAt(bytes[..n], i);
    }
  }

  lemma SameBytes(s: string, bytes: seq<Byte>)
    requires UnhexLength(s) == |bytes| && forall i :: 0 <= i < |bytes| ==> UnhexAt(s, i) == bytes[i]
    ensures Unhex(s) == bytes
  {
  }

  lemma PairAt(s: string, from: nat, i: nat)
    requires |s| % 2 == 0 && PrefixLength(s) == from && from + 2 * i + 1 < |s|
    ensures UnhexAt(s, i) == 16 * Nibble(s[from + 2 * i]) + Nibble(s[from + 2 * i + 1])
  {
    hide Nibble;
  }

  lemma PairRead(s: string, digits: string, from: nat, bytes: seq<Byte>, i: nat)
    requires digits == HexDigits(bytes) && i < |bytes| && |s| == from + |digits| && |s| % 2 == 0
    requires PrefixLength(s) == from && s[from..] == digits
    ensures UnhexAt(s, i) == bytes[i]
  {
    DigitsAt(bytes, i);
    NibbleOfHexChar(bytes[i] / 16);
    NibbleOfHexChar(bytes[i] % 16);
    PairAt(s, from, i);
    hide *;
    assert s[from + 2 * i] == digits[2 * i] && s[from + 2 * i + 1] == digits[2 * i + 1];
    assert 16 * (bytes[i] / 16) + bytes[i] % 16 == bytes[i];
  }

  /** Reading what was written gives the bytes back, with the prefix or without. */
  lemma HexRoundTrip(bytes: seq<Byte>)
    ensures Unhex("0x" + HexDigits(bytes)) == bytes && Unhex(HexDigits(bytes)) == bytes
  {
    var digits := HexDigits(bytes);
    DigitsOnly(bytes);
    Prefixes(digits);
    assert |digits| % 2 == 0;
    hide *;
    WithPrefix(digits);
    assert digits[0..] == digits;
    ReadBack("0x" + digits, digits, 2, bytes);
    ReadBack(digits, digits, 0, bytes);
  }

  lemma WithPrefix(digits: string)
    requires |digits| % 2 == 0
    ensures |"0x" + digits| == 2 + |digits| && |"0x" + digits| % 2 == 0 && ("0x" + digits)[2..] == digits
  {
  }

  lemma Prefixes(digits: string)
    requires forall k :: 0 <= k < |digits| ==> digits[k] != 'x'
    ensures PrefixLength(digits) == 0 && PrefixLength("0x" + digits) == 2
  {
  }

  lemma ReadBack(s: string, digits: string, from: nat, bytes: seq<Byte>)
    requires digits == HexDigits(bytes) && |s| == from + |digits| && |s| % 2 == 0
    requires PrefixLength(s) == from && s[from..] == digits
    ensures Unhex(s) == bytes
  {
    hide UnhexAt, HexDigits, Unhex;
    forall i | 0 <= i < |bytes| ensures UnhexAt(s, i) == bytes[i] {
      PairRead(s, digits, from, bytes, i);
    }
    SameBytes(s, bytes);
  }

  /** An odd number of digits with the prefix reads as if a zero came first. */
  lemma OddWithPrefix(digits: string)
    requires |digits| % 2 == 1
    ensures Unhex("0x" + digits) == Unhex("0x0" + digits)
  {
    var s, t := "0x" + digits, "0x0" + digits;
    forall i | 0 <= i < UnhexLength(s) ensures UnhexAt(s, i) == UnhexAt(t, i) {
      OddAt(digits, i);
    }
    hide UnhexAt;
  }

  lemma OddAt(digits: string, i: nat)
    requires |digits| % 2 == 1 && 2 * i < |digits| + 1
    ensures UnhexAt("0x" + digits, i) == UnhexAt("0x0" + digits, i)
  {
    hide Nibble;
    var s, t := "0x" + digits, "0x0" + digits;
    PairAt(t, 2, i);
    assert NibbleAt(s, 2) == Nibble(digits[0]) && Nibble('0') == 0 by { assert s[2] == digits[0]; ZeroNibble(); }
    if i == 0 {
      assert t[3] == digits[0] && t[2] == '0';
    } else {
      assert s[2 * i + 1] == t[2 * i + 2] && s[2 * i + 2] == t[2 * i + 3];
    }
  }

  lemma ZeroNibble()
    ensures Nibble('0') == 0
  {
  }

  /** Without the prefix it does so if and only if the first digit is also the one at place 2. */
  lemma OddWithoutPrefixIff(digits: string)
    requires |digits| % 2 == 1 && 'x' !in digits
    ensures Unhex(digits) == Unhex("0" + digits) <==> Nibble(digits[0]) == NibbleAt(digits, 2)
  {
    var t := "0" + digits;
    assert t[1] == digits[0] && t[0] == '0';
    assert UnhexLength(digits) == UnhexLength(t);
    assert UnhexAt(t, 0) == Nibble(digits[0]) && UnhexAt(digits, 0) == NibbleAt(digits, 2);
    assert Unhex(digits)[0] == UnhexAt(digits, 0) && Unhex(t)[0] == UnhexAt(t, 0);
    forall i | 0 < i < UnhexLength(t) ensures UnhexAt(digits, i) == UnhexAt(t, i) {
      assert digits[2 * i - 1] == t[2 * i] && digits[2 * i] == t[2 * i + 1];
    }
  }

  /** An odd text without the prefix, and its zero-padded form, read differently. */
  lemma OddIsMisread()
    ensures Unhex("123") == [0x03, 0x23] && Unhex("0123") == [0x01, 0x23]
  {
    assert UnhexAt("123", 0) == 3 && UnhexAt("123", 1) == 0x23;
    assert UnhexAt("0123", 0) == 1 && UnhexAt("0123", 1) == 0x23;
    assert UnhexLength("123") == 2 && UnhexLength("0123") == 2;
    hide UnhexAt;
  }

  lemma {:induction false} DigitsOnly(bytes: seq<Byte>)
    ensures forall k :: 0 <= k < |HexDigits(bytes)| ==> HexDigits(bytes)[k] != 'x'
  {
    if bytes != [] {
      var n := |bytes| - 1;
      DigitsOnly(bytes[..n]);
      NibbleOfHexChar(bytes[n] / 16);
      NibbleOfHexChar(bytes[n] % 16);
    }
  }

  /** Only the second character decides whether there is a prefix. */
  lemma PrefixIsTheX(c: char, digits: string)
    ensures Unhex([c, 'x'] + digits) == Unhex("0x" + digits)
  {
    var s, t := [c, 'x'] + digits, "0x" + digits;
    assert |s| == |t| && s[1] == t[1] == 'x' && forall i :: 2 <= i < |s| ==> s[i] == t[i];
    assert forall i :: i >= 2 ==> NibbleAt(s, i) == NibbleAt(t, i);
    assert Unhex(s) == Unhex(t);
  }
}
