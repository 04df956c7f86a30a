/** Bytes and the two hexadecimal codecs the server uses: the strict lowercase encoder
    behind topic names, and the lenient scanning decoder of the sync handler. */
module Hex {
  import opened Wrappers

  type Byte = b: int | 0 <= b < 256
  type Bytes = seq<Byte>

  /** The bytes of a string of single-byte characters. */
  function StringBytes(s: string): Bytes {
    seq(|s|, i requires 0 <= i < |s| => s[i] as int % 256)
  }

  function Digit(n: int): (c: char)
    requires 0 <= n < 16
    ensures IsLowerHex(c) && DigitValue(c) == Some(n)
  {
    if n < 10 then '0' + n as char else 'a' + (n - 10) as char
  }

  predicate IsLowerHex(c: char) {
    '0' <= c <= '9' || 'a' <= c <= 'f'
  }

  /** A digit as the scanner reads it: either letter case is accepted. */
  function DigitValue(c: char): Option<int>
  {
    if '0' <= c <= '9' then Some(c as int - '0' as int)
    else if 'a' <= c <= 'f' then Some(c as int - 'a' as int + 10)
    else if 'A' <= c <= 'F' then Some(c as int - 'A' as int + 10)
    else None
  }

  /** The blanks skipped before a verb; a newline is an error instead. */
  predicate IsSkipped(c: char) {
    c == ' ' || c == '\t' || c == '\r' || c == 11 as char || c == 12 as char
  }

  function Encode(b: Bytes): (s: string)
    ensures |s| == 2 * |b|
  {
    seq(2 * |b|, i requires 0 <= i < 2 * |b| =>
      if i % 2 == 0 then Digit(b[i / 2] / 16) else Digit(b[i / 2] % 16))
  }

  /** Scanning the two characters `c`, `d` with the verb "%02x" into a byte.
      A leading blank is skipped and a trailing non-digit is left unread. */
  function ScanPair(c: char, d: char): Option<Byte>
  {
    match (DigitValue(c), DigitValue(d))
    case (Some(h), Some(l)) => Some(16 * h + l)
    case (Some(h), None) => Some(h)
    case (None, Some(l)) => if IsSkipped(c) then Some(l) else None
    case (None, None) => None
  }

  /** The i-th pair of characters, scanned. */
  function PairAt(s: string, i: nat): Option<Byte>
    requires i < |s| / 2
  {
    ScanPair(s[2 * i], s[2 * i + 1])
  }

  predicate Scans(s: string) {
    forall i :: 0 <= i < |s| / 2 ==> PairAt(s, i).Some?
  }

  /** What the decoder returns: the scanned pairs, an odd last character being ignored. */
  function Decode(s: string): Option<Bytes>
  {
    if Scans(s) then
      Some(seq(|s| / 2, i requires 0 <= i < |s| / 2 => PairAt(s, i).value))
    else
      None
  }

  method HexDecode(s: string) returns (r: Option<Bytes>)
    ensures r == Decode(s)
  {
    var b: Bytes := [];
    for i := 0 to |s| / 2
      invariant |b| == i
      invariant forall k :: 0 <= k < i ==> PairAt(s, k) == Some(b[k])
    {
      var v := PairAt(s, i);
      if v.None? {
        return None;
      }
      b := b + [v.value];
    }
    r := Some(b);
    assert b == Decode(s).value;
  }

  lemma ScanEncodedAt(b: Bytes, i: nat)
    requires i < |b|
    ensures PairAt(Encode(b), i) == Some(b[i])
  {
    var hi, lo := b[i] / 16, b[i] % 16;
    assert Encode(b)[2 * i] == Digit(hi);
    assert Encode(b)[2 * i + 1] == Digit(lo);
  }

  lemma DecodeEncode(b: Bytes)
    ensures Decode(Encode(b)) == Some(b)
  {
    var s := Encode(b);
    forall i | 0 <= i < |b|
      ensures PairAt(s, i) == Some(b[i])
    {
      ScanEncodedAt(b, i);
    }
    assert Decode(s).value == b;
  }

  /** The digits, in either letter case, and nothing else. */
  lemma DigitsAre(c: char)
    ensures forall n :: 0 <= n < 16 ==>
      (DigitValue(c) == Some(n) <==> c == "0123456789abcdef"[n] || c == "0123456789ABCDEF"[n])
    ensures DigitValue(c).Some? ==> 0 <= DigitValue(c).value < 16
  {
  }

  /** The blanks that are skipped. */
  lemma BlanksAre(c: char)
    ensures IsSkipped(c) <==> c as int in {9, 11, 12, 13, 32}
  {
  }

  predicate IsHexDigit(c: char) {
    c in "0123456789abcdefABCDEF"
  }

  /** Exactly which strings decode, and to what: each pair is two digits, or a digit before anything else, or a
      digit after a blank; an odd last character is not looked at. */
  lemma DecodesIff(s: string)
    ensures Decode(s).Some? <==> forall i :: 0 <= i < |s| / 2 ==>
      IsHexDigit(s[2 * i]) || (IsSkipped(s[2 * i]) && IsHexDigit(s[2 * i + 1]))
    ensures Decode(s).Some? ==> |Decode(s).value| == |s| / 2
    ensures Decode(s).Some? ==> forall i :: 0 <= i < |s| / 2 ==>
      Decode(s).value[i] ==
        if IsHexDigit(s[2 * i]) && IsHexDigit(s[2 * i + 1]) then 16 * DigitValue(s[2 * i]).value + DigitValue(s[2 * i + 1]).value
        else if IsHexDigit(s[2 * i]) then DigitValue(s[2 * i]).value
        else DigitValue(s[2 * i + 1]).value
  {
    forall i | 0 <= i < |s| / 2
      ensures PairAt(s, i).Some? <==> IsHexDigit(s[2 * i]) || (IsSkipped(s[2 * i]) && IsHexDigit(s[2 * i + 1]))
    {
      HexDigitIff(s[2 * i]);
      HexDigitIff(s[2 * i + 1]);
    }
    forall i | 0 <= i < |s|
      ensures IsHexDigit(s[i]) <==> DigitValue(s[i]).Some?
    {
      HexDigitIff(s[i]);
    }
  }

  lemma HexDigitIff(c: char)
    ensures IsHexDigit(c) <==> DigitValue(c).Some?
  {
    assert "0123456789abcdefABCDEF" == "0123456789abcdef" + "ABCDEF";
  }

  /** Strings of single-byte characters keep their characters. */
  lemma StringBytesKeeps(s: string)
    requires forall i :: 0 <= i < |s| ==> s[i] as int < 256
    ensures |StringBytes(s)| == |s| && forall i :: 0 <= i < |s| ==> StringBytes(s)[i] == s[i] as int
  {
  }

  lemma EncodeInjective(a: Bytes, b: Bytes)
    requires Encode(a) == Encode(b)
    ensures a == b
  {
    DecodeEncode(a);
    DecodeEncode(b);
  }

  predicate IsCanonical(s: string) {
    |s| % 2 == 0 && forall i :: 0 <= i < |s| ==> IsLowerHex(s[i])
  }

  lemma LowerDigitUnique(c: char)
    requires IsLowerHex(c)
    ensures DigitValue(c).Some? && 0 <= DigitValue(c).value < 16 && Digit(DigitValue(c).value) == c
  {
  }

  lemma CanonicalDecodes(s: string)
    requires IsCanonical(s)
    ensures Decode(s).Some?
    ensures forall i :: 0 <= i < |s| / 2 ==> Decode(s).value[i] == 16 * DigitValue(s[2 * i]).value + DigitValue(s[2 * i + 1]).value
  {
    forall i | 0 <= i < |s| / 2
      ensures PairAt(s, i).Some?
    {
      LowerDigitUnique(s[2 * i]);
      LowerDigitUnique(s[2 * i + 1]);
    }
  }

  lemma CanonicalRoundTrip(s: string, k: nat)
    requires IsCanonical(s) && Decode(s).Some? && k < |s|
    ensures Encode(Decode(s).value)[k] == s[k]
  {
    CanonicalDecodes(s);
    var i := k / 2;
    LowerDigitUnique(s[2 * i]);
    LowerDigitUnique(s[2 * i + 1]);
    assert k == 2 * i || k == 2 * i + 1;
  }

  lemma EncodedIsCanonical(b: Bytes)
    ensures IsCanonical(Encode(b))
  {
  }

  /** The lenient decoder is an inverse of the encoder on exactly the strings
      of an even number of lowercase hex digits. */
  lemma EncodeDecode(s: string)
    ensures (Decode(s).Some? && Encode(Decode(s).value) == s) <==> IsCanonical(s)
  {
    if IsCanonical(s) {
      CanonicalDecodes(s);
      var t := Encode(Decode(s).value);
      forall k | 0 <= k < |s|
        ensures t[k] == s[k]
      {
        CanonicalRoundTrip(s, k);
      }
      assert t == s;
    } else if Decode(s).Some? {
      EncodedIsCanonical(Decode(s).value);
    }
  }
}
