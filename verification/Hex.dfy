/** Bytes to hexadecimal strings and back, as src/helpers.ts does it. */
module Hex {
  import opened Prelude

  function Digit(n: Byte): CodeUnit
    requires n < 16
  {
    (if n < 10 then 48 + n else 87 + n) as CodeUnit
  }

  predicate IsDigit(c: CodeUnit) { 48 <= c <= 57 || 97 <= c <= 102 || 65 <= c <= 70 }

  function DigitValue(c: CodeUnit): (n: Byte)
    requires IsDigit(c)
    ensures n < 16
  {
    (if c <= 57 then c - 48 else if c <= 70 then c - 55 else c - 87) as Byte
  }

  // ---- Bytes to hex ---------------------------------------------------------------------------

  /** `toString(16)`: no leading zero. */
  function ToString16(b: Byte): JsString {
    if b < 16 then [Digit(b)] else [Digit(b >> 4), Digit(b & 15)]
  }

  /** A byte's two digits. */
  function HexByte(b: Byte): JsString { [Digit(b >> 4), Digit(b & 15)] }

  /** `.replace(/^([\da-f])$/, '0$1')`: a single digit gets a leading zero. */
  function PaddedDigits(b: Byte): JsString {
    var digits := ToString16(b);
    if |digits| == 1 && IsDigit(digits[0]) then [48] + digits else digits
  }

  lemma PaddedDigitsAreTwo(b: Byte)
    ensures PaddedDigits(b) == HexByte(b)
  {
  }

  function HexOf(bytes: Bytes): (h: JsString)
    ensures |h| == 2 * |bytes|
    ensures forall i :: 0 <= i < |bytes| ==> h[2 * i..2 * i + 2] == HexByte(bytes[i])
  {
    if bytes == [] then [] else HexOf(bytes[..|bytes| - 1]) + HexByte(bytes[|bytes| - 1])
  }

  method U8aToHex(bytes: Bytes) returns (hex: JsString)
    ensures hex == HexOf(bytes)
  {
    hex := [];
    for i := 0 to |bytes|
      invariant hex == HexOf(bytes[..i])
    {
      PaddedDigitsAreTwo(bytes[i]);
      hex := hex + PaddedDigits(bytes[i]);
      assert bytes[..i + 1][..i] == bytes[..i];
    }
    assert bytes[..|bytes|] == bytes;
  }

  // ---- Hex to bytes ---------------------------------------------------------------------------

  /** The digits `s` starts with, modulo 256; `None` if there are none. */
  function LeadingDigits(s: JsString): Option<Byte>
    requires |s| <= 2
  {
    if s == [] || !IsDigit(s[0]) then None
    else if |s| == 1 || !IsDigit(s[1]) then Some(DigitValue(s[0]))
    else Some(16 * DigitValue(s[0]) + DigitValue(s[1]))
  }

  /** `parseInt(s, 16)` modulo 256 for at most two characters; `None` stands for NaN. */
  function ParseInt16(s: JsString): Option<Byte>
    requires |s| <= 2
    decreases |s|
  {
    if s == [] then None
    else if IsWhite(s[0]) then ParseInt16(s[1..])
    else if s[0] == 43 then LeadingDigits(s[1..])
    else if s[0] == 45 then
      match LeadingDigits(s[1..]) case Some(n) => Some(0 - n) case None => None
    else if |s| == 2 && s[0] == 48 && s[1] in {88, 120} then None
    else LeadingDigits(s)
  }

  /** What a Uint8Array stores for the number; NaN becomes 0. */
  function ByteOf(s: JsString): Byte
    requires |s| <= 2
  {
    match ParseInt16(s) case Some(n) => n case None => 0
  }

  function Padded(hex: JsString): JsString { if |hex| % 2 == 1 then [48] + hex else hex }

  function BytesOf(hex: JsString): (b: Bytes)
    ensures |b| == |Padded(hex)| / 2
    ensures forall i :: 0 <= i < |b| ==> b[i] == ByteOf(Padded(hex)[2 * i..2 * i + 2])
  {
    var h := Padded(hex);
    seq(|h| / 2, i requires 0 <= i < |h| / 2 => ByteOf(h[2 * i..2 * i + 2]))
  }

  /** `substr(from, 2)`. */
  function Substr2(s: JsString, from: nat): JsString { Slice(s, from, from + 2) }

  /** The digits of position `i`. */
  function PairAt(s: JsString, i: nat): (pair: JsString)
    requires 2 * i + 1 < |s|
    ensures |pair| == 2
  {
    s[2 * i..2 * i + 2]
  }

  lemma SubstrIsPair(s: JsString, i: nat)
    requires 2 * i + 1 < |s|
    ensures Substr2(s, 2 * i) == PairAt(s, i)
  {
  }

  lemma PairsMakeBytes(hex: JsString, bytes: Bytes)
    requires |bytes| == |Padded(hex)| / 2
    requires forall i :: 0 <= i < |bytes| ==> bytes[i] == ByteOf(PairAt(Padded(hex), i))
    ensures bytes == BytesOf(hex)
  {
    hide ByteOf;
  }

  method HexToU8a(hexstring: JsString) returns (bytes: array<Byte>)
    ensures fresh(bytes) && bytes[..] == BytesOf(hexstring)
  {
    hide ByteOf, PairAt, Substr2, BytesOf;
    var hex := if |hexstring| % 2 == 1 then [48] + hexstring else hexstring;
    bytes := new Byte[|hex| / 2](_ => 0);
    var j, k := 0, 0;
    // One round more than there are bytes; the write past the end is ignored
    while k <= |hex|
      invariant k == 2 * j && j <= bytes.Length + 1
      invariant forall i :: 0 <= i < j && i < bytes.Length ==> bytes[i] == ByteOf(PairAt(hex, i))
    {
      if j < bytes.Length {
        SubstrIsPair(hex, j);
        bytes[j] := ByteOf(Substr2(hex, k));
      }
      j := j + 1;
      k := k + 2;
    }
    PairsMakeBytes(hexstring, bytes[..]);
  }

  // ---- Round trips ----------------------------------------------------------------------------

  lemma DigitsOfByte(b: Byte)
    ensures IsDigit(Digit(b >> 4)) && IsDigit(Digit(b & 15))
    ensures 16 * DigitValue(Digit(b >> 4)) + DigitValue(Digit(b & 15)) == b
  {
  }

  lemma DigitIsPlain(c: CodeUnit)
    requires IsDigit(c)
    ensures !IsWhite(c) && c != 43 && c != 45 && c != 88 && c != 120
  {
  }

  lemma ParseTwoDigits(s: JsString)
    requires |s| == 2 && IsDigit(s[0]) && IsDigit(s[1])
    ensures ByteOf(s) == 16 * DigitValue(s[0]) + DigitValue(s[1])
  {
    DigitIsPlain(s[0]);
    DigitIsPlain(s[1]);
  }

  lemma ByteComesBack(b: Byte)
    ensures ByteOf(HexByte(b)) == b
  {
    DigitsOfByte(b);
    ParseTwoDigits(HexByte(b));
  }

  /** Whatever the bytes. */
  lemma HexRoundTrip(bytes: Bytes)
    ensures BytesOf(HexOf(bytes)) == bytes
  {
    var h := HexOf(bytes);
    forall i | 0 <= i < |bytes| ensures ByteOf(h[2 * i..2 * i + 2]) == bytes[i] {
      ByteComesBack(bytes[i]);
    }
  }

  predicate AllDigits(s: JsString) { forall i :: 0 <= i < |s| ==> IsDigit(s[i]) }

  /** Lower case, for the characters that can matter. */
  function Lower(c: CodeUnit): CodeUnit { if 65 <= c <= 90 then c + 32 else c }

  function Lowered(s: JsString): (l: JsString)
    ensures |l| == |s|
    ensures forall i :: 0 <= i < |s| ==> l[i] == Lower(s[i])
  {
    seq(|s|, i requires 0 <= i < |s| => Lower(s[i]))
  }

  lemma LowerDigit(c: CodeUnit)
    ensures IsDigit(c) ==> Digit(DigitValue(c)) == Lower(c)
    ensures IsDigit(Lower(c)) ==> IsDigit(c)
  {
  }

  lemma ByteOfDigits(a: Byte, b: Byte)
    requires a < 16 && b < 16
    ensures (16 * a + b) >> 4 == a && (16 * a + b) & 15 == b
  {
  }

  lemma SamePairs(s: JsString, t: JsString)
    requires |s| == |t| && |s| % 2 == 0
    requires forall i :: 0 <= i < |s| / 2 ==> PairAt(s, i) == PairAt(t, i)
    ensures s == t
  {
    forall k | 0 <= k < |s| ensures s[k] == t[k] {
      assert s[k] == PairAt(s, k / 2)[k % 2] && t[k] == PairAt(t, k / 2)[k % 2];
    }
  }

  lemma {:induction false} HexHasDigitsOnly(bytes: Bytes)
    ensures AllDigits(HexOf(bytes))
  {
    if bytes != [] {
      HexHasDigitsOnly(bytes[..|bytes| - 1]);
      DigitsOfByte(bytes[|bytes| - 1]);
    }
  }

  lemma LoweredDigits(s: JsString)
    ensures AllDigits(Lowered(s)) ==> AllDigits(s)
  {
    forall i | 0 <= i < |s| ensures IsDigit(Lowered(s)[i]) ==> IsDigit(s[i]) {
      LowerDigit(s[i]);
    }
  }

  lemma PaddedDigitsOnly(hex: JsString)
    ensures AllDigits(Padded(hex)) <==> AllDigits(hex)
  {
    var h := Padded(hex);
    assert forall i :: 0 <= i < |hex| ==> hex[i] == h[i + |h| - |hex|];
  }

  lemma DigitsComeBack(h: JsString)
    requires |h| % 2 == 0 && AllDigits(h)
    ensures HexOf(BytesOf(h)) == Lowered(h)
  {
    var bytes := BytesOf(h);
    var back := HexOf(bytes);
    assert Padded(h) == h;
    forall i | 0 <= i < |h| / 2 ensures PairAt(back, i) == PairAt(Lowered(h), i) {
      var pair := PairAt(h, i);
      assert bytes[i] == ByteOf(pair);
      assert PairAt(back, i) == HexByte(bytes[i]);
      assert pair[0] == h[2 * i] && pair[1] == h[2 * i + 1];
      PairComesBack(pair);
      assert Lowered(pair) == PairAt(Lowered(h), i);
    }
    SamePairs(back, Lowered(h));
  }

  /** A string comes back (padded and in lower case) exactly when it has hexadecimal digits only. */
  lemma StringRoundTrip(hex: JsString)
    ensures HexOf(BytesOf(hex)) == Lowered(Padded(hex)) <==> AllDigits(hex)
  {
    assert BytesOf(hex) == BytesOf(Padded(hex));
    PaddedDigitsOnly(hex);
    if AllDigits(hex) {
      DigitsComeBack(Padded(hex));
    } else {
      HexHasDigitsOnly(BytesOf(hex));
      LoweredDigits(Padded(hex));
    }
  }

  lemma PairComesBack(pair: JsString)
    requires |pair| == 2 && IsDigit(pair[0]) && IsDigit(pair[1])
    ensures HexByte(ByteOf(pair)) == Lowered(pair)
  {
    ParseTwoDigits(pair);
    ByteOfDigits(DigitValue(pair[0]), DigitValue(pair[1]));
    LowerDigit(pair[0]);
    LowerDigit(pair[1]);
  }

  // ---- The digits -----------------------------------------------------------------------------

  lemma DigitsAreStandard()
    ensures Digit(0) == 48 && Digit(1) == 49 && Digit(2) == 50 && Digit(3) == 51 && Digit(4) == 52 && Digit(5) == 53
    ensures Digit(6) == 54 && Digit(7) == 55 && Digit(8) == 56 && Digit(9) == 57 && Digit(10) == 97
    ensures Digit(11) == 98 && Digit(12) == 99 && Digit(13) == 100 && Digit(14) == 101 && Digit(15) == 102
  {
  }

  /** Capitals are the same digits, and what a digit stands for is its place among them. */
  lemma ValuesAreStandard(n: Byte)
    requires n < 16
    ensures IsDigit(Digit(n)) && DigitValue(Digit(n)) == n
    ensures n >= 10 ==> IsDigit(Digit(n) - 32) && DigitValue(Digit(n) - 32) == n
  {
  }

  /** An odd number of characters gets a zero in front. */
  lemma OddIsPadded(c: CodeUnit, hex: JsString)
    requires |hex| % 2 == 0
    ensures BytesOf([c] + hex) == [ByteOf([48, c])] + BytesOf(hex)
    ensures IsDigit(c) ==> ByteOf([48, c]) == DigitValue(c)
  {
    hide ByteOf;
    var h := [48] + ([c] + hex);
    assert Padded([c] + hex) == h && Padded(hex) == hex;
    assert h[0..2] == [48, c];
    forall i | 0 <= i < |hex| / 2 ensures h[2 * (i + 1)..2 * (i + 1) + 2] == hex[2 * i..2 * i + 2] {
    }
    if IsDigit(c) {
      ZeroAndDigit(c);
    }
  }

  lemma ZeroAndDigit(c: CodeUnit)
    requires IsDigit(c)
    ensures ByteOf([48, c]) == DigitValue(c)
  {
    ParseTwoDigits([48, c]);
  }

  /** The high digit comes first. */
  lemma HexByteIs(high: Byte, low: Byte)
    requires high < 16 && low < 16
    ensures HexByte(16 * high + low) == [Digit(high), Digit(low)]
  {
    ByteOfDigits(high, low);
  }

  /**
    * What `parseInt` makes of any two characters: it skips white space, takes a sign, stops at the first
    * character that is no digit, and finds no number behind `0x`.
    */
  lemma ParseTwoCharacters(a: CodeUnit, b: CodeUnit)
    ensures ByteOf([a, b]) ==
            if IsDigit(a) && IsDigit(b) then 16 * DigitValue(a) + DigitValue(b)
            else if IsDigit(a) then if a == 48 && (b == 88 || b == 120) then 0 else DigitValue(a)
            else if IsDigit(b) && (IsWhite(a) || a == 43) then DigitValue(b)
            else if IsDigit(b) && a == 45 then 0 - DigitValue(b)
            else 0
  {
    if IsDigit(a) {
      DigitIsPlain(a);
    }
    if IsDigit(b) {
      DigitIsPlain(b);
    }
    SignsAreNotWhite();
    assert [a, b][1..] == [b] && [b][1..] == [];
    hide IsWhite;
    ParseOneCharacter(b);
    hide DigitValue, IsDigit;
  }

  lemma SignsAreNotWhite()
    ensures !IsWhite(43) && !IsWhite(45)
  {
  }

  lemma ParseOneCharacter(b: CodeUnit)
    ensures ParseInt16([b]) == if IsDigit(b) then Some(DigitValue(b)) else None
    ensures LeadingDigits([b]) == if IsDigit(b) then Some(DigitValue(b)) else None
  {
    assert [b][1..] == [];
    if IsDigit(b) {
      DigitIsPlain(b);
    }
    hide IsWhite, DigitValue;
    assert LeadingDigits([]) == None;
  }
}
