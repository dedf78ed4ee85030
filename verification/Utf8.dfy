/** The UTF-16/UTF-8 codec of src/helpers.ts, against the grammar in section 4 of RFC 3629. */
module Utf8 {
  import opened Prelude

  // ---- UTF-16 ---------------------------------------------------------------------------------

  predicate IsHigh(c: CodeUnit) { c & 0xFC00 == 0xD800 }

  predicate IsLow(c: CodeUnit) { c & 0xFC00 == 0xDC00 }

  predicate StartsWithPair(s: JsString) { |s| >= 2 && IsHigh(s[0]) && IsLow(s[1]) }

  /** Every surrogate belongs to a pair. */
  predicate WellFormed(s: JsString) {
    if s == [] then true
    else if StartsWithPair(s) then WellFormed(s[2..])
    else !IsHigh(s[0]) && !IsLow(s[0]) && WellFormed(s[1..])
  }

  // ---- Numbers as JavaScript's bitwise operators see them -------------------------------------

  /** Storing a number in a Uint8Array. */
  function ToUint8(x: bv32): Byte { (x & 0xFF) as Byte }

  /** String.fromCharCode. */
  function ToUint16(x: bv32): CodeUnit { (x & 0xFFFF) as CodeUnit }

  function PairValue(high: CodeUnit, low: CodeUnit): bv32 {
    0x10000 + ((high as bv32 & 0x3FF) << 10) + (low as bv32 & 0x3FF)
  }

  // ---- Encoding -------------------------------------------------------------------------------

  function OneByte(c: bv32): Bytes { [ToUint8(c)] }

  function TwoBytes(c: bv32): Bytes { [ToUint8((c >> 6) | 192), ToUint8((c & 63) | 128)] }

  function ThreeBytes(c: bv32): Bytes {
    [ToUint8((c >> 12) | 224), ToUint8(((c >> 6) & 63) | 128), ToUint8((c & 63) | 128)]
  }

  function FourBytes(c: bv32): Bytes {
    [ToUint8((c >> 18) | 240), ToUint8(((c >> 12) & 63) | 128), ToUint8(((c >> 6) & 63) | 128), ToUint8((c & 63) | 128)]
  }

  predicate FitsOneByte(c: bv32) { c < 128 }

  predicate FitsTwoBytes(c: bv32) { c < 2048 }

  /** A code unit on its own; surrogates take three bytes like their neighbours. */
  function EncodeUnit(unit: CodeUnit): Bytes {
    var c := unit as bv32;
    if FitsOneByte(c) then OneByte(c) else if FitsTwoBytes(c) then TwoBytes(c) else ThreeBytes(c)
  }

  function EncodePair(high: CodeUnit, low: CodeUnit): Bytes { FourBytes(PairValue(high, low)) }

  function Encode(s: JsString): Bytes {
    if s == [] then []
    else if StartsWithPair(s) then EncodePair(s[0], s[1]) + Encode(s[2..])
    else EncodeUnit(s[0]) + Encode(s[1..])
  }

  method StringToUtf8a(str: JsString) returns (out: Bytes)
    ensures out == Encode(str)
  {
    hide Encode, EncodeUnit, EncodePair, OneByte, TwoBytes, ThreeBytes, FourBytes, PairValue,
      FitsOneByte, FitsTwoBytes, IsHigh, IsLow;
    out := [];
    var i := 0;
    while i < |str|
      invariant 0 <= i <= |str|
      invariant out + Encode(str[i..]) == Encode(str)
    {
      EncodeStep(str, i, out);
      var c := str[i] as bv32;
      if FitsOneByte(c) {
        out := out + OneByte(c);
      } else if FitsTwoBytes(c) {
        out := out + TwoBytes(c);
      } else if IsHigh(str[i]) && i + 1 < |str| && IsLow(str[i + 1]) {
        i := i + 1;
        c := PairValue(str[i - 1], str[i]);
        out := out + FourBytes(c);
      } else {
        out := out + ThreeBytes(c);
      }
      i := i + 1;
    }
    EncodeNothing();
    assert str[i..] == [] && out + [] == out;
  }

  lemma EncodeNothing()
    ensures Encode([]) == []
  {
  }

  /** One round of the loop, whichever branch it takes. */
  lemma EncodeStep(s: JsString, i: nat, out: Bytes)
    requires i < |s|
    ensures var c := s[i] as bv32;
            && EncodeUnit(s[i]) == (if FitsOneByte(c) then OneByte(c)
                                    else if FitsTwoBytes(c) then TwoBytes(c) else ThreeBytes(c))
            && (FitsOneByte(c) ==> FitsTwoBytes(c))
            && (FitsTwoBytes(c) ==> !IsHigh(s[i]))
    ensures if i + 1 < |s| && IsHigh(s[i]) && IsLow(s[i + 1])
            then out + Encode(s[i..]) == (out + FourBytes(PairValue(s[i], s[i + 1]))) + Encode(s[i + 2..])
            else out + Encode(s[i..]) == (out + EncodeUnit(s[i])) + Encode(s[i + 1..])
  {
    hide OneByte, TwoBytes, ThreeBytes, FourBytes, PairValue, IsHigh, IsLow;
    SurrogatesAreLarge(s[i]);
    EncodeFirst(s[i..], out);
    assert s[i..][1..] == s[i + 1..];
    assert i + 1 < |s| ==> s[i..][2..] == s[i + 2..];
  }

  lemma EncodeFirst(s: JsString, out: Bytes)
    requires s != []
    ensures if StartsWithPair(s) then out + Encode(s) == (out + EncodePair(s[0], s[1])) + Encode(s[2..])
            else out + Encode(s) == (out + EncodeUnit(s[0])) + Encode(s[1..])
  {
    hide EncodePair, EncodeUnit, IsHigh, IsLow;
  }

  lemma SurrogatesAreLarge(c: CodeUnit)
    ensures IsHigh(c) || IsLow(c) ==> 2048 <= c as bv32
  {
  }

  // ---- Decoding -------------------------------------------------------------------------------

  /** Reading past the end gives `undefined`, which bitwise operators take for 0. */
  function At(b: Bytes, i: nat): bv32 { if i < |b| then b[i] as bv32 else 0 }

  function Drop(b: Bytes, n: nat): Bytes { b[Min(n, |b|)..] }

  function FromOne(c1: bv32): JsString { [ToUint16(c1)] }

  function FromTwo(c1: bv32, c2: bv32): JsString { [ToUint16(((c1 & 31) << 6) | (c2 & 63))] }

  function FromThree(c1: bv32, c2: bv32, c3: bv32): JsString {
    [ToUint16(((c1 & 15) << 12) | ((c2 & 63) << 6) | (c3 & 63))]
  }

  /** Only the low 16 bits of the shifted value matter, so the sign of `u` does not. */
  function FromFour(c1: bv32, c2: bv32, c3: bv32, c4: bv32): JsString {
    var u := (((c1 & 7) << 18) | ((c2 & 63) << 12) | ((c3 & 63) << 6) | (c4 & 63)) - 0x10000;
    [ToUint16(0xD800 + (u >> 10)), ToUint16(0xDC00 + (u & 1023))]
  }

  /** How many bytes the decoder takes for the sequence that starts with `b[0]`. */
  function Taken(b: Bytes): nat
    requires b != []
  {
    var c := At(b, 0);
    if c < 128 then 1 else if 191 < c < 224 then 2 else if 239 < c then 4 else 3
  }

  function DecodeFirst(b: Bytes): JsString
    requires b != []
  {
    var c := At(b, 0);
    if c < 128 then FromOne(c)
    else if 191 < c < 224 then FromTwo(c, At(b, 1))
    else if 239 < c then FromFour(c, At(b, 1), At(b, 2), At(b, 3))
    else FromThree(c, At(b, 1), At(b, 2))
  }

  function Decode(b: Bytes): JsString
    decreases |b|
  {
    if b == [] then [] else DecodeFirst(b) + Decode(Drop(b, Taken(b)))
  }

  method Utf8aToString(bytes: Bytes) returns (out: JsString)
    ensures out == Decode(bytes)
  {
    hide Decode, DecodeFirst, FromOne, FromTwo, FromThree, FromFour;
    out := [];
    var pos := 0;
    DecodeNothing();
    while pos < |bytes|
      invariant 0 <= pos
      invariant out + Decode(Drop(bytes, pos)) == Decode(bytes)
      decreases |bytes| - pos
    {
      DecodeStep(bytes, pos, out);
      var c1 := At(bytes, pos);
      pos := pos + 1;
      if c1 < 128 {
        out := out + FromOne(c1);
      } else if c1 > 191 && c1 < 224 {
        var c2 := At(bytes, pos);
        pos := pos + 1;
        out := out + FromTwo(c1, c2);
      } else if c1 > 239 && c1 < 365 {
        var c2, c3, c4 := At(bytes, pos), At(bytes, pos + 1), At(bytes, pos + 2);
        pos := pos + 3;
        out := out + FromFour(c1, c2, c3, c4);
      } else {
        var c2, c3 := At(bytes, pos), At(bytes, pos + 1);
        pos := pos + 2;
        out := out + FromThree(c1, c2, c3);
      }
    }
    assert Drop(bytes, pos) == [] && out + [] == out;
  }

  lemma DecodeNothing()
    ensures Decode([]) == []
  {
  }

  /** One round of the loop, whichever branch it takes. */
  lemma DecodeStep(bytes: Bytes, pos: nat, out: JsString)
    requires pos < |bytes|
    ensures var c1, c2, c3, c4 := At(bytes, pos), At(bytes, pos + 1), At(bytes, pos + 2), At(bytes, pos + 3);
            && c1 < 256
            && out + Decode(Drop(bytes, pos)) ==
               (if c1 < 128 then (out + FromOne(c1)) + Decode(Drop(bytes, pos + 1))
                else if 191 < c1 < 224 then (out + FromTwo(c1, c2)) + Decode(Drop(bytes, pos + 2))
                else if 239 < c1 then (out + FromFour(c1, c2, c3, c4)) + Decode(Drop(bytes, pos + 4))
                else (out + FromThree(c1, c2, c3)) + Decode(Drop(bytes, pos + 3)))
  {
    hide FromOne, FromTwo, FromThree, FromFour;
    var rest := Drop(bytes, pos);
    assert forall i :: 0 <= i < 4 ==> At(rest, i) == At(bytes, pos + i);
    assert Drop(rest, Taken(rest)) == Drop(bytes, pos + Taken(rest));
    DecodeRest(rest, out);
  }

  lemma DecodeRest(b: Bytes, out: JsString)
    requires b != []
    ensures out + Decode(b) == (out + DecodeFirst(b)) + Decode(Drop(b, Taken(b)))
  {
    hide DecodeFirst, Taken;
  }

  // ---- Decoding undoes encoding ---------------------------------------------------------------

  /** What the decoder does depends on the sequence at the front only. */
  lemma DecodeFront(e: Bytes, rest: Bytes)
    requires e != [] && |e| == Taken(e)
    ensures var b := e + rest;
            Taken(b) == |e| && DecodeFirst(b) == DecodeFirst(e) && Drop(b, Taken(b)) == rest
  {
    var b := e + rest;
    assert forall i :: 0 <= i < |e| ==> At(b, i) == At(e, i);
    assert b[|e|..] == rest;
  }

  lemma TwoBytesValue(c: bv32)
    requires 128 <= c < 2048
    ensures 191 < ToUint8((c >> 6) | 192) as bv32 < 224
    ensures ((ToUint8((c >> 6) | 192) as bv32 & 31) << 6) | (ToUint8((c & 63) | 128) as bv32 & 63) == c
  {
  }

  lemma ThreeBytesValue(c: bv32)
    requires c < 0x10000
    ensures 223 < ToUint8((c >> 12) | 224) as bv32 <= 239
    ensures ((ToUint8((c >> 12) | 224) as bv32 & 15) << 12)
            | ((ToUint8(((c >> 6) & 63) | 128) as bv32 & 63) << 6) | (ToUint8((c & 63) | 128) as bv32 & 63) == c
  {
  }

  lemma TwoBytesAreTaken(c: bv32)
    requires 128 <= c < 2048
    ensures Taken(TwoBytes(c)) == 2 && DecodeFirst(TwoBytes(c)) == [ToUint16(c)]
  {
    var e := TwoBytes(c);
    TwoBytesValue(c);
    assert DecodeFirst(e) == FromTwo(At(e, 0), At(e, 1));
  }

  lemma ThreeBytesAreTaken(c: bv32)
    requires c < 0x10000
    ensures Taken(ThreeBytes(c)) == 3 && DecodeFirst(ThreeBytes(c)) == [ToUint16(c)]
  {
    var e := ThreeBytes(c);
    ThreeBytesValue(c);
    assert DecodeFirst(e) == FromThree(At(e, 0), At(e, 1), At(e, 2));
  }

  lemma UnitIsTaken(unit: CodeUnit)
    ensures var e := EncodeUnit(unit); |e| == Taken(e) && DecodeFirst(e) == [unit]
  {
    var c := unit as bv32;
    assert c < 0x10000 && ToUint16(c) == unit;
    if c < 128 {
      assert ToUint8(c) as bv32 == c;
    } else if c < 2048 {
      TwoBytesAreTaken(c);
    } else {
      ThreeBytesAreTaken(c);
    }
  }

  lemma UnitComesBack(unit: CodeUnit, rest: Bytes)
    ensures var b := EncodeUnit(unit) + rest;
            Taken(b) == |EncodeUnit(unit)| && DecodeFirst(b) == [unit] && Drop(b, Taken(b)) == rest
  {
    UnitIsTaken(unit);
    DecodeFront(EncodeUnit(unit), rest);
  }

  lemma PairComesBack(high: CodeUnit, low: CodeUnit, rest: Bytes)
    requires IsHigh(high) && IsLow(low)
    ensures var b := EncodePair(high, low) + rest;
            Taken(b) == 4 && DecodeFirst(b) == [high, low] && Drop(b, Taken(b)) == rest
  {
    var b := EncodePair(high, low) + rest;
    assert forall i :: 0 <= i < 4 ==> b[i] == EncodePair(high, low)[i];
    assert Drop(b, 4) == rest;
  }

  /** For every string, lone and misordered surrogates included. */
  lemma {:induction false} DecodeEncode(s: JsString)
    ensures Decode(Encode(s)) == s
  {
    if s == [] {
    } else if StartsWithPair(s) {
      PairComesBack(s[0], s[1], Encode(s[2..]));
      DecodeEncode(s[2..]);
      assert s == [s[0], s[1]] + s[2..];
    } else {
      UnitComesBack(s[0], Encode(s[1..]));
      DecodeEncode(s[1..]);
      assert s == [s[0]] + s[1..];
    }
  }

  lemma EncodeIsInjective(s: JsString, t: JsString)
    requires Encode(s) == Encode(t)
    ensures s == t
  {
    DecodeEncode(s);
    DecodeEncode(t);
  }

  // ---- The grammar of RFC 3629 ----------------------------------------------------------------

  predicate Tail(b: Bytes, i: nat) { i < |b| && 0x80 <= b[i] <= 0xBF }

  predicate Within(b: Bytes, i: nat, low: Byte, high: Byte) { i < |b| && low <= b[i] <= high }

  /** The length of the UTF8-char (section 4 of RFC 3629) that `b` starts with; 0 if there is none. */
  function CharLength(b: Bytes): (n: nat)
    ensures n <= |b| && n <= 4
  {
    if Within(b, 0, 0x00, 0x7F) then 1
    else if Within(b, 0, 0xC2, 0xDF) && Tail(b, 1) then 2
    else if Within(b, 0, 0xE0, 0xE0) && Within(b, 1, 0xA0, 0xBF) && Tail(b, 2) then 3
    else if Within(b, 0, 0xE1, 0xEC) && Tail(b, 1) && Tail(b, 2) then 3
    else if Within(b, 0, 0xED, 0xED) && Within(b, 1, 0x80, 0x9F) && Tail(b, 2) then 3
    else if Within(b, 0, 0xEE, 0xEF) && Tail(b, 1) && Tail(b, 2) then 3
    else if Within(b, 0, 0xF0, 0xF0) && Within(b, 1, 0x90, 0xBF) && Tail(b, 2) && Tail(b, 3) then 4
    else if Within(b, 0, 0xF1, 0xF3) && Tail(b, 1) && Tail(b, 2) && Tail(b, 3) then 4
    else if Within(b, 0, 0xF4, 0xF4) && Within(b, 1, 0x80, 0x8F) && Tail(b, 2) && Tail(b, 3) then 4
    else 0
  }

  /** UTF8-octets = *( UTF8-char ) */
  predicate Valid(b: Bytes)
    decreases |b|
  {
    b == [] || (CharLength(b) > 0 && Valid(b[CharLength(b)..]))
  }

  lemma UnitMatchesGrammar(unit: CodeUnit, rest: Bytes)
    ensures CharLength(EncodeUnit(unit) + rest) ==
            if IsHigh(unit) || IsLow(unit) then 0 else |EncodeUnit(unit)|
  {
    var b := EncodeUnit(unit) + rest;
    assert forall i :: 0 <= i < |EncodeUnit(unit)| ==> b[i] == EncodeUnit(unit)[i];
  }

  lemma PairMatchesGrammar(high: CodeUnit, low: CodeUnit, rest: Bytes)
    requires IsHigh(high) && IsLow(low)
    ensures CharLength(EncodePair(high, low) + rest) == 4
  {
    var b := EncodePair(high, low) + rest;
    assert forall i :: 0 <= i < 4 ==> b[i] == EncodePair(high, low)[i];
  }

  /** The output is UTF-8 exactly when the input is well-formed UTF-16. */
  lemma {:induction false} EncodeMeetsGrammar(s: JsString)
    ensures Valid(Encode(s)) <==> WellFormed(s)
  {
    if s == [] {
    } else if StartsWithPair(s) {
      PairMatchesGrammar(s[0], s[1], Encode(s[2..]));
      assert Encode(s)[4..] == Encode(s[2..]);
      EncodeMeetsGrammar(s[2..]);
    } else {
      UnitMatchesGrammar(s[0], Encode(s[1..]));
      assert Encode(s)[|EncodeUnit(s[0])|..] == Encode(s[1..]);
      EncodeMeetsGrammar(s[1..]);
    }
  }

  lemma TwoByteChar(c1: Byte, c2: Byte)
    requires 0xC2 <= c1 <= 0xDF && 0x80 <= c2 <= 0xBF
    ensures var c := ((c1 as bv32 & 31) << 6) | (c2 as bv32 & 63);
            && 128 <= c < 2048 && ToUint16(c) as bv32 == c
            && ToUint8((c >> 6) | 192) == c1 && ToUint8((c & 63) | 128) == c2
  {
  }

  lemma ThreeByteChar(c1: Byte, c2: Byte, c3: Byte)
    requires 0xE0 <= c1 <= 0xEF && 0x80 <= c2 <= 0xBF && 0x80 <= c3 <= 0xBF
    requires (c1 == 0xE0 ==> 0xA0 <= c2) && (c1 == 0xED ==> c2 <= 0x9F)
    ensures var c := ((c1 as bv32 & 15) << 12) | ((c2 as bv32 & 63) << 6) | (c3 as bv32 & 63);
            && 2048 <= c < 0x10000 && !(0xD800 <= c <= 0xDFFF)
  {
  }

  lemma ThreeByteCharBytes(c1: Byte, c2: Byte, c3: Byte)
    requires 0xE0 <= c1 <= 0xEF && 0x80 <= c2 <= 0xBF && 0x80 <= c3 <= 0xBF
    ensures var c := ((c1 as bv32 & 15) << 12) | ((c2 as bv32 & 63) << 6) | (c3 as bv32 & 63);
            ToUint8((c >> 12) | 224) == c1 && ToUint8(((c >> 6) & 63) | 128) == c2 && ToUint8((c & 63) | 128) == c3
  {
  }

  lemma UnitOfValue(c: bv32)
    requires c < 0x10000
    ensures ToUint16(c) as bv32 == c
    ensures !(0xD800 <= c <= 0xDFFF) ==> !IsHigh(ToUint16(c)) && !IsLow(ToUint16(c))
  {
  }

  lemma FourByteChar(c1: Byte, c2: Byte, c3: Byte, c4: Byte)
    requires 0xF0 <= c1 <= 0xF4 && 0x80 <= c2 <= 0xBF && 0x80 <= c3 <= 0xBF && 0x80 <= c4 <= 0xBF
    requires (c1 == 0xF0 ==> 0x90 <= c2) && (c1 == 0xF4 ==> c2 <= 0x8F)
    ensures var u := (((c1 as bv32 & 7) << 18) | ((c2 as bv32 & 63) << 12) | ((c3 as bv32 & 63) << 6)
                      | (c4 as bv32 & 63)) - 0x10000;
            var high, low := ToUint16(0xD800 + (u >> 10)), ToUint16(0xDC00 + (u & 1023));
            var c := PairValue(high, low);
            && IsHigh(high) && IsLow(low)
            && ToUint8((c >> 18) | 240) == c1 && ToUint8(((c >> 12) & 63) | 128) == c2
            && ToUint8(((c >> 6) & 63) | 128) == c3 && ToUint8((c & 63) | 128) == c4
  {
  }

  lemma TwoByteCharComesBack(c1: Byte, c2: Byte)
    requires 0xC2 <= c1 <= 0xDF && 0x80 <= c2 <= 0xBF
    ensures var s := FromTwo(c1 as bv32, c2 as bv32);
            !IsHigh(s[0]) && !IsLow(s[0]) && EncodeUnit(s[0]) == [c1, c2]
  {
    TwoByteChar(c1, c2);
    SurrogatesAreLarge(FromTwo(c1 as bv32, c2 as bv32)[0]);
  }

  lemma ThreeByteCharComesBack(c1: Byte, c2: Byte, c3: Byte)
    requires 0xE0 <= c1 <= 0xEF && 0x80 <= c2 <= 0xBF && 0x80 <= c3 <= 0xBF
    requires (c1 == 0xE0 ==> 0xA0 <= c2) && (c1 == 0xED ==> c2 <= 0x9F)
    ensures var s := FromThree(c1 as bv32, c2 as bv32, c3 as bv32);
            !IsHigh(s[0]) && !IsLow(s[0]) && EncodeUnit(s[0]) == [c1, c2, c3]
  {
    var c := ((c1 as bv32 & 15) << 12) | ((c2 as bv32 & 63) << 6) | (c3 as bv32 & 63);
    assert 2048 <= c < 0x10000 && !(0xD800 <= c <= 0xDFFF) by {
      ThreeByteChar(c1, c2, c3);
    }
    UnitOfValue(c);
    assert ThreeBytes(c) == [c1, c2, c3] by {
      ThreeByteCharBytes(c1, c2, c3);
    }
  }

  lemma FourByteCharComesBack(c1: Byte, c2: Byte, c3: Byte, c4: Byte)
    requires 0xF0 <= c1 <= 0xF4 && 0x80 <= c2 <= 0xBF && 0x80 <= c3 <= 0xBF && 0x80 <= c4 <= 0xBF
    requires (c1 == 0xF0 ==> 0x90 <= c2) && (c1 == 0xF4 ==> c2 <= 0x8F)
    ensures var s := FromFour(c1 as bv32, c2 as bv32, c3 as bv32, c4 as bv32);
            IsHigh(s[0]) && IsLow(s[1]) && EncodePair(s[0], s[1]) == [c1, c2, c3, c4]
  {
    FourByteChar(c1, c2, c3, c4);
  }

  /** A UTF8-char decodes to one code unit or one pair, which encodes to the same bytes. */
  ghost predicate Matches(n: nat, s: JsString, b: Bytes) {
    if n == 4 then |s| == 2 && IsHigh(s[0]) && IsLow(s[1]) && EncodePair(s[0], s[1]) == b
    else |s| == 1 && !IsHigh(s[0]) && !IsLow(s[0]) && EncodeUnit(s[0]) == b
  }

  lemma CharComesBack(b: Bytes)
    requires CharLength(b) > 0
    ensures Taken(b) == CharLength(b) && Matches(Taken(b), DecodeFirst(b), b[..Taken(b)])
  {
    match CharLength(b) {
      case 1 => OneByteCharComesBack(b);
      case 2 => TwoByteComesBackInFront(b);
      case 3 => ThreeByteComesBackInFront(b);
      case _ => FourByteComesBackInFront(b);
    }
  }

  lemma TwoByteComesBackInFront(b: Bytes)
    requires CharLength(b) == 2
    ensures Taken(b) == 2 && Matches(2, DecodeFirst(b), b[..2])
  {
    assert b[..2] == [b[0], b[1]];
    LeadOfTwo(b[0]);
    TwoByteCharComesBack(b[0], b[1]);
  }

  lemma ThreeByteComesBackInFront(b: Bytes)
    requires CharLength(b) == 3
    ensures Taken(b) == 3 && Matches(3, DecodeFirst(b), b[..3])
  {
    assert b[..3] == [b[0], b[1], b[2]];
    LeadOfThree(b[0]);
    ThreeByteCharComesBack(b[0], b[1], b[2]);
  }

  lemma FourByteComesBackInFront(b: Bytes)
    requires CharLength(b) == 4
    ensures Taken(b) == 4 && Matches(4, DecodeFirst(b), b[..4])
  {
    assert b[..4] == [b[0], b[1], b[2], b[3]];
    LeadOfFour(b[0]);
    FourByteCharComesBack(b[0], b[1], b[2], b[3]);
  }

  lemma OneByteCharComesBack(b: Bytes)
    requires CharLength(b) == 1
    ensures Taken(b) == 1 && Matches(1, DecodeFirst(b), b[..1])
  {
    assert b[..1] == [b[0]];
    OneByteChar(b[0]);
  }

  lemma OneByteChar(c: Byte)
    requires c <= 0x7F
    ensures var unit := ToUint16(c as bv32);
            c as bv32 < 128 && !IsHigh(unit) && !IsLow(unit) && EncodeUnit(unit) == [c]
  {
  }

  lemma LeadOfTwo(c: Byte)
    requires 0xC2 <= c <= 0xDF
    ensures 191 < c as bv32 < 224
  {
  }

  lemma LeadOfThree(c: Byte)
    requires 0xE0 <= c <= 0xEF
    ensures 223 < c as bv32 <= 239
  {
  }

  lemma LeadOfFour(c: Byte)
    requires 0xF0 <= c
    ensures 239 < c as bv32
  {
  }

  /** Conversely, valid UTF-8 decodes to well-formed UTF-16 and encodes to the same bytes again. */
  lemma {:induction false} EncodeDecode(b: Bytes)
    requires Valid(b)
    ensures WellFormed(Decode(b)) && Encode(Decode(b)) == b
    decreases |b|
  {
    hide EncodeUnit, EncodePair, DecodeFirst, CharLength, IsHigh, IsLow;
    if b != [] {
      var n, s := CharLength(b), DecodeFirst(b);
      CharComesBack(b);
      EncodeDecode(b[n..]);
      assert Drop(b, n) == b[n..];
      var d := Decode(b);
      assert d == s + Decode(b[n..]) && d[|s|..] == Decode(b[n..]);
      assert b == b[..n] + b[n..];
    }
  }

  // ---- Concatenation --------------------------------------------------------------------------

  /** The end of `s` and the start of `t` form a surrogate pair. */
  predicate SplitsPair(s: JsString, t: JsString) {
    s != [] && t != [] && IsHigh(s[|s| - 1]) && IsLow(t[0])
  }

  lemma {:induction false} EncodeConcat(s: JsString, t: JsString)
    requires !SplitsPair(s, t)
    ensures Encode(s + t) == Encode(s) + Encode(t)
  {
    hide Encode, EncodeUnit, EncodePair, IsHigh, IsLow;
    EncodeNothing();
    if s == [] {
      assert s + t == t;
      assert Encode(s) + Encode(t) == Encode(t);
    } else {
      var n := if StartsWithPair(s) then 2 else 1;
      assert (s + t)[n..] == s[n..] + t;
      assert n == 2 <==> StartsWithPair(s + t);
      assert !SplitsPair(s[n..], t);
      EncodeConcat(s[n..], t);
      var first := if n == 2 then EncodePair(s[0], s[1]) else EncodeUnit(s[0]);
      assert Encode(s) == first + Encode(s[n..]) by {
        EncodeFirst(s, []);
        assert [] + Encode(s) == Encode(s) && [] + first == first;
      }
      assert Encode(s + t) == first + Encode(s[n..] + t) by {
        EncodeFirst(s + t, []);
        assert [] + Encode(s + t) == Encode(s + t) && [] + first == first;
      }
    }
  }

  lemma LowIsNotHigh(c: CodeUnit)
    ensures !(IsHigh(c) && IsLow(c))
  {
  }

  lemma LoneSurrogateLength(c: CodeUnit)
    requires IsHigh(c) || IsLow(c)
    ensures |EncodeUnit(c)| == 3
    ensures forall d :: |EncodePair(c, d)| == 4
  {
    SurrogatesAreLarge(c);
  }

  /** Encoding distributes over concatenation exactly when the cut does not split a pair. */
  lemma EncodeDistributes(s: JsString, t: JsString)
    ensures Encode(s + t) == Encode(s) + Encode(t) <==> !SplitsPair(s, t)
  {
    hide EncodeUnit, EncodePair, IsHigh, IsLow;
    if SplitsPair(s, t) {
      LowIsNotHigh(s[|s| - 1]);
      LowIsNotHigh(t[0]);
      LoneSurrogateLength(s[|s| - 1]);
      LoneSurrogateLength(t[0]);
      var init, high, low, rest := s[..|s| - 1], s[|s| - 1], t[0], t[1..];
      assert s == init + [high] && t == [low] + rest && s + t == init + ([high, low] + rest);
      EncodeConcat(init, [high]);
      EncodeConcat(init, [high, low] + rest);
      assert ([high, low] + rest)[2..] == rest && ([low] + rest)[1..] == rest && [high][1..] == [];
      assert |Encode([high, low] + rest)| == 4 + |Encode(rest)|;
      assert |Encode([low] + rest)| == 3 + |Encode(rest)| && |Encode([high])| == 3;
    } else {
      EncodeConcat(s, t);
    }
  }

  // ---- The bytes of a character ---------------------------------------------------------------

  /** The number a sequence of octets stands for, by the table in section 3 of RFC 3629. */
  function ScalarValue(b: Bytes): bv32
    requires 1 <= |b| <= 4
  {
    if |b| == 1 then b[0] as bv32
    else if |b| == 2 then ((b[0] as bv32 - 0xC0) << 6) + (b[1] as bv32 - 0x80)
    else if |b| == 3 then
      ((b[0] as bv32 - 0xE0) << 12) + ((b[1] as bv32 - 0x80) << 6) + (b[2] as bv32 - 0x80)
    else
      ((b[0] as bv32 - 0xF0) << 18) + ((b[1] as bv32 - 0x80) << 12) + ((b[2] as bv32 - 0x80) << 6)
      + (b[3] as bv32 - 0x80)
  }

  /** A code unit on its own is encoded as its own number. */
  lemma UnitHasItsValue(unit: CodeUnit)
    ensures 1 <= |Encode([unit])| <= 3 && ScalarValue(Encode([unit])) == unit as bv32
  {
    EncodeOne(unit);
    hide Encode, EncodeUnit;
    ValueOfUnit(unit);
  }

  lemma EncodeOne(unit: CodeUnit)
    ensures Encode([unit]) == EncodeUnit(unit)
  {
    hide EncodeUnit, IsHigh, IsLow;
    assert [unit][1..] == [];
    assert EncodeUnit(unit) + [] == EncodeUnit(unit);
  }

  lemma ValueOfUnit(unit: CodeUnit)
    ensures 1 <= |EncodeUnit(unit)| <= 3 && ScalarValue(EncodeUnit(unit)) == unit as bv32
  {
    var c := unit as bv32;
    if FitsOneByte(c) {
    } else if FitsTwoBytes(c) {
      ValueOfTwo(c);
    } else {
      ValueOfThree(c);
    }
  }

  lemma ValueOfTwo(c: bv32)
    requires 128 <= c < 2048
    ensures ScalarValue(TwoBytes(c)) == c
  {
  }

  lemma ValueOfThree(c: bv32)
    requires 2048 <= c <= 0xFFFF
    ensures ScalarValue(ThreeBytes(c)) == c
  {
  }

  /** A surrogate pair is encoded as the number it stands for in UTF-16. */
  lemma PairHasItsValue(high: CodeUnit, low: CodeUnit)
    requires IsHigh(high) && IsLow(low)
    ensures |Encode([high, low])| == 4
    ensures ScalarValue(Encode([high, low])) == 0x10000 + ((high as bv32 - 0xD800) << 10) + (low as bv32 - 0xDC00)
  {
    assert Encode([high, low]) == EncodePair(high, low) by {
      EncodeTwo(high, low);
    }
    hide Encode;
    var c := PairValue(high, low);
    PairIsScalar(high, low);
    ValueOfFour(c);
  }

  lemma EncodeTwo(high: CodeUnit, low: CodeUnit)
    requires IsHigh(high) && IsLow(low)
    ensures Encode([high, low]) == EncodePair(high, low)
  {
    hide EncodePair, IsHigh, IsLow;
    assert [high, low][2..] == [];
    assert EncodePair(high, low) + [] == EncodePair(high, low);
  }

  lemma PairIsScalar(high: CodeUnit, low: CodeUnit)
    requires IsHigh(high) && IsLow(low)
    ensures 0x10000 <= PairValue(high, low) <= 0x10FFFF
    ensures PairValue(high, low) == 0x10000 + ((high as bv32 - 0xD800) << 10) + (low as bv32 - 0xDC00)
  {
    OffsetOfHigh(high);
    OffsetOfLow(low);
    hide IsHigh, IsLow;
    TenBitsEach(high as bv32 & 0x3FF, low as bv32 & 0x3FF);
  }

  lemma OffsetOfHigh(c: CodeUnit)
    requires IsHigh(c)
    ensures c as bv32 & 0x3FF == c as bv32 - 0xD800 && c as bv32 & 0x3FF <= 0x3FF
  {
  }

  lemma OffsetOfLow(c: CodeUnit)
    requires IsLow(c)
    ensures c as bv32 & 0x3FF == c as bv32 - 0xDC00 && c as bv32 & 0x3FF <= 0x3FF
  {
  }

  lemma TenBitsEach(high: bv32, low: bv32)
    requires high <= 0x3FF && low <= 0x3FF
    ensures 0x10000 <= 0x10000 + (high << 10) + low <= 0x10FFFF
  {
  }

  lemma ValueOfFour(c: bv32)
    requires 0x10000 <= c <= 0x10FFFF
    ensures |FourBytes(c)| == 4 && ScalarValue(FourBytes(c)) == c
  {
  }

  /** Octets missing at the end count as zeros. */
  lemma TruncatedReadsZeros(b: Bytes)
    requires b != []
    ensures DecodeFirst(b) == DecodeFirst(b + [0, 0, 0])
  {
    var padded := b + [0, 0, 0];
    assert forall i :: 0 <= i < 4 ==> At(b, i) == At(padded, i);
    hide At, FromOne, FromTwo, FromThree, FromFour;
  }
}
