/** The texts src/services/keystore.ts keeps in local storage. */
module StoredText {
  import opened Prelude
  import Hex

  const QUOTE: CodeUnit := 34
  const COMMA: CodeUnit := 44

  /** What `storeTrustedKey` passes to `JSON.stringify`. */
  datatype Record = Record(nonce: JsString, salt: JsString, n: nat, r: nat, p: nat, encrypted: JsString)

  /** Hexadecimal texts and safe integers: what such a record is made of, so that nothing needs escaping. */
  ghost predicate Proper(record: Record) {
    && Hex.AllDigits(record.nonce) && Hex.AllDigits(record.salt) && Hex.AllDigits(record.encrypted)
    && record.n < 0x20_0000_0000_0000 && record.r < 0x20_0000_0000_0000 && record.p < 0x20_0000_0000_0000
  }

  // ---- JSON.stringify -------------------------------------------------------------------------

  function DecimalDigit(d: nat): CodeUnit
    requires d < 10
  {
    if d == 0 then 48 else if d == 1 then 49 else if d == 2 then 50 else if d == 3 then 51 else if d == 4 then 52
    else if d == 5 then 53 else if d == 6 then 54 else if d == 7 then 55 else if d == 8 then 56 else 57
  }

  function Decimal(n: nat): (s: JsString)
    ensures s != []
  {
    (if n < 10 then [] else Decimal(n / 10)) + [DecimalDigit(n % 10)]
  }

  /** `"name":` */
  function Key(name: JsString): JsString { [QUOTE] + name + [QUOTE, COLON] }

  /** `text`, the character that ends it, and what follows. */
  function UpTo(text: JsString, end: CodeUnit, rest: JsString): JsString { text + ([end] + rest) }

  const NONCE: JsString := [110, 111, 110, 99, 101]
  const SALT: JsString := [115, 97, 108, 116]
  const ENCRYPTED: JsString := [101, 110, 99, 114, 121, 112, 116, 101, 100]

  function FromEncrypted(record: Record): JsString {
    (Key(ENCRYPTED) + [QUOTE]) + UpTo(record.encrypted, QUOTE, [125])
  }

  function FromP(record: Record): JsString { Key([112]) + UpTo(Decimal(record.p), COMMA, FromEncrypted(record)) }

  function FromR(record: Record): JsString { Key([114]) + UpTo(Decimal(record.r), COMMA, FromP(record)) }

  function FromN(record: Record): JsString { ([COMMA] + Key([78])) + UpTo(Decimal(record.n), COMMA, FromR(record)) }

  function FromSalt(record: Record): JsString {
    ([COMMA] + Key(SALT) + [QUOTE]) + UpTo(record.salt, QUOTE, FromN(record))
  }

  function Stringify(record: Record): JsString {
    ([123] + Key(NONCE) + [QUOTE]) + UpTo(record.nonce, QUOTE, FromSalt(record))
  }

  // ---- Different records have different texts -------------------------------------------------

  /** Texts that do not contain the character ending them are recognized behind a common key. */
  lemma MemberComesBack(key: JsString, a: JsString, b: JsString, end: CodeUnit, x: JsString, y: JsString)
    requires end !in a && end !in b
    requires key + UpTo(a, end, x) == key + UpTo(b, end, y)
    ensures a == b && x == y
  {
    var s, t := UpTo(a, end, x), UpTo(b, end, y);
    assert s == (key + s)[|key|..] && t == (key + t)[|key|..];
    assert s[|a|] == end && t[|b|] == end;
    assert (forall i :: 0 <= i < |a| ==> s[i] == a[i]) && (forall i :: 0 <= i < |b| ==> t[i] == b[i]);
    assert |a| == |b|;
    assert a == s[..|a|] && b == t[..|b|];
    assert x == s[|a| + 1..] && y == t[|b| + 1..];
  }

  lemma DecimalDigitIsPlain(d: nat, e: nat)
    requires d < 10 && e < 10
    ensures DecimalDigit(d) == DecimalDigit(e) <==> d == e
    ensures DecimalDigit(d) != COMMA
  {
  }

  lemma {:induction false} DecimalIsPlain(n: nat)
    ensures COMMA !in Decimal(n)
  {
    DecimalDigitIsPlain(n % 10, 0);
    if n >= 10 {
      DecimalIsPlain(n / 10);
    }
  }

  lemma {:induction false} DecimalIsInjective(a: nat, b: nat)
    requires Decimal(a) == Decimal(b)
    ensures a == b
  {
    var s := Decimal(a);
    assert s[|s| - 1] == DecimalDigit(a % 10) == DecimalDigit(b % 10);
    DecimalDigitIsPlain(a % 10, b % 10);
    if a >= 10 && b >= 10 {
      assert Decimal(a / 10) == s[..|s| - 1] == Decimal(b / 10);
      DecimalIsInjective(a / 10, b / 10);
    }
  }

  lemma DigitsHaveNoQuote(s: JsString)
    requires Hex.AllDigits(s)
    ensures QUOTE !in s
  {
  }

  /** So `JSON.parse` can undo `JSON.stringify` on them. */
  lemma StringifyIsInjective(a: Record, b: Record)
    requires Proper(a) && Proper(b) && Stringify(a) == Stringify(b)
    ensures a == b
  {
    hide Key, Decimal, UpTo, Hex.AllDigits;
    DigitsHaveNoQuote(a.nonce);
    DigitsHaveNoQuote(b.nonce);
    MemberComesBack([123] + Key(NONCE) + [QUOTE], a.nonce, b.nonce, QUOTE, FromSalt(a), FromSalt(b));
    DigitsHaveNoQuote(a.salt);
    DigitsHaveNoQuote(b.salt);
    MemberComesBack([COMMA] + Key(SALT) + [QUOTE], a.salt, b.salt, QUOTE, FromN(a), FromN(b));
    CostsComeBack(a, b);
    DigitsHaveNoQuote(a.encrypted);
    DigitsHaveNoQuote(b.encrypted);
    MemberComesBack(Key(ENCRYPTED) + [QUOTE], a.encrypted, b.encrypted, QUOTE, [125], [125]);
  }

  lemma CostsComeBack(a: Record, b: Record)
    requires FromN(a) == FromN(b)
    ensures a.n == b.n && a.r == b.r && a.p == b.p && FromEncrypted(a) == FromEncrypted(b)
  {
    hide Key, Decimal, UpTo, FromEncrypted;
    forall n: nat ensures COMMA !in Decimal(n) {
      DecimalIsPlain(n);
    }
    MemberComesBack([COMMA] + Key([78]), Decimal(a.n), Decimal(b.n), COMMA, FromR(a), FromR(b));
    MemberComesBack(Key([114]), Decimal(a.r), Decimal(b.r), COMMA, FromP(a), FromP(b));
    MemberComesBack(Key([112]), Decimal(a.p), Decimal(b.p), COMMA, FromEncrypted(a), FromEncrypted(b));
    DecimalIsInjective(a.n, b.n);
    DecimalIsInjective(a.r, b.r);
    DecimalIsInjective(a.p, b.p);
  }

  // ---- split(':') -----------------------------------------------------------------------------

  function Split(s: JsString): (parts: seq<JsString>)
    ensures |parts| > 0
  {
    if s == [] then [[]]
    else
      var parts, last := Split(s[..|s| - 1]), s[|s| - 1];
      if last == COLON then parts + [[]]
      else parts[|parts| - 1 := parts[|parts| - 1] + [last]]
  }

  lemma SplitNext(s: JsString, c: CodeUnit)
    ensures Split([]) == [[]]
    ensures Split(s + [c]) ==
            if c == COLON then Split(s) + [[]] else Split(s)[|Split(s)| - 1 := Split(s)[|Split(s)| - 1] + [c]]
  {
    assert (s + [c])[..|s|] == s;
  }

  lemma {:induction false} SplitJoins(a: JsString, b: JsString)
    requires COLON !in b
    ensures Split(a + b) == Split(a)[|Split(a)| - 1 := Split(a)[|Split(a)| - 1] + b]
    decreases |b|
  {
    hide Split;
    var parts := Split(a);
    if b == [] {
      assert a + b == a;
      assert parts[|parts| - 1] + [] == parts[|parts| - 1];
    } else {
      var init, last := b[..|b| - 1], b[|b| - 1];
      SplitJoins(a, init);
      SplitNext(a + init, last);
      assert a + b == (a + init) + [last];
      assert (parts[|parts| - 1] + init) + [last] == parts[|parts| - 1] + b;
    }
  }

  /** Two parts without a colon come apart again. */
  lemma SplitTwo(a: JsString, b: JsString)
    requires COLON !in a && COLON !in b
    ensures Split(a + [COLON] + b) == [a, b]
  {
    SplitJoins([], a);
    assert [] + a == a;
    assert Split(a) == [a];
    assert (a + [COLON])[..|a|] == a;
    assert Split(a + [COLON]) == [a, []];
    SplitJoins(a + [COLON], b);
    assert [] + b == b;
  }

  lemma {:induction false} SplitGrows(a: JsString, b: JsString)
    ensures |Split(a + b)| >= |Split(a)| + (if COLON in b then 1 else 0)
    decreases |b|
  {
    if b == [] {
      assert a + b == a;
    } else {
      var init, last := b[..|b| - 1], b[|b| - 1];
      SplitGrows(a, init);
      assert (a + b)[..|a + b| - 1] == a + init;
      assert b == init + [last];
    }
  }

  lemma KeyHasColon(before: JsString, name: JsString)
    ensures COLON in before + Key(name) + [QUOTE]
  {
    assert (before + Key(name) + [QUOTE])[|before| + |name| + 2] == COLON;
  }

  /** A record in the current format is never taken for the deprecated two-part one. */
  lemma RecordHasManyParts(record: Record)
    ensures |Split(Stringify(record))| > 2
    ensures COLON in Stringify(record)
  {
    hide Split, FromN, Key;
    var key, rest := [123] + Key(NONCE) + [QUOTE], UpTo(record.nonce, QUOTE, FromSalt(record));
    KeyHasColon([123], NONCE);
    KeyHasColon([COMMA], SALT);
    assert [] + key == key;
    SplitGrows([], key);
    SplitGrows(key, rest);
  }

  lemma RecordIsLong(record: Record)
    ensures |Stringify(record)| > |record.nonce| + |record.salt| + |record.encrypted|
  {
  }

  lemma DigitIsNoColon(c: CodeUnit)
    requires Hex.IsDigit(c)
    ensures c != COLON
  {
  }

  lemma HexHasNoColon(bytes: Bytes)
    ensures COLON !in Hex.HexOf(bytes)
  {
    Hex.HexHasDigitsOnly(bytes);
    forall i | 0 <= i < |Hex.HexOf(bytes)| ensures Hex.HexOf(bytes)[i] != COLON {
      DigitIsNoColon(Hex.HexOf(bytes)[i]);
    }
  }

  // ---- What the text says ---------------------------------------------------------------------

  /** The number decimal digits stand for. */
  function DigitNumber(c: CodeUnit): nat {
    if c == 49 then 1 else if c == 50 then 2 else if c == 51 then 3 else if c == 52 then 4 else if c == 53 then 5
    else if c == 54 then 6 else if c == 55 then 7 else if c == 56 then 8 else if c == 57 then 9 else 0
  }

  function DecimalNumber(s: JsString): nat {
    if s == [] then 0 else 10 * DecimalNumber(s[..|s| - 1]) + DigitNumber(s[|s| - 1])
  }

  lemma DigitIsNumber(d: nat)
    requires d < 10
    ensures DigitNumber(DecimalDigit(d)) == d && (d > 0 ==> DecimalDigit(d) != 48)
  {
  }

  lemma DecimalNext(n: nat)
    ensures Decimal(n) == (if n < 10 then [] else Decimal(n / 10)) + [DecimalDigit(n % 10)]
  {
  }

  lemma {:induction false} DecimalIsNumber(n: nat)
    ensures DecimalNumber(Decimal(n)) == n
    ensures n > 0 ==> Decimal(n)[0] != 48
  {
    hide Decimal, DecimalNumber, DecimalDigit, DigitNumber;
    DecimalNext(n);
    DigitIsNumber(n % 10);
    if n < 10 {
      AppendedDigit([], DecimalDigit(n));
    } else {
      DecimalIsNumber(n / 10);
      AppendedDigit(Decimal(n / 10), DecimalDigit(n % 10));
    }
  }

  lemma AppendedDigit(s: JsString, c: CodeUnit)
    ensures DecimalNumber(s + [c]) == 10 * DecimalNumber(s) + DigitNumber(c)
    ensures DecimalNumber([]) == 0
  {
    assert (s + [c])[..|s|] == s;
  }

  /** The record as JSON: its six members in order, written out. */
  lemma StringifyIsJson(record: Record)
    ensures Stringify(record) ==
            [123, 34, 110, 111, 110, 99, 101, 34, 58, 34] + record.nonce + [34]
            + ([44, 34, 115, 97, 108, 116, 34, 58, 34] + record.salt + [34]
               + ([44, 34, 78, 34, 58] + Decimal(record.n) + [44]
                  + ([34, 114, 34, 58] + Decimal(record.r) + [44]
                     + ([34, 112, 34, 58] + Decimal(record.p) + [44]
                        + ([34, 101, 110, 99, 114, 121, 112, 116, 101, 100, 34, 58, 34] + record.encrypted + [34]
                           + [125])))))
  {
    hide Decimal, Key, UpTo;
    KeysAre();
    MemberIs([123] + Key(NONCE) + [QUOTE], record.nonce, QUOTE, FromSalt(record));
    MemberIs([COMMA] + Key(SALT) + [QUOTE], record.salt, QUOTE, FromN(record));
    MemberIs([COMMA] + Key([78]), Decimal(record.n), COMMA, FromR(record));
    MemberIs(Key([114]), Decimal(record.r), COMMA, FromP(record));
    MemberIs(Key([112]), Decimal(record.p), COMMA, FromEncrypted(record));
    MemberIs(Key(ENCRYPTED) + [QUOTE], record.encrypted, QUOTE, [125]);
  }

  lemma MemberIs(key: JsString, text: JsString, end: CodeUnit, rest: JsString)
    ensures key + UpTo(text, end, rest) == key + text + [end] + rest
  {
    assert key + (text + ([end] + rest)) == key + text + [end] + rest;
  }

  lemma KeysAre()
    ensures [123] + Key(NONCE) + [QUOTE] == [123, 34, 110, 111, 110, 99, 101, 34, 58, 34]
    ensures [COMMA] + Key(SALT) + [QUOTE] == [44, 34, 115, 97, 108, 116, 34, 58, 34]
    ensures [COMMA] + Key([78]) == [44, 34, 78, 34, 58]
    ensures Key([114]) == [34, 114, 34, 58] && Key([112]) == [34, 112, 34, 58]
    ensures Key(ENCRYPTED) + [QUOTE] == [34, 101, 110, 99, 114, 121, 112, 116, 101, 100, 34, 58, 34]
  {
  }
}
