/** src/services/keystore.ts: how a push token and its type are put into bytes. */
module PushTokens {
  import opened Prelude
  import opened Utf8

  datatype TokenType = Fcm | Apns | Hms | ThreemaGateway

  datatype Token = Token(token: Option<JsString>, tokenType: Option<TokenType>)

  const NO_TOKEN := Token(None, None)

  const BOM: CodeUnit := 0xFEFF

  /** 'g', 'a', 'h' and '3'. */
  function Prefix(t: TokenType): CodeUnit {
    match t case Fcm => 103 case Apns => 97 case Hms => 104 case ThreemaGateway => 51
  }

  function TypeOf(prefix: CodeUnit): Option<TokenType> {
    if prefix == 103 then Some(Fcm)
    else if prefix == 97 then Some(Apns)
    else if prefix == 104 then Some(Hms)
    else if prefix == 51 then Some(ThreemaGateway)
    else None
  }

  /** Lone surrogates become U+FFFD. */
  function Scrub(s: JsString): (r: JsString)
    ensures |r| == |s|
  {
    if s == [] then []
    else if StartsWithPair(s) then s[..2] + Scrub(s[2..])
    else [if IsHigh(s[0]) || IsLow(s[0]) then 0xFFFD else s[0]] + Scrub(s[1..])
  }

  /** `new TextEncoder().encode(s)`. */
  function TextEncode(s: JsString): Bytes { Encode(Scrub(s)) }

  /** `new TextDecoder('utf-8', {fatal: true}).decode(b)`; `None` when it throws. */
  function TextDecode(b: Bytes): Option<JsString> {
    if !Valid(b) then None
    else
      var s := Decode(b);
      Some(if s != [] && s[0] == BOM then s[1..] else s)
  }

  function EncodeToken(token: JsString, t: TokenType): Bytes { TextEncode([Prefix(t), COLON] + token) }

  /** A token after its type prefix; without a prefix, an FCM token. */
  function TokenOf(s: JsString): Token {
    if |s| > 1 && s[1] == COLON then
      match TypeOf(s[0])
      case None => NO_TOKEN
      case Some(t) => Token(Some(s[2..]), Some(t))
    else Token(Some(s), Some(Fcm))
  }

  /** `None` when the decoder throws. */
  function DecodeToken(encoded: Bytes): Option<Token> {
    if encoded == [] then Some(NO_TOKEN)
    else match TextDecode(encoded)
      case None => None
      case Some(s) => Some(TokenOf(s))
  }

  lemma {:induction false} ScrubIsWellFormed(s: JsString)
    ensures WellFormed(Scrub(s))
    ensures Scrub(s) == s <==> WellFormed(s)
  {
    if s == [] {
    } else if StartsWithPair(s) {
      ScrubIsWellFormed(s[2..]);
      assert Scrub(s)[2..] == Scrub(s[2..]) && s == s[..2] + s[2..];
    } else {
      ScrubIsWellFormed(s[1..]);
      assert Scrub(s)[1..] == Scrub(s[1..]) && s == [s[0]] + s[1..];
      ReplacementIsPlain();
    }
  }

  lemma ReplacementIsPlain()
    ensures !IsHigh(0xFFFD) && !IsLow(0xFFFD)
  {
  }

  lemma PrefixIsPlain(t: TokenType)
    ensures !IsHigh(Prefix(t)) && !IsLow(Prefix(t)) && Prefix(t) != BOM && TypeOf(Prefix(t)) == Some(t)
    ensures !IsHigh(COLON) && !IsLow(COLON)
  {
  }

  /** Only a byte order mark gets lost. */
  lemma TextOfEncoded(s: JsString)
    requires WellFormed(s) && s != []
    ensures TextDecode(Encode(s)) == Some(if s[0] == BOM then s[1..] else s) && Encode(s) != []
  {
    EncodeMeetsGrammar(s);
    DecodeEncode(s);
  }

  lemma ScrubWithPrefix(t: TokenType, token: JsString)
    ensures Scrub([Prefix(t), COLON] + token) == [Prefix(t), COLON] + Scrub(token)
  {
    PrefixIsPlain(t);
    var s := [Prefix(t), COLON] + token;
    assert s[1..] == [COLON] + token && s[1..][1..] == token;
    assert !StartsWithPair(s) && !StartsWithPair(s[1..]);
  }

  /** The type always comes back; the token does exactly when it is well-formed UTF-16. */
  lemma TokenRoundTrip(token: JsString, t: TokenType)
    ensures DecodeToken(EncodeToken(token, t)) == Some(Token(Some(Scrub(token)), Some(t)))
    ensures EncodeToken(token, t) != []
    ensures DecodeToken(EncodeToken(token, t)) == Some(Token(Some(token), Some(t))) <==> WellFormed(token)
  {
    var s := [Prefix(t), COLON] + Scrub(token);
    ScrubWithPrefix(t, token);
    ScrubIsWellFormed([Prefix(t), COLON] + token);
    PrefixIsPlain(t);
    TextOfEncoded(s);
    assert s[2..] == Scrub(token);
    ScrubIsWellFormed(token);
  }

  /**
    * Tokens stored before there were prefixes are taken for FCM tokens exactly when they are not empty,
    * well-formed, without a byte order mark in front, and their second character is no colon.
    */
  lemma LegacyToken(token: JsString)
    ensures DecodeToken(TextEncode(token)) == Some(Token(Some(token), Some(Fcm)))
            <==> token != [] && WellFormed(token) && token[0] != BOM && !(|token| > 1 && token[1] == COLON)
  {
    hide Encode, TextDecode, Scrub, WellFormed, TokenOf;
    ScrubIsWellFormed(token);
    var s := Scrub(token);
    if s == [] {
      assert Encode(s) == [] by {
        EncodeDecode([]);
      }
    } else {
      TextOfEncoded(s);
      var t := TextDecode(Encode(s)).value;
      PlainText(t);
      assert DecodeToken(TextEncode(token)) == Some(TokenOf(t));
    }
  }

  lemma PlainText(s: JsString)
    ensures TokenOf(s) == Token(Some(s), Some(Fcm)) <==> !(|s| > 1 && s[1] == COLON)
    ensures |s| > 1 && s[1] == COLON && TokenOf(s).token.Some? ==> |TokenOf(s).token.value| < |s|
  {
  }

  /** The letters in front of a stored token: g, a, h and 3; any other letter before a colon gives no token. */
  lemma PrefixesOfTypes(prefix: CodeUnit, token: JsString)
    requires WellFormed([prefix, 58] + token) && prefix != BOM
    ensures DecodeToken(TextEncode([prefix, 58] + token)) ==
            Some(if prefix == 103 then Token(Some(token), Some(Fcm))
                 else if prefix == 97 then Token(Some(token), Some(Apns))
                 else if prefix == 104 then Token(Some(token), Some(Hms))
                 else if prefix == 51 then Token(Some(token), Some(ThreemaGateway))
                 else Token(None, None))
  {
    var s := [prefix, 58] + token;
    ScrubIsWellFormed(s);
    TextOfEncoded(s);
    assert s[2..] == token;
    hide Encode, TextDecode, Scrub, WellFormed;
  }

  /** A surrogate without its partner. */
  predicate IsLone(s: JsString, i: nat)
    requires i < |s|
  {
    || (IsHigh(s[i]) && !(i + 1 < |s| && IsLow(s[i + 1])))
    || (IsLow(s[i]) && !(i > 0 && IsHigh(s[i - 1])))
  }

  /** The text encoder replaces exactly the lone surrogates, each by U+FFFD. */
  lemma {:induction false} ScrubReplacesLone(s: JsString, i: nat)
    requires i < |s|
    ensures Scrub(s)[i] == if IsLone(s, i) then 0xFFFD else s[i]
    decreases |s|
  {
    HighIsNotLow(s[0]);
    if StartsWithPair(s) {
      HighIsNotLow(s[1]);
      hide IsHigh, IsLow;
      if i >= 2 {
        ScrubReplacesLone(s[2..], i - 2);
      }
    } else {
      hide IsHigh, IsLow;
      if i >= 1 {
        ScrubReplacesLone(s[1..], i - 1);
      }
    }
  }

  lemma HighIsNotLow(c: CodeUnit)
    ensures !(IsHigh(c) && IsLow(c))
  {
  }
}
