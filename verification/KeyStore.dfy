/** src/services/keystore.ts: trusted keys in local storage, encrypted under a password. */
module KeyStore {
  import opened Prelude
  import opened PushTokens
  import opened InMemorySessions
  import opened StoredText
  import opened WorkFactors
  import Hex
  import opened Utf8

  // ---- What the libraries do ------------------------------------------------------------------

  datatype JsonField = Text(text: JsString) | Number(value: int) | Other

  datatype Json = Invalid | NotAnObject
    | Object(nonce: JsonField, salt: JsonField, n: JsonField, r: JsonField, p: JsonField, encrypted: JsonField)

  /** Cryptography and `JSON.parse`, left uninterpreted. `scrypt` rejects costs it does not accept. */
  datatype Library = Library(
    scrypt: (Bytes, Bytes, int, int, int) -> Bytes,
    acceptsCost: (int, int, int) -> bool,
    hash: Bytes -> Bytes,
    seal: (Bytes, Bytes, Bytes) -> Bytes,
    open: (Bytes, Bytes, Bytes) -> Option<Bytes>,
    parse: JsString -> Json)

  const NONCE_LENGTH := 24
  const KEY_LENGTH := 32

  /** What a sealed box is longer than its content. */
  const OVERHEAD := 16

  function ParsedForm(rec: Record): Json {
    Object(Text(rec.nonce), Text(rec.salt), Number(rec.n), Number(rec.r), Number(rec.p), Text(rec.encrypted))
  }

  /** The laws the libraries are known to follow. */
  ghost predicate Lawful(lib: Library) {
    && (forall d, n, k :: |n| == NONCE_LENGTH && |k| == KEY_LENGTH ==>
          lib.open(lib.seal(d, n, k), n, k) == Some(d) && |lib.seal(d, n, k)| == |d| + OVERHEAD)
    && (forall pw, salt, n, r, p :: |lib.scrypt(pw, salt, n, r, p)| == KEY_LENGTH)
    && (forall pw :: |lib.hash(pw)| == 64)
    && (forall rec: Record :: Proper(rec) ==> lib.parse(Stringify(rec)) == ParsedForm(rec))
  }

  /** A parser of the texts of proper records. */
  ghost function ParseRecord(s: JsString): Json {
    if exists rec: Record :: Proper(rec) && Stringify(rec) == s then
      var rec: Record :| Proper(rec) && Stringify(rec) == s;
      ParsedForm(rec)
    else Invalid
  }

  lemma ParseUndoesStringify(rec: Record)
    requires Proper(rec)
    ensures ParseRecord(Stringify(rec)) == ParsedForm(rec)
  {
    hide Stringify, Proper;
    forall other: Record | Proper(other) && Stringify(other) == Stringify(rec) ensures other == rec {
      StringifyIsInjective(other, rec);
    }
  }

  /** A box that is not secret but as long as a real one. */
  function PlainBox(d: Bytes): Bytes { seq(OVERHEAD, _ => 0) + d }

  /** The laws do not contradict each other. */
  lemma LawfulLibraryExists()
    ensures exists lib: Library :: Lawful(lib)
  {
    hide Stringify, Proper;
    var lib := Library(
      (pw, salt, n, r, p) => seq(KEY_LENGTH, _ => 0), (n, r, p) => true, pw => seq(64, _ => 0),
      (d, n, k) => PlainBox(d), (b, n, k) => if |b| < OVERHEAD then None else Some(b[OVERHEAD..]),
      s => ParseRecord(s));
    forall rec: Record | Proper(rec) ensures lib.parse(Stringify(rec)) == ParsedForm(rec) {
      ParseUndoesStringify(rec);
    }
    assert Lawful(lib);
  }

  /** What one call to `storeTrustedKey` draws: randomness and the benchmark's outcome. */
  datatype Draw = Draw(salt: Bytes, nonce: Bytes, extrapolated: Extrapolated)

  ghost predicate ProperDraw(draw: Draw) { |draw.salt| == 32 && |draw.nonce| == NONCE_LENGTH }

  // ---- Storing --------------------------------------------------------------------------------

  datatype StorageKey = TrustedKey | AutoFlag

  type Storage = map<StorageKey, JsString>

  const AUTO: JsString := [97, 117, 116, 111]
  const R := 8
  const P := 1

  /** `target.set(source, offset)` on byte arrays; `None` when it throws. */
  function SetAt(target: Bytes, source: Bytes, offset: nat): (r: Option<Bytes>)
    ensures r.Some? <==> offset + |source| <= |target|
    ensures r.Some? ==> |r.value| == |target|
  {
    if offset + |source| > |target| then None
    else Some(target[..offset] + source + target[offset + |source|..])
  }

  /** The plaintext: both keys, then the encoded token. */
  function Plaintext(own: Bytes, peer: Bytes, token: Bytes): (r: Option<Bytes>)
    ensures r.Some? ==> |r.value| == 64 + |token|
  {
    match SetAt(seq(64 + |token|, _ => 0), own, 0)
    case None => None
    case Some(d1) =>
      match SetAt(d1, peer, 32)
      case None => None
      case Some(d2) => SetAt(d2, token, 64)
  }

  function EncodedToken(token: Token): Bytes {
    if token.token.Some? && token.tokenType.Some? then EncodeToken(token.token.value, token.tokenType.value) else []
  }

  function Seal(lib: Library, data: Bytes, password: JsString, draw: Draw): Record {
    var n := WorkFactor(draw.extrapolated);
    var key := lib.scrypt(TextEncode(password), draw.salt, n, R, P);
    Record(Hex.HexOf(draw.nonce), Hex.HexOf(draw.salt), n, R, P, Hex.HexOf(lib.seal(data, draw.nonce, key)))
  }

  /** Whether scrypt takes the work factor the benchmark led to. */
  predicate CostAccepted(lib: Library, draw: Draw) { lib.acceptsCost(WorkFactor(draw.extrapolated), R, P) }

  /** `storeTrustedKey`; `None` when it throws. */
  function Stored(lib: Library, storage: Storage, own: Bytes, peer: Bytes, token: Token, password: JsString,
                  auto: bool, draw: Draw): Option<Storage> {
    if !CostAccepted(lib, draw) then None
    else match Plaintext(own, peer, EncodedToken(token))
      case None => None
      case Some(data) =>
        var storage' := storage[TrustedKey := Stringify(Seal(lib, data, password, draw))];
        Some(if auto then storage'[AutoFlag := AUTO] else storage')
  }

  // ---- Retrieving -----------------------------------------------------------------------------

  /** `Nothing` stands for `null`, `Thrown` for a rejected promise. */
  datatype Retrieved = Nothing | Thrown | Keys(own: Bytes, peer: Bytes, token: Token)

  /** Opening a box throws when the nonce has the wrong size. */
  function OpenBox(lib: Library, box: Bytes, nonce: Bytes, key: Bytes): Option<Bytes> {
    if |nonce| != NONCE_LENGTH || |key| != KEY_LENGTH then None else lib.open(box, nonce, key)
  }

  function DeprecatedKey(lib: Library, password: JsString): Bytes {
    Slice(lib.hash(TextEncode(password)), 0, KEY_LENGTH)
  }

  /** `migrateDeprecatedStorageFormat`; `None` when it throws. */
  function Migrated(lib: Library, storage: Storage, nonce: JsString, encrypted: JsString, password: JsString,
                    draw: Draw): Option<Storage> {
    match OpenBox(lib, Hex.BytesOf(encrypted), Hex.BytesOf(nonce), DeprecatedKey(lib, password))
    case None => None
    case Some(data) =>
      match DecodeToken(SliceFrom(data, 96))
      case None => None
      case Some(token) =>
        Stored(lib, storage, Slice(data, 32, 64), Slice(data, 64, 96), token, password, AutoFlag in storage, draw)
  }

  /** What reading a plaintext comes to. */
  function Contents(data: Bytes): Retrieved {
    match DecodeToken(SliceFrom(data, 64))
    case None => Thrown
    case Some(token) => Keys(Slice(data, 0, 32), Slice(data, 32, 64), token)
  }

  function Unseal(lib: Library, nonce: Bytes, salt: Bytes, n: int, r: int, p: int, encrypted: Bytes,
                  password: JsString): Retrieved {
    if |nonce| != NONCE_LENGTH || |salt| != 32 || n < N_MIN || r < R || p < P || encrypted == [] then Nothing
    else if !lib.acceptsCost(n, r, p) then Thrown
    else match OpenBox(lib, encrypted, nonce, lib.scrypt(TextEncode(password), salt, n, r, p))
      case None => Nothing
      case Some(data) =>
        Contents(data)
  }

  function Read(lib: Library, stored: JsString, password: JsString): Retrieved {
    match lib.parse(stored)
    case Object(Text(nonce), Text(salt), Number(n), Number(r), Number(p), Text(encrypted)) =>
      Unseal(lib, Hex.BytesOf(nonce), Hex.BytesOf(salt), n, r, p, Hex.BytesOf(encrypted), password)
    case _ => Nothing
  }

  predicate IsDeprecated(stored: JsString) { |Split(stored)| == 2 }

  /** `retrieveTrustedKey`: the storage afterwards and what it returns. */
  function Retrieve(lib: Library, storage: Storage, password: JsString, draw: Draw): (Storage, Retrieved) {
    if TrustedKey !in storage then (storage, Nothing)
    else
      var stored := storage[TrustedKey];
      if !IsDeprecated(stored) then (storage, Read(lib, stored, password))
      else match Migrated(lib, storage, Split(stored)[0], Split(stored)[1], password, draw)
        case None => (storage, Nothing)
        case Some(storage') =>
          if TrustedKey !in storage' then (storage', Nothing)
          else (storage', Read(lib, storage'[TrustedKey], password))
  }

  /** `hasTrustedKey`. */
  predicate CountsAsTrusted(storage: Storage) {
    TrustedKey in storage && |storage[TrustedKey]| > 96 && COLON in storage[TrustedKey]
  }

  // ---- The service ----------------------------------------------------------------------------

  class TrustedKeyStoreService {
    const inMemorySession: InMemorySession
    var storage: Storage

    constructor (localStorage: Storage, inMemorySession: InMemorySession)
      ensures storage == localStorage && this.inMemorySession == inMemorySession
    {
      storage := localStorage;
      this.inMemorySession := inMemorySession;
    }

    /** `data.set(source, offset)`; returns false where it would throw. */
    static method SetRange(data: array<Byte>, source: Bytes, offset: nat) returns (ok: bool)
      modifies data
      ensures ok <==> SetAt(old(data[..]), source, offset).Some?
      ensures data[..] == if ok then SetAt(old(data[..]), source, offset).value else old(data[..])
    {
      if offset + |source| > data.Length {
        return false;
      }
      for i := 0 to |source|
        invariant data[..] == old(data[..])[..offset] + source[..i] + old(data[..])[offset + i..]
      {
        data[offset + i] := source[i];
      }
      assert source[..|source|] == source;
      return true;
    }

    method StoreTrustedKey(lib: Library, own: Bytes, peer: Bytes, token: Token, password: JsString,
                           isAutoSession: bool, draw: Draw) returns (ok: bool)
      modifies this
      ensures match Stored(lib, old(storage), own, peer, token, password, isAutoSession, draw)
              case Some(storage') => ok && storage == storage'
              case None => !ok && storage == old(storage)
    {
      hide Encode, Scrub, Stringify, Hex.HexOf, WorkFactor, SetAt;
      var n := WorkFactor(draw.extrapolated);
      if !lib.acceptsCost(n, R, P) {
        return false;
      }
      var encodedToken := [];
      if token.token.Some? && token.tokenType.Some? {
        encodedToken := EncodeToken(token.token.value, token.tokenType.value);
      }
      var data := BuildPlaintext(own, peer, encodedToken);
      if data.None? {
        return false;
      }
      storage := storage[TrustedKey := Stringify(Seal(lib, data.value, password, draw))];
      if isAutoSession {
        storage := storage[AutoFlag := AUTO];
      }
      return true;
    }

    static method BuildPlaintext(own: Bytes, peer: Bytes, encodedToken: Bytes) returns (r: Option<Bytes>)
      ensures r == Plaintext(own, peer, encodedToken)
    {
      var data := new Byte[2 * 32 + |encodedToken|](_ => 0);
      assert data[..] == seq(64 + |encodedToken|, _ => 0);
      var ok := SetRange(data, own, 0);
      if ok {
        ok := SetRange(data, peer, 32);
      }
      if ok {
        ok := SetRange(data, encodedToken, 64);
      }
      return if ok then Some(data[..]) else None;
    }

    method HasTrustedKey() returns (has: bool)
      ensures has <==> CountsAsTrusted(storage)
    {
      has := TrustedKey in storage && |storage[TrustedKey]| > 96 && COLON in storage[TrustedKey];
    }

    method MigrateDeprecatedStorageFormat(lib: Library, parts: (JsString, JsString), password: JsString, draw: Draw)
      returns (ok: bool)
      modifies this
      ensures match Migrated(lib, old(storage), parts.0, parts.1, password, draw)
              case Some(storage') => ok && storage == storage'
              case None => !ok && storage == old(storage)
    {
      var decrypted := OpenBox(lib, Hex.BytesOf(parts.1), Hex.BytesOf(parts.0), DeprecatedKey(lib, password));
      if decrypted.None? {
        return false;
      }
      var token := DecodeToken(SliceFrom(decrypted.value, 96));
      if token.None? {
        return false;
      }
      ok := StoreTrustedKey(lib, Slice(decrypted.value, 32, 64), Slice(decrypted.value, 64, 96), token.value,
                            password, AutoFlag in storage, draw);
    }

    method RetrieveTrustedKey(lib: Library, password: JsString, draw: Draw) returns (r: Retrieved)
      modifies this
      ensures (storage, r) == Retrieve(lib, old(storage), password, draw)
    {
      if TrustedKey !in storage {
        return Nothing;
      }
      var storedValue := storage[TrustedKey];
      var parts := Split(storedValue);
      if |parts| == 2 {
        var ok := MigrateDeprecatedStorageFormat(lib, (parts[0], parts[1]), password, draw);
        if !ok {
          return Nothing;
        }
        if TrustedKey !in storage {
          return Nothing;
        }
        storedValue := storage[TrustedKey];
      }
      r := Read(lib, storedValue, password);
    }

    method ClearTrustedKey()
      modifies this, inMemorySession
      ensures storage == old(storage) - {TrustedKey, AutoFlag}
      ensures inMemorySession.GetPassword() == None
    {
      storage := storage - {TrustedKey};
      storage := storage - {AutoFlag};
      inMemorySession.ClearPassword();
    }
  }

  // ---- Layers ---------------------------------------------------------------------------------

  /** The plaintext holds the keys at 0 and 32 exactly when both have 32 bytes; the token is at 64. */
  lemma PlaintextLayout(own: Bytes, peer: Bytes, token: Bytes)
    requires Plaintext(own, peer, token).Some?
    ensures var data := Plaintext(own, peer, token).value;
            && data[64..] == token
            && (data[..32] == own && data[32..64] == peer <==> |own| == 32 && |peer| == 32)
  {
    var d0 := seq(64 + |token|, _ => 0);
    var d1 := SetAt(d0, own, 0).value;
    var d2 := SetAt(d1, peer, 32).value;
    var data := Plaintext(own, peer, token).value;
    assert data == d2[..64] + token + [];
    if |own| == 32 && |peer| == 32 {
      assert d1[..32] == own;
      assert d2[..32] == own && d2[32..64] == peer;
      assert data[..64] == d2[..64];
      assert data[..32] == data[..64][..32] && data[32..64] == data[..64][32..];
      assert d2[..64][..32] == d2[..32] && d2[..64][32..] == d2[32..64];
    }
  }

  lemma PlaintextOfKeys(own: Bytes, peer: Bytes, token: Bytes)
    requires |own| == 32 && |peer| == 32
    ensures Plaintext(own, peer, token).Some?
  {
  }

  lemma SealedOpens(lib: Library, data: Bytes, password: JsString, draw: Draw)
    requires Lawful(lib) && ProperDraw(draw)
    ensures var n := WorkFactor(draw.extrapolated);
            var key := lib.scrypt(TextEncode(password), draw.salt, n, R, P);
            var box := lib.seal(data, draw.nonce, key);
            && N_MIN <= n <= N_LARGEST && |box| == |data| + OVERHEAD
            && OpenBox(lib, box, draw.nonce, key) == Some(data)
  {
    WorkFactorIsSound(draw.extrapolated);
    hide WorkFactor, IsPowerOfTwo;
    var key := lib.scrypt(TextEncode(password), draw.salt, WorkFactor(draw.extrapolated), R, P);
    assert |key| == KEY_LENGTH;
    assert lib.open(lib.seal(data, draw.nonce, key), draw.nonce, key) == Some(data);
  }

  /** Reading a record back opens the box, if the given password does; its validity checks pass. */
  lemma ReadSealed(lib: Library, data: Bytes, password: JsString, draw: Draw, given: JsString)
    requires Lawful(lib) && ProperDraw(draw) && CostAccepted(lib, draw)
    ensures Read(lib, Stringify(Seal(lib, data, password, draw)), given) ==
            match lib.open(BoxOf(lib, data, password, draw), draw.nonce, KeyOf(lib, draw, given))
            case None => Nothing
            case Some(content) => Contents(content)
    ensures lib.open(BoxOf(lib, data, password, draw), draw.nonce, KeyOf(lib, draw, password)) == Some(data)
  {
    hide Encode, Scrub, Stringify, Hex.HexOf, Hex.BytesOf, WorkFactor, DecodeToken;
    var rec := Seal(lib, data, password, draw);
    SealedOpens(lib, data, password, draw);
    var box := BoxOf(lib, data, password, draw);
    Hex.HexRoundTrip(draw.nonce);
    Hex.HexRoundTrip(draw.salt);
    Hex.HexRoundTrip(box);
    Hex.HexHasDigitsOnly(draw.nonce);
    Hex.HexHasDigitsOnly(draw.salt);
    Hex.HexHasDigitsOnly(box);
    assert lib.parse(Stringify(rec)) == ParsedForm(rec);
    assert |KeyOf(lib, draw, given)| == KEY_LENGTH;
  }

  /** The key scrypt derives from a password at the cost a record was stored with. */
  function KeyOf(lib: Library, draw: Draw, password: JsString): Bytes {
    lib.scrypt(TextEncode(password), draw.salt, WorkFactor(draw.extrapolated), 8, 1)
  }

  function BoxOf(lib: Library, data: Bytes, password: JsString, draw: Draw): Bytes {
    lib.seal(data, draw.nonce, KeyOf(lib, draw, password))
  }

  // ---- Results --------------------------------------------------------------------------------

  /** What a token becomes: nothing unless both parts are given, else scrubbed to well-formed UTF-16. */
  function TokenKept(token: Token): Token {
    if token.token.Some? && token.tokenType.Some? then Token(Some(Scrub(token.token.value)), token.tokenType)
    else NO_TOKEN
  }

  lemma EncodedTokenComesBack(token: Token)
    ensures DecodeToken(EncodedToken(token)) == Some(TokenKept(token))
  {
    if token.token.Some? && token.tokenType.Some? {
      TokenRoundTrip(token.token.value, token.tokenType.value);
    }
  }

  /** What retrieval returns after storing, and when that is what was stored. */
  lemma StoreThenRetrieve(lib: Library, storage: Storage, own: Bytes, peer: Bytes, token: Token,
                          password: JsString, auto: bool, draw: Draw, later: Draw)
    requires Lawful(lib) && ProperDraw(draw)
    ensures match Stored(lib, storage, own, peer, token, password, auto, draw)
            case None => true
            case Some(storage') =>
              var (storage'', r) := Retrieve(lib, storage', password, later);
              && storage'' == storage'
              && r.Keys? && r.token == TokenKept(token)
              && (r.own == own && r.peer == peer <==> |own| == 32 && |peer| == 32)
              && !IsDeprecated(storage'[TrustedKey])
              && CountsAsTrusted(storage')
              && (AutoFlag in storage' <==> auto || AutoFlag in storage)
  {
    hide Encode, Scrub, Stringify, Hex.HexOf, WorkFactor, SetAt, Plaintext, DecodeToken, Read;
    if Stored(lib, storage, own, peer, token, password, auto, draw).None? {
      return;
    }
    var data := Plaintext(own, peer, EncodedToken(token)).value;
    var rec := Seal(lib, data, password, draw);
    ReadSealed(lib, data, password, draw, password);
    PlaintextLayout(own, peer, EncodedToken(token));
    EncodedTokenComesBack(token);
    assert SliceFrom(data, 64) == data[64..];
    assert Slice(data, 0, 32) == data[..32] && Slice(data, 32, 64) == data[32..64];
    assert |Stringify(rec)| > 96 by {
      RecordIsLong(rec);
    }
    RecordHasManyParts(rec);
  }

  /**
    * 32-byte keys are stored exactly when scrypt takes the work factor, and then everything comes back
    * exactly when the token allows it.
    */
  lemma KeyRoundTrip(lib: Library, storage: Storage, own: Bytes, peer: Bytes, token: Token,
                     password: JsString, auto: bool, draw: Draw, later: Draw)
    requires Lawful(lib) && ProperDraw(draw) && |own| == 32 && |peer| == 32
    ensures match Stored(lib, storage, own, peer, token, password, auto, draw)
            case None => !CostAccepted(lib, draw)
            case Some(storage') =>
              && CostAccepted(lib, draw)
              && (Retrieve(lib, storage', password, later) == (storage', Keys(own, peer, token))
                  <==> token == NO_TOKEN
                       || (token.tokenType.Some? && token.token.Some? && WellFormed(token.token.value)))
  {
    hide Retrieve, Scrub, Encode, WorkFactor, Plaintext, WellFormed;
    PlaintextOfKeys(own, peer, EncodedToken(token));
    StoreThenRetrieve(lib, storage, own, peer, token, password, auto, draw, later);
    if token.token.Some? {
      ScrubIsWellFormed(token.token.value);
    }
  }

  /**
    * Another password: what was stored stays, and nothing is returned, unless the box opens under the
    * key derived from that password too. Then what it opens to is read.
    */
  lemma OtherPassword(lib: Library, storage: Storage, own: Bytes, peer: Bytes, token: Token, password: JsString,
                      auto: bool, draw: Draw, other: JsString, later: Draw)
    requires Lawful(lib) && ProperDraw(draw)
    requires Stored(lib, storage, own, peer, token, password, auto, draw).Some?
    ensures var storage' := Stored(lib, storage, own, peer, token, password, auto, draw).value;
            var box := BoxOf(lib, Plaintext(own, peer, EncodedToken(token)).value, password, draw);
            match lib.open(box, draw.nonce, KeyOf(lib, draw, other))
            case None => Retrieve(lib, storage', other, later) == (storage', Nothing)
            case Some(content) => Retrieve(lib, storage', other, later) == (storage', Contents(content))
  {
    hide Encode, Scrub, Stringify, Hex.HexOf, WorkFactor, SetAt, Plaintext, DecodeToken, Read, Contents, Split;
    var data := Plaintext(own, peer, EncodedToken(token)).value;
    ReadSealed(lib, data, password, draw, other);
    RecordHasManyParts(Seal(lib, data, password, draw));
  }

  /** Nothing stored, nothing returned. */
  lemma NothingStored(lib: Library, storage: Storage, password: JsString, draw: Draw)
    requires TrustedKey !in storage
    ensures Retrieve(lib, storage, password, draw) == (storage, Nothing) && !CountsAsTrusted(storage)
  {
  }

  /** What a parsed record must be like: six fields of the right types, and sizes and costs in range. */
  ghost predicate IsValidRecord(json: Json) {
    && json.Object? && json.nonce.Text? && json.salt.Text? && json.encrypted.Text?
    && json.n.Number? && json.r.Number? && json.p.Number?
    && |Hex.BytesOf(json.nonce.text)| == 24 && |Hex.BytesOf(json.salt.text)| == 32 && json.encrypted.text != []
    && json.n.value >= 65536 && json.r.value >= 8 && json.p.value >= 1
  }

  /**
    * Over any stored text that is no deprecated record: it is left alone; the result is nothing exactly
    * when the record is not valid, or its cost is accepted but its box does not open; it is thrown
    * exactly when the cost is refused, or the opened box holds a token that is not UTF-8.
    */
  lemma WhatRetrievalReturns(lib: Library, storage: Storage, password: JsString, draw: Draw)
    requires TrustedKey in storage && |Split(storage[TrustedKey])| != 2
    requires forall pw, salt, n, r, p :: |lib.scrypt(pw, salt, n, r, p)| == 32
    ensures Retrieve(lib, storage, password, draw).0 == storage
    ensures var json, result := lib.parse(storage[TrustedKey]), Retrieve(lib, storage, password, draw).1;
            if !IsValidRecord(json) then result == Nothing
            else if !lib.acceptsCost(json.n.value, json.r.value, json.p.value) then result == Thrown
            else
              var key := lib.scrypt(TextEncode(password), Hex.BytesOf(json.salt.text), json.n.value, json.r.value,
                                    json.p.value);
              var content := lib.open(Hex.BytesOf(json.encrypted.text), Hex.BytesOf(json.nonce.text), key);
              && (result == Nothing <==> content.None?)
              && (result == Thrown <==> content.Some? && DecodeToken(SliceFrom(content.value, 64)).None?)
  {
    hide TextEncode, Split, DecodeToken;
    var json := lib.parse(storage[TrustedKey]);
    if json.Object? && json.encrypted.Text? {
      NoBytes(json.encrypted.text);
    }
    hide Hex.BytesOf;
  }

  lemma NoBytes(hex: JsString)
    ensures Hex.BytesOf(hex) == [] <==> hex == []
  {
  }

  /** A text of at most 96 characters, or without a colon, does not count as a trusted key. */
  lemma ShortTextIsNoKey(storage: Storage)
    requires TrustedKey in storage && (|storage[TrustedKey]| <= 96 || COLON !in storage[TrustedKey])
    ensures !CountsAsTrusted(storage)
  {
  }

  /** A deprecated record with the wrong password or nonce: nothing is returned, and the record stays. */
  lemma DeprecatedOtherPassword(lib: Library, storage: Storage, nonce: Bytes, box: Bytes, other: JsString, draw: Draw)
    requires Lawful(lib)
    requires TrustedKey in storage && storage[TrustedKey] == Hex.HexOf(nonce) + [COLON] + Hex.HexOf(box)
    requires |nonce| != 24 || lib.open(box, nonce, lib.hash(TextEncode(other))[..32]).None?
    ensures Retrieve(lib, storage, other, draw) == (storage, Nothing)
  {
    hide TextEncode;
    HexHasNoColon(nonce);
    HexHasNoColon(box);
    SplitTwo(Hex.HexOf(nonce), Hex.HexOf(box));
    Hex.HexRoundTrip(nonce);
    Hex.HexRoundTrip(box);
    hide Hex.HexOf, Hex.BytesOf, Split;
  }

  /**
    * Keys are only ever returned from a box that opened under the key derived from this password, with
    * no cost parameter below the minimum.
    */
  lemma KeysMeanOpenedBox(lib: Library, stored: JsString, password: JsString)
    requires Read(lib, stored, password).Keys?
    ensures match lib.parse(stored)
            case Object(Text(nonce), Text(salt), Number(n), Number(r), Number(p), Text(encrypted)) =>
              var key := lib.scrypt(TextEncode(password), Hex.BytesOf(salt), n, r, p);
              var data := OpenBox(lib, Hex.BytesOf(encrypted), Hex.BytesOf(nonce), key);
              && n >= N_MIN && r >= R && p >= P && |Hex.BytesOf(salt)| == 32 && |Hex.BytesOf(nonce)| == NONCE_LENGTH
              && data.Some? && Read(lib, stored, password) == Contents(data.value)
            case _ => false
  {
    hide TextEncode, Hex.BytesOf, Contents;
  }

  /** A record in the deprecated format: the keys at 32 and 64, the token at 96. */
  function DeprecatedRecord(lib: Library, filler: Bytes, own: Bytes, peer: Bytes, token: Bytes, nonce: Bytes,
                            password: JsString): JsString {
    Hex.HexOf(nonce) + [COLON]
    + Hex.HexOf(lib.seal(filler + own + peer + token, nonce, Slice(lib.hash(TextEncode(password)), 0, 32)))
  }

  lemma DeprecatedRecordOpens(lib: Library, filler: Bytes, own: Bytes, peer: Bytes, token: Bytes, nonce: Bytes,
                              password: JsString)
    requires Lawful(lib) && |filler| == |own| == |peer| == 32 && |nonce| == NONCE_LENGTH
    ensures var stored := DeprecatedRecord(lib, filler, own, peer, token, nonce, password);
            && IsDeprecated(stored) && |stored| > 96 && COLON in stored
            && OpenBox(lib, Hex.BytesOf(Split(stored)[1]), Hex.BytesOf(Split(stored)[0]),
                       DeprecatedKey(lib, password)) == Some(filler + own + peer + token)
  {
    var key, data := DeprecatedKey(lib, password), filler + own + peer + token;
    assert |key| == KEY_LENGTH;
    var box := lib.seal(data, nonce, key);
    assert lib.open(box, nonce, key) == Some(data);
    HexHasNoColon(nonce);
    HexHasNoColon(box);
    SplitTwo(Hex.HexOf(nonce), Hex.HexOf(box));
    Hex.HexRoundTrip(nonce);
    Hex.HexRoundTrip(box);
  }

  /** The token a migration finds survives being stored again. */
  lemma DecodedTokenIsKept(encoded: Bytes)
    requires DecodeToken(encoded).Some?
    ensures TokenKept(DecodeToken(encoded).value) == DecodeToken(encoded).value
  {
    if encoded != [] {
      var s := Decode(encoded);
      EncodeDecode(encoded);
      var t := TextDecode(encoded).value;
      assert WellFormed(t) by {
        if s != [] && s[0] == BOM {
          BomIsPlain();
        }
      }
      ScrubIsWellFormed(t);
      if |t| > 1 && t[1] == COLON && TypeOf(t[0]).Some? {
        PrefixIsPlain(TypeOf(t[0]).value);
        assert t[1..][1..] == t[2..];
        ScrubIsWellFormed(t[2..]);
      }
    }
  }

  lemma BomIsPlain()
    ensures !IsHigh(BOM) && !IsLow(BOM)
  {
  }

  /**
    * Reading a deprecated record returns what it holds and replaces it by a record in the current
    * format, from which every later read with the password returns the same without migrating. A
    * token that is not valid UTF-8, or a work factor that scrypt refuses, makes it return nothing and
    * leave the record alone.
    */
  lemma MigrationKeepsKeys(lib: Library, storage: Storage, filler: Bytes, own: Bytes, peer: Bytes, token: Bytes,
                           nonce: Bytes, password: JsString, draw: Draw, later: Draw)
    requires Lawful(lib) && ProperDraw(draw)
    requires |filler| == |own| == |peer| == 32 && |nonce| == NONCE_LENGTH
    requires TrustedKey in storage
             && storage[TrustedKey] == DeprecatedRecord(lib, filler, own, peer, token, nonce, password)
    ensures CountsAsTrusted(storage)
    ensures var (storage', r) := Retrieve(lib, storage, password, draw);
            if DecodeToken(token).None? || !CostAccepted(lib, draw) then r == Nothing && storage' == storage
            else
              var t := DecodeToken(token).value;
              && r == Keys(own, peer, t)
              && CountsAsTrusted(storage') && !IsDeprecated(storage'[TrustedKey])
              && (AutoFlag in storage' <==> AutoFlag in storage)
              && Retrieve(lib, storage', password, later) == (storage', r)
  {
    hide Encode, Scrub, Stringify, Hex.HexOf, WorkFactor, SetAt, Plaintext, DecodeToken, Read, Split, Seal,
      DeprecatedRecord, EncodedToken, Hex.BytesOf;
    DeprecatedRecordOpens(lib, filler, own, peer, token, nonce, password);
    var data := filler + own + peer + token;
    assert SliceFrom(data, 96) == token && Slice(data, 32, 64) == own && Slice(data, 64, 96) == peer;
    if DecodeToken(token).Some? {
      var t := DecodeToken(token).value;
      DecodedTokenIsKept(token);
      PlaintextOfKeys(own, peer, EncodedToken(t));
      StoreThenRetrieve(lib, storage, own, peer, t, password, AutoFlag in storage, draw, later);
    }
  }
}
