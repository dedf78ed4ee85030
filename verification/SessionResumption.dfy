/**
  * The relayed-data session of src/services/webclient.ts around the chunk caches: chunks are cached,
  * sent over a connection that may break at any moment, and what the peer did not receive is pruned
  * down to, transferred and sent again on the next connection.
  */
module SessionResumption {
  import opened Prelude
  import opened ChunkCaches
  import Runs

  const SEQUENCE_NUMBER_MAX := 0xFFFF_FFFF

  /** A chunk on its way; those not to be retransmitted are cached as `null`. */
  datatype WireChunk = WireChunk(payload: Bytes, retransmit: bool)

  datatype FailureReason = NumbersExhausted | BadSequenceNumber

  datatype Phase = Offline | Handshake | Online | Failed(reason: FailureReason)

  /**
    * `taskChosen`: whether a handshake has ever begun. `current`, `previous`: the caches of the client.
    * `wire`, `acks`: in flight in either direction. `peerIn`, `peerPrevious`: chunks the peer counted on
    * the current and on the previous connection.
    * The other fields record history. Over the whole run: what peers `accepted`, the payloads the
    * application `requested` to be delivered reliably, those `kept` for it, how many were `dropped`
    * when they were queued and how many `abandoned` afterwards. Per connection: the `log` of chunks
    * numbered by its cache.
    */
  datatype Session = Session(
    phase: Phase, taskChosen: bool, current: Cache, previous: Option<Cache>,
    wire: seq<WireChunk>, acks: seq<int>, peerIn: nat, peerPrevious: nat,
    accepted: seq<WireChunk>, requested: seq<Bytes>, kept: seq<Bytes>, dropped: nat, abandoned: nat,
    log: seq<WireChunk>, previousLog: seq<WireChunk>)

  datatype Event =
    | Connect(resume: bool)
    | SendInfo(payload: Bytes)
    | Send(payload: Bytes, retransmit: bool, pushAvailable: bool)
    | Deliver
    | PeerAcknowledges
    | AcknowledgementArrives
    | Establish
    | Resume
    | Discard
    | Disconnect

  function CachedForm(chunk: WireChunk): CachedChunk {
    if chunk.retransmit then Some(chunk.payload) else None
  }

  function CachedLog(log: seq<WireChunk>): (chunks: seq<CachedChunk>)
    ensures |chunks| == |log|
    ensures forall i :: 0 <= i < |log| ==> chunks[i] == CachedForm(log[i])
  {
    seq(|log|, i requires 0 <= i < |log| => CachedForm(log[i]))
  }

  /** The payloads in a log that must not get lost. */
  function Kept(log: seq<WireChunk>): seq<Bytes> { NonNull(CachedLog(log)) }

  const FRESH_CACHE := Cache(0, 0, SEQUENCE_NUMBER_MAX, [])

  const START := Session(Offline, false, FRESH_CACHE, None, [], [], 0, 0, [], [], [], 0, 0, [], [])

  /** What the client will still (re)send to the peer, given what the peer will report. */
  function ToCome(s: Session): seq<Bytes> {
    match s.previous
    case None => Kept(s.wire)
    case Some(cache) =>
      match PrunedBy(cache, s.peerPrevious)
      case Ok(pruned) => NonNull(pruned.chunks)
      case Err(_) => []
  }

  // ---- Steps --------------------------------------------------------------------------------

  function Fail(s: Session, reason: FailureReason): Session {
    s.(phase := Failed(reason), previous := None, wire := [], acks := [])
  }

  /** Cache on the current connection and send. */
  function SendNow(s: Session, chunk: WireChunk): Session {
    match Appended(s.current, CachedForm(chunk))
    case Err(_) => Fail(s, NumbersExhausted)
    case Ok(cache) =>
      s.(current := cache, log := s.log + [chunk], wire := s.wire + [chunk], kept := s.kept + Kept([chunk]))
  }

  /** While a previous connection waits to be resumed, chunks are only cached behind it. */
  function Queue(s: Session, cache: Cache, chunk: WireChunk): Session {
    match Appended(cache, CachedForm(chunk))
    case Err(_) => Fail(s, NumbersExhausted)
    case Ok(cache') =>
      s.(previous := Some(cache'), previousLog := s.previousLog + [chunk], kept := s.kept + Kept([chunk]))
  }

  /** With neither a connection nor a previous one: cached where nothing is ever resumed from. */
  function SendNowhere(s: Session, chunk: WireChunk): Session {
    match Appended(s.current, CachedForm(chunk))
    case Err(_) => Fail(s, NumbersExhausted)
    case Ok(cache) => s.(current := cache, abandoned := s.abandoned + |Kept([chunk])|)
  }

  function SendChunk(s: Session, payload: Bytes, retransmit: bool, pushAvailable: bool): Session {
    var asked := s.(requested := s.requested + if retransmit then [payload] else []);
    match s.previous
    case None =>
      if s.phase == Offline then SendNowhere(asked, WireChunk(payload, retransmit))
      else SendNow(asked, WireChunk(payload, retransmit))
    case Some(cache) =>
      // Nothing could wake up the peer: the chunk is only numbered
      var dropped := if retransmit && !pushAvailable then 1 else 0;
      Queue(asked.(dropped := asked.dropped + dropped), cache, WireChunk(payload, retransmit && pushAvailable))
  }

  /** A successful handshake on both ends that names the previous connection. */
  function ResumeSession(s: Session, cache: Cache): Session {
    match PrunedBy(cache, s.peerPrevious)
    case Err(_) => Fail(s, BadSequenceNumber)
    case Ok(pruned) =>
      var chunks := NonNull(pruned.chunks);
      var (current, transferred) := AppendedAll(s.current, AsCached(chunks));
      if transferred.Err? then Fail(s, NumbersExhausted)
      else
        var resent := Resent(NonNull(current.chunks));
        s.(phase := Online, current := current, previous := None, wire := s.wire + resent, log := s.log + resent)
  }

  function Resent(payloads: seq<Bytes>): (chunks: seq<WireChunk>)
    ensures |chunks| == |payloads|
    ensures forall i :: 0 <= i < |payloads| ==> chunks[i] == WireChunk(payloads[i], true)
  {
    seq(|payloads|, i requires 0 <= i < |payloads| => WireChunk(payloads[i], true))
  }

  /** What is still to come is never sent. */
  function GivenUp(s: Session): Session {
    s.(previous := None, kept := Kept(s.accepted), abandoned := s.abandoned + |ToCome(s)|)
  }

  /** A new connection has numbered nothing yet. */
  function Started(s: Session): Session {
    s.(phase := Handshake, taskChosen := true, current := FRESH_CACHE, wire := [], acks := [], peerIn := 0, log := [])
  }

  /** One step; `None` when the event cannot happen. */
  function Step(s: Session, e: Event): Option<Session> {
    match e
    case Connect(resume) =>
      if s.phase != Offline then None
      else
        Some(Started(if resume && s.previous.Some? then s else GivenUp(s)))
    case SendInfo(payload) =>
      if s.phase != Handshake then None else Some(SendNow(s, WireChunk(payload, false)))
    case Send(payload, retransmit, pushAvailable) =>
      if s.phase.Failed? || !s.taskChosen then None
      else Some(SendChunk(s, payload, retransmit, pushAvailable))
    case Deliver =>
      if !(s.phase in {Handshake, Online}) || s.wire == [] then None
      else Some(s.(wire := s.wire[1..], peerIn := s.peerIn + 1, accepted := s.accepted + [s.wire[0]]))
    case PeerAcknowledges =>
      if s.phase != Online then None else Some(s.(acks := s.acks + [s.peerIn]))
    case AcknowledgementArrives =>
      if s.phase != Online || s.acks == [] then None
      else Some(match PrunedBy(s.current, s.acks[0])
        case Err(_) => Fail(s, BadSequenceNumber)
        case Ok(cache) => s.(current := cache, acks := s.acks[1..]))
    case Establish =>
      if s.phase != Handshake || s.previous.Some? then None else Some(s.(phase := Online))
    case Resume =>
      if s.phase != Handshake || s.previous.None? then None else Some(ResumeSession(s, s.previous.value))
    case Discard =>
      // The two ends do not name the same previous connection
      if s.phase != Handshake || s.previous.None? then None
      else Some(GivenUp(s).(phase := Online))
    case Disconnect =>
      if s.phase == Handshake then
        // The cache of a connection that was not established is not reused
        Some((if s.previous.Some? then s else GivenUp(s)).(phase := Offline, wire := [], acks := []))
      else if s.phase == Online then
        Some(s.(phase := Offline, wire := [], acks := [], previous := Some(s.current),
                peerPrevious := s.peerIn, previousLog := s.log))
      else None
  }

  /** The state a sequence of events leads to; `None` when one of them cannot happen. */
  function Run(events: seq<Event>): Option<Session> { Runs.From(Step, START, events) }

  // ---- The invariant ------------------------------------------------------------------------

  /** The number a cache starts at: the last acknowledgement it accepted. */
  function Acked(c: Cache): int { c.next - |c.chunks| }

  ghost predicate CacheOf(c: Cache, log: seq<WireChunk>) {
    && c.min == 0 && c.max == SEQUENCE_NUMBER_MAX && |log| <= SEQUENCE_NUMBER_MAX
    && Holds(c, 0, CachedLog(log), Acked(c))
  }

  /** The connection delivers in order, and acknowledgements are honest and in order. */
  ghost predicate ConnectionInv(s: Session) {
    && CacheOf(s.current, s.log)
    && Acked(s.current) <= s.peerIn <= |s.log| && s.wire == s.log[s.peerIn..]
    && (forall i :: 0 <= i < |s.acks| ==> Acked(s.current) <= s.acks[i] <= s.peerIn)
    && (forall i, j :: 0 <= i <= j < |s.acks| ==> s.acks[i] <= s.acks[j])
  }

  /** What was accepted and what is still to come make up all that was kept. */
  ghost predicate Splits(accepted: seq<WireChunk>, rest: seq<WireChunk>, kept: seq<Bytes>) {
    Kept(accepted) + Kept(rest) == kept
  }

  ghost predicate PreviousInv(s: Session, cache: Cache) {
    && CacheOf(cache, s.previousLog)
    && Acked(cache) <= s.peerPrevious <= |s.previousLog|
    && Splits(s.accepted, s.previousLog[s.peerPrevious..], s.kept)
  }

  ghost predicate Accounted(s: Session) {
    && |s.requested| == |s.kept| + s.dropped + s.abandoned
    && Subsequence(s.kept, s.requested)
  }

  /** The connection carries what is to come, unless a previous one still waits to be resumed. */
  ghost predicate CurrentInv(s: Session) {
    && ConnectionInv(s)
    && (if s.previous.Some? then Kept(s.log) == [] && Acked(s.current) == 0
        else Splits(s.accepted, s.wire, s.kept))
  }

  ghost predicate Inv(s: Session) {
    if s.phase.Failed? then
      s.phase.reason == NumbersExhausted && Kept(s.accepted) <= s.kept && Subsequence(s.kept, s.requested)
    else
      && Accounted(s)
      && (s.previous.Some? ==> PreviousInv(s, s.previous.value))
      && (s.phase != Offline ==> CurrentInv(s))
      && (s.phase == Offline ==> s.wire == [] && (s.previous.None? ==> Splits(s.accepted, [], s.kept)))
      && (s.phase == Online ==> s.previous.None?)
  }

  // ---- Logs ---------------------------------------------------------------------------------

  lemma KeptAppend(a: seq<WireChunk>, b: seq<WireChunk>)
    ensures Kept(a + b) == Kept(a) + Kept(b)
  {
    assert CachedLog(a + b) == CachedLog(a) + CachedLog(b);
    NonNullAppend(CachedLog(a), CachedLog(b));
  }

  lemma SplitsSend(accepted: seq<WireChunk>, rest: seq<WireChunk>, kept: seq<Bytes>, chunk: WireChunk)
    requires Splits(accepted, rest, kept)
    ensures Splits(accepted, rest + [chunk], kept + Kept([chunk]))
  {
    KeptAppend(rest, [chunk]);
  }

  lemma SplitsPrefix(accepted: seq<WireChunk>, rest: seq<WireChunk>, kept: seq<Bytes>)
    requires Splits(accepted, rest, kept)
    ensures Kept(accepted) <= kept
  {
  }

  lemma SplitsDeliver(accepted: seq<WireChunk>, rest: seq<WireChunk>, kept: seq<Bytes>)
    requires Splits(accepted, rest, kept) && rest != []
    ensures Splits(accepted + [rest[0]], rest[1..], kept)
  {
    KeptAppend(accepted, [rest[0]]);
    KeptAppend([rest[0]], rest[1..]);
    assert [rest[0]] + rest[1..] == rest;
  }

  /** While a previous connection waits, nothing on the wire has to be kept. */
  lemma NothingKeptInPart(log: seq<WireChunk>, n: nat)
    requires Kept(log) == [] && n <= |log|
    ensures Kept(log[n..]) == [] && forall i :: n <= i < |log| ==> Kept([log[i]]) == []
  {
    hide Kept;
    KeptAppend(log[..n], log[n..]);
    assert log[..n] + log[n..] == log;
    forall i | n <= i < |log| ensures Kept([log[i]]) == [] {
      KeptAppend(log[..i], log[i..]);
      assert log[..i] + log[i..] == log;
      KeptAppend([log[i]], log[i + 1..]);
      assert [log[i]] + log[i + 1..] == log[i..];
    }
  }

  lemma KeptResent(payloads: seq<Bytes>)
    ensures CachedLog(Resent(payloads)) == AsCached(payloads)
    ensures Kept(Resent(payloads)) == payloads
  {
    assert CachedLog(Resent(payloads)) == AsCached(payloads);
    NonNullOfCached(payloads, |payloads|);
  }

  lemma CacheAppend(c: Cache, log: seq<WireChunk>, chunk: WireChunk)
    requires CacheOf(c, log) && Appended(c, CachedForm(chunk)).Ok?
    ensures CacheOf(Appended(c, CachedForm(chunk)).value, log + [chunk])
    ensures Acked(Appended(c, CachedForm(chunk)).value) == Acked(c)
  {
    AppendExtendsHistory(c, 0, CachedLog(log), Acked(c), CachedForm(chunk));
    assert CachedLog(log + [chunk]) == CachedLog(log) + [CachedForm(chunk)];
  }

  /** Pruning by a count the peer really reached is accepted and leaves exactly what it lacks. */
  lemma CachePrune(c: Cache, log: seq<WireChunk>, count: int)
    requires CacheOf(c, log) && Acked(c) <= count <= |log|
    ensures PrunedBy(c, count).Ok?
    ensures CacheOf(PrunedBy(c, count).value, log) && Acked(PrunedBy(c, count).value) == count
    ensures PrunedBy(c, count).value.chunks == CachedLog(log[count..])
  {
    PruneKeepsWhatFollows(c, 0, CachedLog(log), Acked(c), count);
    assert CachedLog(log)[count..] == CachedLog(log[count..]);
  }

  // ---- Subsequences -------------------------------------------------------------------------

  /** `a` is `b` without some of its entries. */
  ghost predicate Subsequence<T>(a: seq<T>, b: seq<T>) {
    if a == [] then true
    else if b == [] then false
    else
      var initA, initB := a[..|a| - 1], b[..|b| - 1];
      (a[|a| - 1] == b[|b| - 1] && Subsequence(initA, initB)) || Subsequence(a, initB)
  }

  lemma SubsequenceBoth<T>(a: seq<T>, b: seq<T>, tail: seq<T>)
    requires Subsequence(a, b) && |tail| <= 1
    ensures Subsequence(a + tail, b + tail)
  {
    if tail == [] {
      assert a + tail == a && b + tail == b;
    } else {
      assert (a + tail)[..|a|] == a && (b + tail)[..|b|] == b;
    }
  }

  lemma SubsequenceSkip<T>(a: seq<T>, b: seq<T>, tail: seq<T>)
    requires Subsequence(a, b) && |tail| <= 1
    ensures Subsequence(a, b + tail)
  {
    if tail == [] {
      assert b + tail == b;
    } else {
      assert (b + tail)[..|b|] == b;
    }
  }

  /** Asking for at most one payload and keeping it or not. */
  lemma SubsequenceAsk<T>(kept: seq<T>, requested: seq<T>, more: seq<T>, asked: seq<T>)
    requires Subsequence(kept, requested) && |asked| <= 1 && (more == asked || more == [])
    ensures Subsequence(kept + more, requested + asked) && Subsequence(kept, requested + asked)
  {
    hide Subsequence;
    assert kept + [] == kept;
    SubsequenceSkip(kept, requested, asked);
    if more == asked {
      SubsequenceBoth(kept, requested, asked);
    }
  }

  lemma {:induction false} SubsequencePrefix<T>(a: seq<T>, rest: seq<T>, b: seq<T>)
    requires Subsequence(a + rest, b)
    ensures Subsequence(a, b)
    decreases |b|
  {
    if a != [] {
      var initB := b[..|b| - 1];
      if Subsequence(a + rest, initB) {
        SubsequencePrefix(a, rest, initB);
      } else if rest == [] {
        assert a + rest == a;
      } else {
        assert (a + rest)[..|a + rest| - 1] == a + rest[..|rest| - 1];
        SubsequencePrefix(a, rest[..|rest| - 1], initB);
      }
    }
  }

  /** Only a sequence as long as `b` is `b` itself. */
  lemma {:induction false} SubsequenceLength<T>(a: seq<T>, b: seq<T>)
    requires Subsequence(a, b)
    ensures |a| <= |b|
    ensures |a| == |b| <==> a == b
    decreases |b|
  {
    if a != [] {
      var initA, initB := a[..|a| - 1], b[..|b| - 1];
      if Subsequence(a, initB) {
        SubsequenceLength(a, initB);
      } else {
        SubsequenceLength(initA, initB);
        assert a == initA + [a[|a| - 1]] && b == initB + [b[|b| - 1]];
      }
    }
  }

  // ---- Preservation -------------------------------------------------------------------------

  lemma SendNowKeepsInv(s: Session, chunk: WireChunk)
    requires s.phase in {Handshake, Online} && ConnectionInv(s)
    ensures var s' := SendNow(s, chunk);
            if s'.phase.Failed? then s' == Fail(s, NumbersExhausted)
            else
              && ConnectionInv(s') && Acked(s'.current) == Acked(s.current)
              && s' == s.(current := s'.current, log := s.log + [chunk], wire := s.wire + [chunk],
                          kept := s.kept + Kept([chunk]))
  {
    if SendNow(s, chunk).phase == s.phase {
      CacheAppend(s.current, s.log, chunk);
    }
  }

  lemma SendKeepsInv(s: Session, payload: Bytes, retransmit: bool, pushAvailable: bool)
    requires Inv(s) && Step(s, Send(payload, retransmit, pushAvailable)).Some?
    ensures Inv(SendChunk(s, payload, retransmit, pushAvailable))
  {
    match s.previous {
      case None =>
        if s.phase == Offline {
          SendNowhereKeepsInv(s, payload, retransmit, pushAvailable);
        } else {
          SendOnlineKeepsInv(s, payload, retransmit, pushAvailable);
        }
      case Some(cache) => SendQueuedKeepsInv(s, cache, payload, retransmit, pushAvailable);
    }
  }

  lemma SendNowhereKeepsInv(s: Session, payload: Bytes, retransmit: bool, pushAvailable: bool)
    requires Inv(s) && s.phase == Offline && s.previous.None?
    ensures Inv(SendChunk(s, payload, retransmit, pushAvailable))
  {
    hide Kept, CacheOf, Splits, Subsequence;
    var chunk := WireChunk(payload, retransmit);
    KeptOne(chunk);
    SubsequenceAsk(s.kept, s.requested, [], if retransmit then [payload] else []);
    SplitsPrefix(s.accepted, [], s.kept);
  }

  lemma SendOnlineKeepsInv(s: Session, payload: Bytes, retransmit: bool, pushAvailable: bool)
    requires Inv(s) && s.phase in {Handshake, Online} && s.previous.None?
    ensures Inv(SendChunk(s, payload, retransmit, pushAvailable))
  {
    var asked := s.(requested := s.requested + if retransmit then [payload] else []);
    var chunk := WireChunk(payload, retransmit);
    hide Kept, CacheOf, Splits, Subsequence;
    KeptOne(chunk);
    SubsequenceAsk(s.kept, s.requested, Kept([chunk]), if retransmit then [payload] else []);
    SendNowKeepsInv(asked, chunk);
    SplitsPrefix(s.accepted, s.wire, s.kept);
    SplitsSend(s.accepted, s.wire, s.kept, chunk);
  }

  lemma SendQueuedKeepsInv(s: Session, cache: Cache, payload: Bytes, retransmit: bool, pushAvailable: bool)
    requires Inv(s) && !s.phase.Failed? && s.previous == Some(cache)
    ensures Inv(SendChunk(s, payload, retransmit, pushAvailable))
  {
    hide CacheOf, Splits, Kept, Subsequence;
    var dropped := if retransmit && !pushAvailable then 1 else 0;
    var asked := s.(requested := s.requested + (if retransmit then [payload] else []), dropped := s.dropped + dropped);
    var chunk := WireChunk(payload, retransmit && pushAvailable);
    KeptOne(chunk);
    SubsequenceAsk(s.kept, s.requested, Kept([chunk]), if retransmit then [payload] else []);
    QueueKeepsInv(asked, cache, chunk);
    SplitsPrefix(s.accepted, s.previousLog[s.peerPrevious..], s.kept);
    assert SendChunk(s, payload, retransmit, pushAvailable) == Queue(asked, cache, chunk);
  }

  lemma QueueKeepsInv(s: Session, cache: Cache, chunk: WireChunk)
    requires PreviousInv(s, cache) && !s.phase.Failed?
    ensures var s' := Queue(s, cache, chunk);
            if s'.phase.Failed? then s' == Fail(s, NumbersExhausted)
            else
              && s'.previous.Some? && PreviousInv(s', s'.previous.value)
              && s' == s.(previous := s'.previous, previousLog := s.previousLog + [chunk],
                          kept := s.kept + Kept([chunk]))
  {
    if !Queue(s, cache, chunk).phase.Failed? {
      CacheAppend(cache, s.previousLog, chunk);
      SplitsSend(s.accepted, s.previousLog[s.peerPrevious..], s.kept, chunk);
      assert (s.previousLog + [chunk])[s.peerPrevious..] == s.previousLog[s.peerPrevious..] + [chunk];
    }
  }

  lemma KeptOne(chunk: WireChunk)
    ensures Kept([chunk]) == if chunk.retransmit then [chunk.payload] else []
  {
    assert CachedLog([chunk]) == [CachedForm(chunk)];
    assert NonNullOfFirst([CachedForm(chunk)], 0) == [];
  }

  lemma DeliverKeepsInv(s: Session)
    requires Inv(s) && Step(s, Deliver).Some?
    ensures Inv(Step(s, Deliver).value)
  {
    hide CacheOf, Splits, Kept, Subsequence;
    match s.previous {
      case None => SplitsDeliver(s.accepted, s.wire, s.kept);
      case Some(_) =>
        NothingKeptInPart(s.log, s.peerIn);
        SplitsAccept(s.accepted, s.previousLog[s.peerPrevious..], s.kept, s.wire[0]);
    }
  }

  lemma SplitsAccept(accepted: seq<WireChunk>, rest: seq<WireChunk>, kept: seq<Bytes>, chunk: WireChunk)
    requires Splits(accepted, rest, kept) && Kept([chunk]) == []
    ensures Splits(accepted + [chunk], rest, kept)
  {
    assert Kept(accepted) + [] == Kept(accepted);
    KeptAppend(accepted, [chunk]);
  }

  lemma AcknowledgementKeepsInv(s: Session)
    requires Inv(s) && Step(s, AcknowledgementArrives).Some?
    ensures Inv(Step(s, AcknowledgementArrives).value)
  {
    CachePrune(s.current, s.log, s.acks[0]);
  }

  /** What resuming comes to. */
  function Resumed(s: Session): Session {
    var missing := ToCome(s);
    if |s.log| + |missing| > SEQUENCE_NUMBER_MAX then Fail(s, NumbersExhausted)
    else
      s.(phase := Online, current := AppendedAll(s.current, AsCached(missing)).0, previous := None,
         wire := s.wire + Resent(missing), log := s.log + Resent(missing))
  }

  lemma ResumeResult(s: Session)
    requires s.previous.Some? && PreviousInv(s, s.previous.value)
    requires CacheOf(s.current, s.log) && Acked(s.current) == 0 && Kept(s.log) == []
    ensures ToCome(s) == Kept(s.previousLog[s.peerPrevious..])
    ensures ResumeSession(s, s.previous.value) == Resumed(s)
  {
    ToComeIs(s, s.previous.value);
    hide CacheOf, Kept, Splits, PrunedBy, NonNullOfFirst, AppendedAll;
    TransferInto(s.current, s.log, ToCome(s));
    assert NonNull(PrunedBy(s.previous.value, s.peerPrevious).value.chunks) == ToCome(s);
    var (current, transferred) := AppendedAll(s.current, AsCached(ToCome(s)));
    if transferred.Ok? {
      assert Resent(NonNull(current.chunks)) == Resent(ToCome(s));
    }
  }

  lemma ToComeIs(s: Session, cache: Cache)
    requires s.previous == Some(cache) && PreviousInv(s, cache)
    ensures PrunedBy(cache, s.peerPrevious).Ok?
    ensures ToCome(s) == Kept(s.previousLog[s.peerPrevious..])
  {
    hide Splits;
    CachePrune(cache, s.previousLog, s.peerPrevious);
  }

  /** Resuming never meets a bad number, and puts on the wire exactly what the peer lacks. */
  lemma ResumeKeepsInv(s: Session)
    requires Inv(s) && s.phase == Handshake && s.previous.Some?
    ensures var s' := ResumeSession(s, s.previous.value);
            && Inv(s')
            && (s'.phase.Failed? <==> |s.log| + |ToCome(s)| > SEQUENCE_NUMBER_MAX)
            && (!s'.phase.Failed? ==>
                  s'.phase == Online && s'.kept == s.kept && s'.wire == s.wire + Resent(ToCome(s)))
  {
    hide ResumeSession, AppendedAll, ToCome, CacheOf, Kept;
    ResumeResult(s);
    var missing := ToCome(s);
    assert Kept(s.accepted) + missing == s.kept && Kept(s.accepted) <= s.kept;
    if |s.log| + |missing| <= SEQUENCE_NUMBER_MAX {
      TransferInto(s.current, s.log, missing);
      ResumedSplits(s.accepted, s.log, s.peerIn, s.kept, missing);
      assert ConnectionInv(Resumed(s));
    }
  }

  /** The wire holds nothing to keep before the resent chunks, so these are all that is to come. */
  lemma ResumedSplits(accepted: seq<WireChunk>, log: seq<WireChunk>, peerIn: nat, kept: seq<Bytes>,
                      missing: seq<Bytes>)
    requires Kept(log) == [] && peerIn <= |log|
    requires Kept(accepted) + missing == kept
    ensures (log + Resent(missing))[peerIn..] == log[peerIn..] + Resent(missing)
    ensures Splits(accepted, log[peerIn..] + Resent(missing), kept)
  {
    var rest := log[peerIn..];
    assert (log + Resent(missing))[peerIn..] == rest + Resent(missing);
    assert Kept(rest + Resent(missing)) == missing by {
      NothingKeptInPart(log, peerIn);
      KeptResent(missing);
      KeptAppend(rest, Resent(missing));
    }
  }

  /** Transferring to the new connection's cache, which has nothing of its own to retransmit. */
  lemma TransferInto(c: Cache, log: seq<WireChunk>, payloads: seq<Bytes>)
    requires CacheOf(c, log) && Acked(c) == 0 && Kept(log) == []
    ensures var (c', r) := AppendedAll(c, AsCached(payloads));
            && (r.Ok? <==> |log| + |payloads| <= SEQUENCE_NUMBER_MAX)
            && (r.Ok? ==> CacheOf(c', log + Resent(payloads)) && Acked(c') == 0 && NonNull(c'.chunks) == payloads)
  {
    AppendAllExtendsHistory(c, 0, CachedLog(log), 0, AsCached(payloads));
    var (c', r) := AppendedAll(c, AsCached(payloads));
    if r.Ok? {
      KeptResent(payloads);
      assert AsCached(payloads)[..|payloads|] == AsCached(payloads);
      assert CachedLog(log + Resent(payloads)) == CachedLog(log) + AsCached(payloads);
      KeptAppend(log, Resent(payloads));
      assert c'.chunks == CachedLog(log + Resent(payloads));
    }
  }

  lemma StepKeepsInv(s: Session, e: Event)
    requires Inv(s) && Step(s, e).Some?
    ensures Inv(Step(s, e).value)
  {
    hide CacheOf, Splits, Kept;
    match e {
      case Connect(resume) => ConnectKeepsInv(s, resume);
      case SendInfo(payload) => SendInfoKeepsInv(s, payload);
      case Send(payload, retransmit, pushAvailable) => SendKeepsInv(s, payload, retransmit, pushAvailable);
      case Deliver => DeliverKeepsInv(s);
      case AcknowledgementArrives => AcknowledgementKeepsInv(s);
      case Resume => ResumeKeepsInv(s);
      case Discard => DiscardKeepsInv(s);
      case Disconnect => DisconnectKeepsInv(s);
      case PeerAcknowledges =>
      case Establish =>
    }
  }

  lemma SendInfoKeepsInv(s: Session, payload: Bytes)
    requires Inv(s) && s.phase == Handshake
    ensures Inv(SendNow(s, WireChunk(payload, false)))
  {
    hide Kept, CacheOf, Splits, Subsequence;
    var chunk := WireChunk(payload, false);
    KeptOne(chunk);
    KeptAppend(s.log, [chunk]);
    SendNowKeepsInv(s, chunk);
    assert s.kept + [] == s.kept;
    match s.previous {
      case None =>
        SplitsPrefix(s.accepted, s.wire, s.kept);
        SplitsSend(s.accepted, s.wire, s.kept, chunk);
      case Some(_) => SplitsPrefix(s.accepted, s.previousLog[s.peerPrevious..], s.kept);
    }
  }

  /** Giving up loses exactly what was still to come. */
  lemma GivenUpKeepsAccounts(s: Session)
    requires Accounted(s) && Kept(s.accepted) + ToCome(s) == s.kept
    ensures Accounted(GivenUp(s)) && Splits(s.accepted, [], GivenUp(s).kept)
  {
    hide ToCome;
    SubsequencePrefix(Kept(s.accepted), ToCome(s), s.requested);
    KeptNone();
    assert Kept(s.accepted) + [] == Kept(s.accepted);
  }

  /** What the peer accepted and what is to come are what was kept. */
  lemma NothingInBetween(s: Session)
    requires Inv(s) && !s.phase.Failed?
    ensures Kept(s.accepted) + ToCome(s) == s.kept
  {
    match s.previous {
      case None =>
      case Some(cache) => ToComeIs(s, cache);
    }
  }

  lemma KeptNone()
    ensures Kept([]) == []
  {
  }

  lemma SplitsSame(accepted: seq<WireChunk>, a: seq<WireChunk>, b: seq<WireChunk>, kept: seq<Bytes>)
    requires Splits(accepted, a, kept) && Kept(a) == Kept(b)
    ensures Splits(accepted, b, kept)
  {
  }

  lemma DiscardKeepsInv(s: Session)
    requires Inv(s) && Step(s, Discard).Some?
    ensures var s' := Step(s, Discard).value;
            && Inv(s') && s'.phase == Online && s'.previous.None? && s'.kept == Kept(s.accepted)
            && s'.wire == s.wire && s'.log == s.log
  {
    hide ToCome, Kept, CachedLog, CacheOf, Splits, Subsequence, PreviousInv;
    NothingInBetween(s);
    GivenUpKeepsAccounts(s);
    assert Kept(s.wire) == Kept([]) by {
      NothingKeptInPart(s.log, s.peerIn);
      KeptNone();
    }
    SplitsSame(s.accepted, [], s.wire, GivenUp(s).kept);
    assert ConnectionInv(GivenUp(s));
  }

  /**
    * Breaking a connection that is online hands over to the previous one; breaking a handshake leaves
    * the previous one alone, or gives up what was sent when there is none.
    */
  lemma DisconnectKeepsInv(s: Session)
    requires Inv(s) && Step(s, Disconnect).Some?
    ensures var s' := Step(s, Disconnect).value;
            && Inv(s') && s'.phase == Offline && s'.accepted == s.accepted && s'.wire == [] && s'.acks == []
            && (if s.phase == Handshake && s.previous.None? then
                  s'.kept == Kept(s.accepted) && s'.abandoned == s.abandoned + |Kept(s.wire)|
                else s'.kept == s.kept && s'.abandoned == s.abandoned && s'.previous.Some?)
  {
    hide Kept, CacheOf, Splits, Subsequence;
    if s.phase == Handshake && s.previous.None? {
      NothingInBetween(s);
      GivenUpKeepsAccounts(s);
    }
  }

  lemma ConnectKeepsInv(s: Session, resume: bool)
    requires Inv(s) && Step(s, Connect(resume)).Some?
    ensures var s' := Step(s, Connect(resume)).value;
            && Inv(s') && s'.phase == Handshake && s'.taskChosen && s'.log == [] && s'.current.next == 0
            && s'.previous == (if resume then s.previous else None)
  {
    hide ToCome, Kept, Splits, CacheOf, PreviousInv, Subsequence;
    if resume && s.previous.Some? {
      StartedInv(s);
    } else {
      NothingInBetween(s);
      GivenUpKeepsAccounts(s);
      StartedInv(GivenUp(s));
    }
  }

  lemma StartedInv(s: Session)
    requires Accounted(s)
    requires if s.previous.Some? then PreviousInv(s, s.previous.value) else Splits(s.accepted, [], s.kept)
    ensures Inv(Started(s))
  {
    hide Splits, Subsequence;
    assert CachedLog([]) == [];
    KeptNone();
    hide Kept;
    assert CacheOf(FRESH_CACHE, []);
  }

  lemma ReachableInv(events: seq<Event>)
    requires Run(events).Some?
    ensures Inv(Run(events).value)
  {
    forall s, e | Inv(s) && Step(s, e).Some? ensures Inv(Step(s, e).value) {
      StepKeepsInv(s, e);
    }
    assert Inv(START) by {
      assert Kept([]) == [];
    }
    Runs.Keeps(Step, Inv, START, events);
  }

  // ---- Results ------------------------------------------------------------------------------

  /**
    * Over every run, through any number of sessions: what peers accepted followed by what is still to
    * come is exactly what was kept, in order, and a subsequence of what the application asked to be
    * delivered. It is all of that if and only if no chunk was queued while the push service was
    * unavailable and none was abandoned.
    */
  lemma NothingLost(events: seq<Event>)
    requires Run(events).Some?
    ensures var s := Run(events).value;
            && Kept(s.accepted) <= s.kept && Subsequence(s.kept, s.requested)
            && (!s.phase.Failed? ==>
                  && Kept(s.accepted) + ToCome(s) == s.kept
                  && (Kept(s.accepted) + ToCome(s) == s.requested <==> s.dropped == 0 && s.abandoned == 0))
  {
    hide ToCome, Inv;
    var s := Run(events).value;
    ReachableInv(events);
    KeptIsSubsequence(s);
    if !s.phase.Failed? {
      NothingInBetween(s);
      SubsequenceLength(s.kept, s.requested);
    }
  }

  lemma KeptIsSubsequence(s: Session)
    requires Inv(s)
    ensures Subsequence(s.kept, s.requested)
    ensures !s.phase.Failed? ==> |s.requested| == |s.kept| + s.dropped + s.abandoned
    ensures s.phase.Failed? ==> Kept(s.accepted) <= s.kept
  {
  }

  /** Which events make the client abandon what is still to come. */
  predicate GivesUp(s: Session, e: Event) {
    match e
    case Connect(resume) => !resume || s.previous.None?
    case Discard => true
    case Disconnect => s.phase == Handshake && s.previous.None?
    case _ => false
  }

  /** What a payload that is asked for to be delivered comes to when it is sent. */
  datatype Fate = Sent | QueuedUp | Dropped | Abandoned

  function FateOf(s: Session, e: Event): Fate
    requires e.Send?
  {
    if s.previous.Some? then if e.pushAvailable then QueuedUp else Dropped
    else if s.phase == Offline then Abandoned
    else Sent
  }

  /** The payload an event asks for to be delivered. */
  function Asked(e: Event): seq<Bytes> { if e.Send? && e.retransmit then [e.payload] else [] }

  function Added(s: Session, e: Event): seq<Bytes> {
    if e.Send? && FateOf(s, e) in {Sent, QueuedUp} then Asked(e) else []
  }

  function AbandonedBy(s: Session, e: Event): nat {
    if GivesUp(s, e) then |ToCome(s)| else if e.Send? && FateOf(s, e) == Abandoned then |Asked(e)| else 0
  }

  /**
    * What one event does to all that was or will be delivered: giving up cuts it down to what was
    * accepted, a payload asked for extends it unless it is dropped or sent with nothing to send it to,
    * nothing else changes it.
    */
  lemma OnlyGivingUpAbandons(events: seq<Event>, e: Event)
    requires Run(events + [e]).Some? && !Run(events + [e]).value.phase.Failed?
    ensures Run(events).Some?
    ensures var s, s' := Run(events).value, Run(events + [e]).value;
            && s'.requested == s.requested + Asked(e)
            && s'.abandoned == s.abandoned + AbandonedBy(s, e)
            && Kept(s'.accepted) + ToCome(s') ==
               (if GivesUp(s, e) then Kept(s.accepted) else Kept(s.accepted) + ToCome(s) + Added(s, e))
  {
    hide Step, Kept, ToCome, Subsequence, Runs.From;
    Runs.HasPrefix(Step, START, events, [e]);
    Runs.LastEvent(Step, START, events, e);
    NothingLost(events);
    NothingLost(events + [e]);
    EffectOnKept(Run(events).value, e);
  }

  lemma EffectOnKept(s: Session, e: Event)
    requires Step(s, e).Some? && !Step(s, e).value.phase.Failed?
    ensures !s.phase.Failed?
    ensures var s' := Step(s, e).value;
            && s'.requested == s.requested + Asked(e)
            && s'.abandoned == s.abandoned + AbandonedBy(s, e)
            && s'.kept == if GivesUp(s, e) then Kept(s.accepted) else s.kept + Added(s, e)
  {
    hide Kept, ToCome, PrunedBy, AppendedAll, SendChunk;
    match e {
      case Send(_, _, _) => EffectOfSending(s, e);
      case SendInfo(payload) => KeptOne(WireChunk(payload, false));
      case _ =>
    }
  }

  lemma EffectOfSending(s: Session, e: Event)
    requires e.Send? && !s.phase.Failed?
    requires !SendChunk(s, e.payload, e.retransmit, e.pushAvailable).phase.Failed?
    ensures var s' := SendChunk(s, e.payload, e.retransmit, e.pushAvailable);
            && s'.requested == s.requested + Asked(e)
            && s'.abandoned == s.abandoned + (if FateOf(s, e) == Abandoned then |Asked(e)| else 0)
            && s'.kept == s.kept + Added(s, e)
  {
    hide Kept;
    KeptOne(WireChunk(e.payload, e.retransmit && (s.previous.None? || e.pushAvailable)));
  }

  /** An honest peer is never accused of acknowledging too much or too little. */
  lemma NoBadSequenceNumber(events: seq<Event>)
    requires Run(events).Some?
    ensures Run(events).value.phase != Failed(BadSequenceNumber)
  {
    ReachableInv(events);
  }

  function Deliveries(n: nat): seq<Event> { seq(n, _ => Deliver) }

  lemma DeliverNext(s: Session)
    requires Inv(s) && s.phase == Online && s.wire != []
    ensures Step(s, Deliver).Some?
    ensures var next := Step(s, Deliver).value;
            && Inv(next) && next.phase == Online && next.kept == s.kept && next.wire == s.wire[1..]
            && next.accepted == s.accepted + [s.wire[0]] && next.acks == s.acks
  {
    DeliverKeepsInv(s);
  }

  lemma AllDelivered(s: Session)
    requires Inv(s) && s.phase == Online && s.wire == []
    ensures Kept(s.accepted) == s.kept
  {
    KeptNone();
    assert Kept(s.accepted) + [] == Kept(s.accepted);
  }

  lemma {:induction false} DeliverAll(s: Session)
    requires Inv(s) && s.phase == Online
    ensures var end := Runs.From(Step, s, Deliveries(|s.wire|));
            end.Some? && end.value.phase == Online && end.value.wire == []
            && end.value.kept == s.kept == Kept(end.value.accepted)
            && end.value.accepted == s.accepted + s.wire && end.value.acks == s.acks && Inv(end.value)
    decreases |s.wire|
  {
    hide Inv, Kept;
    if s.wire == [] {
      assert s.accepted + [] == s.accepted;
      AllDelivered(s);
    } else {
      DeliverNext(s);
      var next := Step(s, Deliver).value;
      DeliverAll(next);
      assert (s.accepted + [s.wire[0]]) + s.wire[1..] == s.accepted + s.wire;
      assert Deliveries(|s.wire|) == [Deliver] + Deliveries(|next.wire|);
      Runs.FirstEvent(Step, s, Deliver, Deliveries(|next.wire|));
    }
  }

  /**
    * However often connections broke before: once a handshake succeeds and the connection lasts, the
    * peer ends up with exactly the kept payloads, each once and in order (short of 2^32 - 1 chunks).
    */
  lemma ResumptionCompletes(events: seq<Event>)
    requires Run(events).Some? && Step(Run(events).value, Resume).Some?
    requires var s := Run(events).value; |s.log| + |ToCome(s)| <= SEQUENCE_NUMBER_MAX
    ensures var n := |Step(Run(events).value, Resume).value.wire|;
            var end := Run(events + ([Resume] + Deliveries(n)));
            end.Some? && Kept(end.value.accepted) == Run(events).value.kept == end.value.kept
  {
    var s := Run(events).value;
    Resumes(events);
    var resumed := Step(s, Resume).value;
    var n := |resumed.wire|;
    DeliverAll(resumed);
    Runs.Append(Step, START, events, [Resume] + Deliveries(n));
    Runs.FirstEvent(Step, s, Resume, Deliveries(n));
  }

  lemma Resumes(events: seq<Event>)
    requires Run(events).Some? && Step(Run(events).value, Resume).Some?
    requires var s := Run(events).value; |s.log| + |ToCome(s)| <= SEQUENCE_NUMBER_MAX
    ensures var resumed := Step(Run(events).value, Resume).value;
            Inv(resumed) && resumed.phase == Online && resumed.kept == Run(events).value.kept
  {
    hide Inv, ResumeSession, ToCome;
    var s := Run(events).value;
    ReachableInv(events);
    ResumeKeepsInv(s);
  }

  /**
    * A payload queued while the push service is unavailable is numbered, but it changes nothing about
    * what is kept or still to come: it is never sent.
    */
  lemma QueuedWithoutPushIsDropped(events: seq<Event>, payload: Bytes)
    requires Run(events).Some? && Run(events).value.previous.Some?
    requires var sent := Run(events + [Send(payload, true, false)]); sent.Some? && !sent.value.phase.Failed?
    ensures var s, s' := Run(events).value, Run(events + [Send(payload, true, false)]).value;
            && s'.kept == s.kept && ToCome(s') == ToCome(s) && s'.accepted == s.accepted
            && s'.requested == s.requested + [payload] && s'.dropped == s.dropped + 1
            && s'.previous.Some? && s'.previous.value.next == s.previous.value.next + 1
  {
    var s := Run(events).value;
    var e := Send(payload, true, false);
    assert Run(events + [e]) == Step(s, e) by {
      Runs.LastEvent(Step, START, events, e);
    }
    var s' := Run(events + [e]).value;
    assert s'.kept == s.kept by {
      KeptOne(WireChunk(payload, false));
    }
    NothingLost(events);
    NothingLost(events + [e]);
    CancelPrefix(Kept(s.accepted), ToCome(s), ToCome(s'));
  }

  lemma CancelPrefix<T>(a: seq<T>, b: seq<T>, c: seq<T>)
    requires a + b == a + c
    ensures b == c
  {
    assert b == (a + b)[|a|..] && c == (a + c)[|a|..];
  }

  lemma NoEvents(s: Session)
    ensures Runs.From(Step, s, []) == Some(s)
  {
  }

  /** A run of four events, step by step. */
  lemma FourSteps(e: seq<Event>, s1: Session, s2: Session, s3: Session, s4: Session)
    requires |e| == 4
    requires Step(START, e[0]) == Some(s1) && Step(s1, e[1]) == Some(s2)
    requires Step(s2, e[2]) == Some(s3) && Step(s3, e[3]) == Some(s4)
    ensures Run(e[..3]) == Some(s3) && Run(e) == Some(s4)
  {
    hide Step, Runs.From, START;
    NoEvents(START);
    assert [] + [e[0]] == e[..1] && e[..1] + [e[1]] == e[..2];
    assert e[..2] + [e[2]] == e[..3] && e[..3] + [e[3]] == e;
    Runs.LastEvent(Step, START, [], e[0]);
    Runs.LastEvent(Step, START, e[..1], e[1]);
    Runs.LastEvent(Step, START, e[..2], e[2]);
    Runs.LastEvent(Step, START, e[..3], e[3]);
  }

  /** Such a run exists, so "nothing requested is lost" does fail without the push service. */
  lemma DroppingHappens(payload: Bytes)
    ensures var r := Run([Connect(true), Establish, Disconnect, Send(payload, true, false)]);
            r.Some? && r.value.dropped == 1 && r.value.requested == [payload] && r.value.kept == []
  {
    KeptNone();
    hide Kept, CachedLog, Run;
    var events := [Connect(true), Establish, Disconnect, Send(payload, true, false)];
    var shaken := Step(START, events[0]).value;
    var online := Step(shaken, events[1]).value;
    var offline := Step(online, events[2]).value;
    KeptOne(WireChunk(payload, false));
    FourSteps(events, shaken, online, offline, Step(offline, events[3]).value);
  }

  /**
    * It also fails with the push service: what is sent in a handshake with nothing to resume is
    * abandoned when the connection breaks before the handshake is over, and never sent again.
    */
  lemma AbandoningHappens(payload: Bytes)
    ensures var r := Run([Connect(true), Send(payload, true, true), Disconnect, Connect(true)]);
            && r.Some? && r.value.requested == [payload] && r.value.dropped == 0 && r.value.abandoned == 1
            && r.value.accepted == [] && ToCome(r.value) == []
  {
    KeptNone();
    hide Kept, CachedLog, Run;
    var events := [Connect(true), Send(payload, true, true), Disconnect, Connect(true)];
    var shaken := Step(START, events[0]).value;
    var sent := Step(shaken, events[1]).value;
    KeptOne(WireChunk(payload, true));
    assert sent.wire == [WireChunk(payload, true)];
    var offline := Step(sent, events[2]).value;
    FourSteps(events, shaken, sent, offline, Step(offline, events[3]).value);
  }

  // ---- What events do on the way --------------------------------------------------------------

  /** A handshake chooses the task, and there is no cache to resume from without one. */
  ghost predicate Chosen(s: Session) {
    !s.phase.Failed? && (s.phase in {Handshake, Online} || s.previous.Some?) ==> s.taskChosen
  }

  lemma ReachableChosen(events: seq<Event>)
    requires Run(events).Some?
    ensures Chosen(Run(events).value)
  {
    forall s, e | Chosen(s) && Step(s, e).Some? ensures Chosen(Step(s, e).value) {
      StepKeepsChosen(s, e);
    }
    Runs.Keeps(Step, Chosen, START, events);
  }

  lemma StepKeepsChosen(s: Session, e: Event)
    requires Chosen(s) && Step(s, e).Some?
    ensures Chosen(Step(s, e).value)
  {
    hide Kept, ToCome, PrunedBy, AppendedAll, Appended;
  }

  /**
    * While connected every chunk goes on the wire behind those sent before, is numbered next, and stays
    * in the cache unless it is not to be retransmitted; sending only fails when the numbers are used up.
    */
  lemma ConnectedSendsAtOnce(events: seq<Event>, payload: Bytes, retransmit: bool, pushAvailable: bool)
    requires Run(events).Some? && Run(events).value.phase in {Handshake, Online}
    requires Run(events).value.previous.None?
    ensures var s := Run(events).value;
            Step(s, Send(payload, retransmit, pushAvailable)).Some?
            && OnWire(s, Step(s, Send(payload, retransmit, pushAvailable)).value, payload, retransmit)
  {
    ReachableInv(events);
    ReachableChosen(events);
  }

  /** So does the information about the connection, whether or not there is something to resume. */
  lemma InfoIsSentAtOnce(events: seq<Event>, payload: Bytes)
    requires Run(events).Some? && Run(events).value.phase == Handshake
    ensures var s := Run(events).value;
            Step(s, SendInfo(payload)).Some? && OnWire(s, Step(s, SendInfo(payload)).value, payload, false)
  {
    ReachableInv(events);
  }

  /** `s'` is `s` after a chunk was sent, or failed for want of numbers. */
  ghost predicate OnWire(s: Session, s': Session, payload: Bytes, retransmit: bool) {
    if |s.log| == SEQUENCE_NUMBER_MAX then s'.phase == Failed(NumbersExhausted)
    else
      && s'.phase == s.phase && s'.previous == s.previous && s'.taskChosen == s.taskChosen
      && s'.wire == s.wire + [WireChunk(payload, retransmit)] && s'.log == s.log + [WireChunk(payload, retransmit)]
      && s'.current.next == |s.log| + 1
      && s'.current.chunks == s.current.chunks + [if retransmit then Some(payload) else None]
      && s'.accepted == s.accepted
  }

  /**
    * While a previous connection waits to be resumed, nothing goes on the wire: the chunk is numbered
    * behind those of the previous connection, and kept there if it is worth waking up the peer for.
    */
  lemma OtherwiseQueues(events: seq<Event>, payload: Bytes, retransmit: bool, pushAvailable: bool)
    requires Run(events).Some? && Run(events).value.previous.Some? && !Run(events).value.phase.Failed?
    ensures var s := Run(events).value;
            var r := Step(s, Send(payload, retransmit, pushAvailable));
            && r.Some?
            && var s' := r.value;
               if |s.previousLog| == SEQUENCE_NUMBER_MAX then s'.phase == Failed(NumbersExhausted)
               else
                 && s'.phase == s.phase && s'.wire == s.wire && s'.log == s.log && s'.accepted == s.accepted
                 && s'.previous.Some? && s'.previous.value.next == |s.previousLog| + 1
                 && s'.previous.value.chunks ==
                    s.previous.value.chunks + [if retransmit && pushAvailable then Some(payload) else None]
  {
    hide Kept;
    ReachableInv(events);
    ReachableChosen(events);
  }

  /** An acknowledgement takes everything it covers out of the cache, and nothing else. */
  lemma AcknowledgementPrunes(s: Session)
    requires Inv(s) && s.phase == Online && s.acks != []
    ensures Step(s, AcknowledgementArrives).Some?
    ensures var s' := Step(s, AcknowledgementArrives).value;
            && Inv(s') && s'.phase == Online && s'.acks == s.acks[1..] && Acked(s'.current) == s.acks[0]
            && s'.current.chunks == CachedLog(s.log[s.acks[0]..])
            && s'.wire == s.wire && s'.log == s.log && s'.peerIn == s.peerIn
  {
    AcknowledgementKeepsInv(s);
    CachePrune(s.current, s.log, s.acks[0]);
  }

  /** With nothing to send to, the chunk only uses up a number of the connection that broke. */
  lemma NowhereToSend(s: Session, payload: Bytes, retransmit: bool, pushAvailable: bool)
    requires Inv(s) && s.taskChosen && s.phase == Offline && s.previous.None?
    ensures var r := Step(s, Send(payload, retransmit, pushAvailable));
            && r.Some?
            && if !(s.current.min <= s.current.next + 1 <= s.current.max)
               then r.value.phase == Failed(NumbersExhausted)
               else r.value.phase == Offline && r.value.wire == [] && r.value.current.next == s.current.next + 1
  {
    hide Kept;
  }

  /** A failed session has closed: nothing is under way or kept to be resumed, and nothing happens any more. */
  ghost predicate Closed(s: Session) { s.phase.Failed? ==> s.previous.None? && s.wire == [] && s.acks == [] }

  lemma FailureIsFinal(events: seq<Event>, e: Event)
    requires Run(events).Some? && Run(events).value.phase.Failed?
    ensures Closed(Run(events).value) && Step(Run(events).value, e).None?
  {
    forall s, e | Closed(s) && Step(s, e).Some? ensures Closed(Step(s, e).value) {
      StepKeepsClosed(s, e);
    }
    Runs.Keeps(Step, Closed, START, events);
  }

  lemma StepKeepsClosed(s: Session, e: Event)
    requires Closed(s) && Step(s, e).Some?
    ensures Closed(Step(s, e).value)
  {
    hide Kept, ToCome, PrunedBy, AppendedAll, Appended;
  }

  function Acknowledgements(n: nat): seq<Event> { seq(n, _ => AcknowledgementArrives) }

  /** Once a peer that has received everything acknowledges, nothing is left to retransmit. */
  lemma {:induction false} AcknowledgedIsForgotten(s: Session)
    requires Inv(s) && s.phase == Online && s.wire == []
    requires s.acks != [] && s.acks[|s.acks| - 1] == s.peerIn
    ensures var end := Runs.From(Step, s, Acknowledgements(|s.acks|));
            end.Some? && end.value.phase == Online && end.value.current.chunks == [] && end.value.acks == []
    decreases |s.acks|
  {
    AcknowledgementPrunes(s);
    var next := Step(s, AcknowledgementArrives).value;
    assert Acknowledgements(|s.acks|) == [AcknowledgementArrives] + Acknowledgements(|s.acks| - 1);
    Runs.FirstEvent(Step, s, AcknowledgementArrives, Acknowledgements(|s.acks| - 1));
    if |s.acks| > 1 {
      AcknowledgedIsForgotten(next);
    } else {
      assert s.log[s.peerIn..] == [];
    }
  }

  /**
    * Acknowledging empties the cache: in every run, when what is on the wire has been delivered, the
    * peer acknowledges, and the acknowledgements arrive, nothing is left to retransmit.
    */
  lemma CacheEmpties(events: seq<Event>)
    requires Run(events).Some? && Run(events).value.phase == Online
    ensures var s := Run(events).value;
            var end := Runs.From(Step, s, Deliveries(|s.wire|) + ([PeerAcknowledges] + Acknowledgements(|s.acks| + 1)));
            end.Some? && end.value.phase == Online && end.value.current.chunks == [] && end.value.acks == []
  {
    hide Inv, Kept, Runs.From;
    var s := Run(events).value;
    ReachableInv(events);
    DeliverAll(s);
    var delivered := Runs.From(Step, s, Deliveries(|s.wire|)).value;
    var acknowledged := delivered.(acks := delivered.acks + [delivered.peerIn]);
    assert Step(delivered, PeerAcknowledges) == Some(acknowledged);
    StepKeepsInv(delivered, PeerAcknowledges);
    AcknowledgedIsForgotten(acknowledged);
    Runs.Append(Step, s, Deliveries(|s.wire|), [PeerAcknowledges] + Acknowledgements(|s.acks| + 1));
    Runs.FirstEvent(Step, delivered, PeerAcknowledges, Acknowledgements(|s.acks| + 1));
  }

  // ---- Whole runs -----------------------------------------------------------------------------

  function Sends(chunks: seq<WireChunk>): seq<Event> {
    seq(|chunks|, i requires 0 <= i < |chunks| => Send(chunks[i].payload, chunks[i].retransmit, true))
  }

  lemma SendsNext(chunks: seq<WireChunk>)
    requires chunks != []
    ensures Sends(chunks) == [Send(chunks[0].payload, chunks[0].retransmit, true)] + Sends(chunks[1..])
  {
  }

  ghost predicate Connected(s: Session) {
    Inv(s) && s.taskChosen && s.phase in {Handshake, Online} && s.previous.None?
  }

  lemma {:induction false} AllSent(s: Session, chunks: seq<WireChunk>)
    requires Connected(s) && |s.log| + |chunks| <= SEQUENCE_NUMBER_MAX
    ensures var end := Runs.From(Step, s, Sends(chunks));
            && end.Some? && Connected(end.value) && end.value.phase == s.phase
            && end.value.wire == s.wire + chunks && end.value.accepted == s.accepted
    decreases |chunks|
  {
    hide Connected, Step, Runs.From;
    if chunks == [] {
      NoEvents(s);
      assert Sends(chunks) == [] && s.wire + [] == s.wire;
    } else {
      var e := Send(chunks[0].payload, chunks[0].retransmit, true);
      SentOne(s, chunks[0]);
      var next := Step(s, e).value;
      AllSent(next, chunks[1..]);
      SendsNext(chunks);
      Runs.FirstEvent(Step, s, e, Sends(chunks[1..]));
      assert (s.wire + [chunks[0]]) + chunks[1..] == s.wire + chunks;
    }
  }

  lemma SentOne(s: Session, chunk: WireChunk)
    requires Connected(s) && |s.log| < SEQUENCE_NUMBER_MAX
    ensures var r := Step(s, Send(chunk.payload, chunk.retransmit, true));
            && r.Some? && Connected(r.value) && r.value.phase == s.phase && |r.value.log| == |s.log| + 1
            && r.value.wire == s.wire + [chunk] && r.value.accepted == s.accepted
  {
    var e := Send(chunk.payload, chunk.retransmit, true);
    StepKeepsInv(s, e);
    hide Kept, Splits;
  }

  /** What is sent over a connection that lasts arrives, all of it and in order. */
  lemma ChunksArrive(chunks: seq<WireChunk>)
    requires |chunks| <= SEQUENCE_NUMBER_MAX
    ensures var end := Run([Connect(false), Establish] + (Sends(chunks) + Deliveries(|chunks|)));
            end.Some? && end.value.phase == Online && end.value.wire == [] && end.value.accepted == chunks
  {
    var shaken := Step(START, Connect(false)).value;
    var online := Step(shaken, Establish).value;
    var opening := [Connect(false), Establish];
    assert opening == [Connect(false)] + [Establish] && [Establish] + [] == [Establish];
    assert Run(opening) == Some(online) by {
      NoEvents(online);
      Runs.FirstEvent(Step, shaken, Establish, []);
      Runs.FirstEvent(Step, START, Connect(false), [Establish]);
    }
    ReachableInv(opening);
    KeptNone();
    assert Connected(online) && online.wire == [] && online.accepted == [] && online.log == [];
    hide Step, Runs.From, Inv;
    AllSent(online, chunks);
    var sent := Runs.From(Step, online, Sends(chunks)).value;
    assert [] + chunks == chunks;
    DeliverAll(sent);
    Runs.Append(Step, START, opening, Sends(chunks) + Deliveries(|chunks|));
    Runs.Append(Step, online, Sends(chunks), Deliveries(|chunks|));
  }

  /** Waiting offline for a connection to be resumed. */
  ghost predicate Waiting(s: Session) { Inv(s) && s.taskChosen && s.phase == Offline && s.previous.Some? }

  lemma QueuedOne(s: Session, payload: Bytes)
    requires Waiting(s) && |s.previousLog| < SEQUENCE_NUMBER_MAX
    ensures var r := Step(s, Send(payload, true, true));
            && r.Some? && Waiting(r.value) && |r.value.previousLog| == |s.previousLog| + 1
            && r.value.kept == s.kept + [payload]
  {
    StepKeepsInv(s, Send(payload, true, true));
    KeptOne(WireChunk(payload, true));
    hide Kept, Splits;
  }

  lemma {:induction false} AllQueued(s: Session, payloads: seq<Bytes>)
    requires Waiting(s) && |s.previousLog| + |payloads| <= SEQUENCE_NUMBER_MAX
    ensures var end := Runs.From(Step, s, Sends(Resent(payloads)));
            end.Some? && Waiting(end.value) && end.value.kept == s.kept + payloads
    decreases |payloads|
  {
    hide Waiting, Step, Runs.From;
    if payloads == [] {
      NoEvents(s);
      assert Sends(Resent(payloads)) == [] && s.kept + [] == s.kept;
    } else {
      QueuedOne(s, payloads[0]);
      var e := Send(payloads[0], true, true);
      var next := Step(s, e).value;
      AllQueued(next, payloads[1..]);
      SendsNext(Resent(payloads));
      assert Resent(payloads)[1..] == Resent(payloads[1..]);
      Runs.FirstEvent(Step, s, e, Sends(Resent(payloads[1..])));
      assert (s.kept + [payloads[0]]) + payloads[1..] == s.kept + payloads;
    }
  }

  /** Reconnecting and resuming delivers whatever waits. */
  lemma ReconnectDelivers(s: Session)
    requires Waiting(s)
    ensures exists n: nat ::
              var end := Runs.From(Step, s, [Connect(true), Resume] + Deliveries(n));
              end.Some? && end.value.phase == Online && end.value.wire == [] && Kept(end.value.accepted) == s.kept
  {
    hide Kept, ToCome, Inv, Waiting, Step, Runs.From;
    var resumed := Reconnected(s);
    var shaken := Step(s, Connect(true)).value;
    var n := |resumed.wire|;
    DeliverAll(resumed);
    Runs.FirstEvent(Step, shaken, Resume, Deliveries(n));
    Runs.FirstEvent(Step, s, Connect(true), [Resume] + Deliveries(n));
    assert [Connect(true)] + ([Resume] + Deliveries(n)) == [Connect(true), Resume] + Deliveries(n);
  }

  lemma Reconnected(s: Session) returns (resumed: Session)
    requires Waiting(s)
    ensures Step(s, Connect(true)).Some? && Step(Step(s, Connect(true)).value, Resume) == Some(resumed)
    ensures Inv(resumed) && resumed.phase == Online && resumed.kept == s.kept
  {
    hide Kept, ToCome, ResumeSession;
    ConnectKeepsInv(s, true);
    var shaken := Step(s, Connect(true)).value;
    hide Inv;
    assert s.previous.Some?;
    ToComeIsShort(shaken);
    ResumeKeepsInv(shaken);
    resumed := ResumeSession(shaken, shaken.previous.value);
  }

  lemma ToComeIsShort(s: Session)
    requires Inv(s) && !s.phase.Failed? && s.previous.Some?
    ensures |ToCome(s)| <= SEQUENCE_NUMBER_MAX
  {
    ToComeIs(s, s.previous.value);
    KeptIsShort(s.previousLog[s.peerPrevious..]);
  }

  lemma KeptIsShort(log: seq<WireChunk>)
    ensures |Kept(log)| <= |log|
  {
    NonNullIsShort(CachedLog(log), |log|);
  }

  /**
    * A connection that breaks at any moment of any run, whatever is queued while it is down, and another
    * one that resumes it: together they deliver all that was kept before and all that was queued.
    */
  lemma BreakQueueResume(events: seq<Event>, payloads: seq<Bytes>)
    requires Run(events).Some? && Run(events).value.phase == Online
    requires |Run(events).value.log| + |payloads| <= SEQUENCE_NUMBER_MAX
    ensures exists n: nat ::
              var end := Runs.From(Step, Run(events).value,
                                   [Disconnect] + Sends(Resent(payloads)) + ([Connect(true), Resume] + Deliveries(n)));
              && end.Some? && end.value.phase == Online && end.value.wire == []
              && Kept(end.value.accepted) == Run(events).value.kept + payloads
  {
    var s := Run(events).value;
    ReachableInv(events);
    ReachableChosen(events);
    DisconnectKeepsInv(s);
    var offline := Step(s, Disconnect).value;
    assert Waiting(offline) && offline.kept == s.kept && offline.previousLog == s.log;
    hide Kept, Inv, Waiting, Step, Runs.From;
    AllQueued(offline, payloads);
    var queued := Runs.From(Step, offline, Sends(Resent(payloads))).value;
    ReconnectDelivers(queued);
    var n: nat :| var end := Runs.From(Step, queued, [Connect(true), Resume] + Deliveries(n));
                  end.Some? && end.value.phase == Online && end.value.wire == []
                  && Kept(end.value.accepted) == queued.kept;
    var sends, rest := Sends(Resent(payloads)), [Connect(true), Resume] + Deliveries(n);
    Runs.FirstEvent(Step, s, Disconnect, sends);
    Runs.Append(Step, s, [Disconnect] + sends, rest);
  }
}
