/** The PushSession of src/services/push.ts: push, sleep, back off, until done or given up. */
module PushSessions {
  import opened Prelude
  import opened Futures
  import Runs

  datatype Tries = Limited(max: nat) | Unlimited

  datatype Config = Config(
    retryTimeoutInitMs: nat, retryTimeoutMaxMs: nat, triesMax: Tries, timeToLiveRange: seq<nat>)

  datatype ConfigError = EmptyTimeToLiveRange | TooFewTries

  /** The sanity checks of the constructor. */
  predicate Sane(config: Config) {
    config.timeToLiveRange != [] && (config.triesMax.Limited? ==> config.triesMax.max >= 1)
  }

  datatype Failure = PushError(status: nat) | TimeoutError | RunFailed

  datatype Response = Status(status: nat) | NetworkError

  /** What the push relay sees of a push that this model follows. */
  datatype Push = Push(timeToLive: nat, collapseKey: bool)

  /** Where the runner is suspended. */
  datatype Phase = NotStarted | Hashing | Fetching | Sleeping | Ended

  /** `pushes` and `slept` record what was sent and how long the runner slept in all. */
  datatype Session = Session(
    config: Config, phase: Phase, tries: nat, retryTimeoutMs: nat, collapseKey: bool,
    outcome: Option<Outcome<Failure>>, pushes: seq<Push>, slept: nat)

  datatype Event =
    | StartCalled
    | DoneCalled
    | Prepared(ok: bool)
    | FetchEnds(response: Response)
    | SleepEnds

  function New(config: Config): Session {
    Session(config, NotStarted, 0, config.retryTimeoutInitMs, false, None, [], 0)
  }

  // ---- Steps ----------------------------------------------------------------------------------

  function Settle(s: Session, how: Outcome<Failure>): Session {
    if s.outcome.Some? then s else s.(outcome := Some(how))
  }

  function TimeToLive(config: Config, i: nat): nat
    requires Sane(config)
  {
    config.timeToLiveRange[if i < |config.timeToLiveRange| then i else |config.timeToLiveRange| - 1]
  }

  /** The head of the loop: end, or send the next push. */
  function LoopHead(s: Session): Session
    requires Sane(s.config)
  {
    if s.outcome.Some? then s.(phase := Ended)
    else
      var ttl := TimeToLive(s.config, s.tries);
      s.(phase := Fetching, tries := s.tries + 1, collapseKey := ttl != 0,
         pushes := s.pushes + [Push(ttl, ttl != 0)])
  }

  function AfterFetch(s: Session, response: Response): Session {
    var s' := s.(phase := Sleeping);
    if response.Status? && 400 <= response.status < 500 then Settle(s', Rejected(PushError(response.status)))
    else s'
  }

  function AfterSleep(s: Session): Session
    requires Sane(s.config)
  {
    var s' := s.(slept := s.slept + s.retryTimeoutMs,
                 retryTimeoutMs := Min(s.retryTimeoutMs * 2, s.config.retryTimeoutMaxMs));
    LoopHead(if s.outcome.None? && s.config.triesMax == Limited(s.tries) then Settle(s', Rejected(TimeoutError))
             else s')
  }

  function Step(s: Session, e: Event): Option<Session> {
    if !Sane(s.config) then None
    else match e
      case StartCalled => Some(if s.phase == NotStarted then s.(phase := Hashing) else s)
      case DoneCalled => Some(Settle(s, Resolved))
      case Prepared(ok) =>
        if s.phase != Hashing then None
        else Some(if ok then LoopHead(s) else Settle(s.(phase := Ended), Rejected(RunFailed)))
      case FetchEnds(response) => if s.phase != Fetching then None else Some(AfterFetch(s, response))
      case SleepEnds => if s.phase != Sleeping then None else Some(AfterSleep(s))
  }

  // ---- Timeouts -------------------------------------------------------------------------------

  /** How long the runner sleeps after push `i`. */
  function TimeoutAfter(config: Config, i: nat): nat {
    if i == 0 then config.retryTimeoutInitMs
    else Min(TimeoutAfter(config, i - 1) * 2, config.retryTimeoutMaxMs)
  }

  function TotalTimeout(config: Config, n: nat): nat {
    if n == 0 then 0 else TotalTimeout(config, n - 1) + TimeoutAfter(config, n - 1)
  }

  /** `expectedPeriodMaxMs`; `None` stands for infinity. */
  method ExpectedPeriodMaxMs(config: Config) returns (r: Option<nat>)
    ensures r == match config.triesMax case Unlimited => None case Limited(max) => Some(TotalTimeout(config, max))
  {
    if config.triesMax.Unlimited? {
      return None;
    }
    var retryTimeoutMs := config.retryTimeoutInitMs;
    var sumMs := 0;
    for i := 0 to config.triesMax.max
      invariant retryTimeoutMs == TimeoutAfter(config, i)
      invariant sumMs == TotalTimeout(config, i)
    {
      sumMs := sumMs + retryTimeoutMs;
      retryTimeoutMs := Min(retryTimeoutMs * 2, config.retryTimeoutMaxMs);
    }
    return Some(sumMs);
  }

  /** Capped exponential backoff: only the very first timeout is not capped. */
  lemma {:induction false} TimeoutIsCappedPower(config: Config, i: nat)
    ensures i > 0 ==> TimeoutAfter(config, i) == Min(config.retryTimeoutInitMs * Pow2(i), config.retryTimeoutMaxMs)
    ensures TimeoutAfter(config, i) == Min(config.retryTimeoutInitMs * Pow2(i), config.retryTimeoutMaxMs)
            <==> i > 0 || config.retryTimeoutInitMs <= config.retryTimeoutMaxMs
  {
    if i > 0 {
      TimeoutIsCappedPower(config, i - 1);
      TimesTwice(config.retryTimeoutInitMs, Pow2(i - 1));
    }
  }

  lemma TimesTwice(a: nat, b: int)
    ensures a * (2 * b) == 2 * (a * b) && a * 1 == a
  {
  }

  // ---- The invariant --------------------------------------------------------------------------

  /** How often the runner has slept. */
  function Sleeps(s: Session): int {
    if s.phase == Fetching || s.phase == Sleeping then s.tries - 1 else s.tries
  }

  ghost predicate Inv(s: Session) {
    && Sane(s.config)
    && |s.pushes| == s.tries
    && (forall i :: 0 <= i < s.tries ==>
          s.pushes[i] == Push(TimeToLive(s.config, i), TimeToLive(s.config, i) != 0))
    && (s.tries > 0 ==> s.collapseKey == s.pushes[s.tries - 1].collapseKey)
    && Sleeps(s) >= 0
    && s.retryTimeoutMs == TimeoutAfter(s.config, Sleeps(s)) && s.slept == TotalTimeout(s.config, Sleeps(s))
    && (s.phase == NotStarted || s.phase == Hashing ==> s.tries == 0)
    && (s.config.triesMax.Limited? ==> s.tries <= s.config.triesMax.max)
    && (s.phase == Ended ==> s.outcome.Some?)
    && (s.outcome == Some(Rejected(TimeoutError)) ==> s.phase == Ended && s.config.triesMax == Limited(s.tries))
  }

  /** Entering the loop again, after `Sleeps(s)` rounds. */
  lemma LoopHeadKeepsInv(s: Session)
    requires Sane(s.config) && |s.pushes| == s.tries
    requires forall i :: 0 <= i < s.tries ==>
               s.pushes[i] == Push(TimeToLive(s.config, i), TimeToLive(s.config, i) != 0)
    requires s.tries > 0 ==> s.collapseKey == s.pushes[s.tries - 1].collapseKey
    requires s.retryTimeoutMs == TimeoutAfter(s.config, s.tries) && s.slept == TotalTimeout(s.config, s.tries)
    requires s.config.triesMax.Limited? ==> s.tries <= s.config.triesMax.max
    requires if s.outcome.None? then s.config.triesMax != Limited(s.tries)
             else s.outcome == Some(Rejected(TimeoutError)) ==> s.config.triesMax == Limited(s.tries)
    ensures Inv(LoopHead(s)) && LoopHead(s).config == s.config
  {
    hide TimeoutAfter, TotalTimeout;
  }

  lemma NextTimeout(config: Config, i: nat)
    ensures TimeoutAfter(config, i + 1) == Min(TimeoutAfter(config, i) * 2, config.retryTimeoutMaxMs)
    ensures TotalTimeout(config, i + 1) == TotalTimeout(config, i) + TimeoutAfter(config, i)
  {
  }

  lemma AfterSleepKeepsInv(s: Session)
    requires Inv(s) && s.phase == Sleeping
    ensures Inv(AfterSleep(s)) && AfterSleep(s).config == s.config
  {
    var slept := s.(slept := s.slept + s.retryTimeoutMs,
                    retryTimeoutMs := Min(s.retryTimeoutMs * 2, s.config.retryTimeoutMaxMs));
    hide TimeoutAfter, TotalTimeout, LoopHead, TimeToLive;
    NextTimeout(s.config, s.tries - 1);
    if s.outcome.None? && s.config.triesMax == Limited(s.tries) {
      LoopHeadKeepsInv(Settle(slept, Rejected(TimeoutError)));
    } else {
      LoopHeadKeepsInv(slept);
    }
  }

  lemma StepKeepsInv(s: Session, e: Event)
    requires Inv(s) && Step(s, e).Some?
    ensures Inv(Step(s, e).value) && Step(s, e).value.config == s.config
  {
    hide TimeoutAfter, TotalTimeout, LoopHead, AfterSleep, TimeToLive;
    match e {
      case Prepared(ok) =>
        if ok {
          LoopHeadKeepsInv(s);
        }
      case SleepEnds => AfterSleepKeepsInv(s);
      case _ =>
    }
  }

  lemma NewInv(config: Config)
    requires Sane(config)
    ensures Inv(New(config))
  {
  }

  lemma ReachableInv(config: Config, events: seq<Event>)
    requires Sane(config) && Runs.From(Step, New(config), events).Some?
    ensures Inv(Runs.From(Step, New(config), events).value)
    ensures Runs.From(Step, New(config), events).value.config == config
  {
    hide Inv, Step;
    NewInv(config);
    var inv := (s: Session) => Inv(s) && s.config == config;
    forall s, e | inv(s) && Step(s, e).Some? ensures inv(Step(s, e).value) {
      StepKeepsInv(s, e);
    }
    Runs.Keeps(Step, inv, New(config), events);
  }

  // ---- Results --------------------------------------------------------------------------------

  /** Over every run: how many pushes there are, with which TTLs, and when they carry a collapse key. */
  lemma PushesFollowSchedule(config: Config, events: seq<Event>)
    requires Sane(config) && Runs.From(Step, New(config), events).Some?
    ensures var s := Runs.From(Step, New(config), events).value;
            && (config.triesMax.Limited? ==> |s.pushes| <= config.triesMax.max)
            && forall i :: 0 <= i < |s.pushes| ==>
                 && s.pushes[i].timeToLive == config.timeToLiveRange[Min(i, |config.timeToLiveRange| - 1)]
                 && (s.pushes[i].collapseKey <==> s.pushes[i].timeToLive != 0)
  {
    ReachableInv(config, events);
  }

  /** A session that times out slept exactly as long as `expectedPeriodMaxMs` predicts. */
  lemma TimeoutTakesExpectedPeriod(config: Config, events: seq<Event>)
    requires Sane(config) && Runs.From(Step, New(config), events).Some?
    requires Runs.From(Step, New(config), events).value.outcome == Some(Rejected(TimeoutError))
    ensures config.triesMax.Limited?
    ensures Runs.From(Step, New(config), events).value.slept == TotalTimeout(config, config.triesMax.max)
    ensures |Runs.From(Step, New(config), events).value.pushes| == config.triesMax.max
  {
    ReachableInv(config, events);
  }

  /** The first settlement counts; after it neither the outcome nor the pushes change. */
  lemma {:induction false} SettledOnce(s: Session, events: seq<Event>)
    requires Inv(s) && s.outcome.Some? && Runs.From(Step, s, events).Some?
    ensures Runs.From(Step, s, events).value.outcome == s.outcome
    ensures Runs.From(Step, s, events).value.pushes == s.pushes
    decreases |events|
  {
    if events != [] {
      StepKeepsInv(s, events[0]);
      SettledOnce(Step(s, events[0]).value, events[1..]);
    }
  }

  /**
    * The outcome the first of these events with an effect on it demands: being done, an unusable push
    * token, a client error, or the end of the sleep after the last try. `sleeps` were slept before.
    */
  function Settlement(config: Config, events: seq<Event>, sleeps: nat): Option<Outcome<Failure>>
    decreases |events|
  {
    if events == [] then None
    else
      match events[0]
      case DoneCalled => Some(Resolved)
      case Prepared(false) => Some(Rejected(RunFailed))
      case FetchEnds(Status(status)) =>
        if 400 <= status < 500 then Some(Rejected(PushError(status))) else Settlement(config, events[1..], sleeps)
      case SleepEnds =>
        if config.triesMax == Limited(sleeps + 1) then Some(Rejected(TimeoutError))
        else Settlement(config, events[1..], sleeps + 1)
      case _ => Settlement(config, events[1..], sleeps)
  }

  lemma SettlementNext(s: Session, events: seq<Event>)
    requires Inv(s) && s.outcome.None? && events != [] && Step(s, events[0]).Some?
    ensures var next := Step(s, events[0]).value;
            && next.config == s.config && Sleeps(next) >= 0
            && Settlement(s.config, events, Sleeps(s)) ==
               if next.outcome.Some? then next.outcome else Settlement(s.config, events[1..], Sleeps(next))
  {
    hide TimeoutAfter, TotalTimeout, TimeToLive;
  }

  lemma {:induction false} SettlementFrom(s: Session, events: seq<Event>)
    requires Inv(s) && s.outcome.None? && Sleeps(s) >= 0 && Runs.From(Step, s, events).Some?
    ensures Runs.From(Step, s, events).value.outcome == Settlement(s.config, events, Sleeps(s))
    decreases |events|
  {
    hide Inv, Step, Sleeps;
    if events != [] {
      var next := Step(s, events[0]).value;
      StepKeepsInv(s, events[0]);
      SettlementNext(s, events);
      hide Settlement;
      if next.outcome.Some? {
        SettledOnce(next, events[1..]);
      } else {
        SettlementFrom(next, events[1..]);
      }
    }
  }

  /** Over every run: the outcome is the one of its first settling event, and none without any. */
  lemma FirstSettlementCounts(config: Config, events: seq<Event>)
    requires Sane(config) && Runs.From(Step, New(config), events).Some?
    ensures Runs.From(Step, New(config), events).value.outcome == Settlement(config, events, 0)
  {
    SettlementFrom(New(config), events);
  }

  // ---- Whole runs -----------------------------------------------------------------------------

  /** Only client errors are final: success, server errors and a lost network all lead to another try. */
  predicate IsRetried(response: Response) { !(response.Status? && 400 <= response.status < 500) }

  function Rounds(responses: seq<Response>): seq<Event> {
    if responses == [] then [] else [FetchEnds(responses[0]), SleepEnds] + Rounds(responses[1..])
  }

  /** A started session whose request data can be made sends its first push, with the first TTL. */
  lemma StartingPushes(config: Config)
    requires Sane(config)
    ensures var r := Runs.From(Step, New(config), [StartCalled, Prepared(true)]);
            && r.Some? && Inv(r.value) && r.value.phase == Fetching && r.value.outcome.None? && r.value.tries == 1
            && r.value.config == config
            && r.value.pushes == [Push(config.timeToLiveRange[0], config.timeToLiveRange[0] != 0)]
  {
    var started := Step(New(config), StartCalled).value;
    var pushed := Step(started, Prepared(true)).value;
    assert [StartCalled, Prepared(true)] == [StartCalled] + ([Prepared(true)] + []);
    NoEvents(pushed);
    Runs.FirstEvent(Step, started, Prepared(true), []);
    Runs.FirstEvent(Step, New(config), StartCalled, [Prepared(true)] + []);
    StepKeepsInv(New(config), StartCalled);
    StepKeepsInv(started, Prepared(true));
  }

  lemma NoEvents(s: Session)
    ensures Runs.From(Step, s, []) == Some(s)
  {
  }

  /** One response and the sleep after it: the next push, or the timeout after the last one. */
  lemma OneRound(s: Session, response: Response)
    requires Inv(s) && s.phase == Fetching && s.outcome.None? && IsRetried(response)
    ensures var r := Runs.From(Step, s, [FetchEnds(response), SleepEnds]);
            && r.Some? && Inv(r.value) && r.value.config == s.config
            && if s.config.triesMax == Limited(s.tries) then
                 r.value.phase == Ended && r.value.outcome == Some(Rejected(TimeoutError)) && r.value.tries == s.tries
               else r.value.phase == Fetching && r.value.outcome.None? && r.value.tries == s.tries + 1
  {
    hide TimeoutAfter, TotalTimeout, TimeToLive;
    var fetched := Step(s, FetchEnds(response)).value;
    StepKeepsInv(s, FetchEnds(response));
    var slept := Step(fetched, SleepEnds).value;
    StepKeepsInv(fetched, SleepEnds);
    assert [FetchEnds(response), SleepEnds] == [FetchEnds(response)] + ([SleepEnds] + []);
    NoEvents(slept);
    Runs.FirstEvent(Step, fetched, SleepEnds, []);
    Runs.FirstEvent(Step, s, FetchEnds(response), [SleepEnds] + []);
  }

  lemma {:induction false} RoundsFrom(s: Session, responses: seq<Response>)
    requires Inv(s) && s.phase == Fetching && s.outcome.None?
    requires forall i :: 0 <= i < |responses| ==> IsRetried(responses[i])
    requires s.config.triesMax.Limited? ==> s.tries + |responses| <= s.config.triesMax.max + 1
    ensures var r := Runs.From(Step, s, Rounds(responses));
            && r.Some? && Inv(r.value) && r.value.config == s.config
            && if s.config.triesMax.Limited? && s.tries + |responses| > s.config.triesMax.max then
                 r.value.outcome == Some(Rejected(TimeoutError)) && r.value.tries == s.config.triesMax.max
               else r.value.phase == Fetching && r.value.outcome.None? && r.value.tries == s.tries + |responses|
    decreases |responses|
  {
    hide Inv, Step, Runs.From, IsRetried;
    if responses == [] {
      NoEvents(s);
      TriesAreLimited(s);
    } else {
      OneRound(s, responses[0]);
      var next := Runs.From(Step, s, [FetchEnds(responses[0]), SleepEnds]).value;
      Runs.Append(Step, s, [FetchEnds(responses[0]), SleepEnds], Rounds(responses[1..]));
      if next.phase == Fetching {
        RoundsFrom(next, responses[1..]);
      } else {
        TriesAreLimited(s);
        assert responses[1..] == [];
        NoEvents(next);
      }
    }
  }

  lemma TriesAreLimited(s: Session)
    requires Inv(s)
    ensures s.config.triesMax.Limited? ==> s.tries <= s.config.triesMax.max
    ensures s.phase == Fetching ==> s.tries > 0
  {
  }

  /**
    * As long as no client error comes and nobody calls `done`, every response is followed by another
    * push until the tries are used up, and the last one by the timeout.
    */
  lemma PushesUntilTimeout(config: Config, responses: seq<Response>)
    requires Sane(config) && forall i :: 0 <= i < |responses| ==> IsRetried(responses[i])
    requires config.triesMax.Limited? ==> |responses| <= config.triesMax.max
    ensures var r := Runs.From(Step, New(config), [StartCalled, Prepared(true)] + Rounds(responses));
            && r.Some?
            && if config.triesMax == Limited(|responses|) then
                 |r.value.pushes| == |responses| && r.value.outcome == Some(Rejected(TimeoutError))
               else |r.value.pushes| == |responses| + 1 && r.value.outcome.None? && r.value.phase == Fetching
  {
    hide Step, Runs.From, IsRetried;
    StartingPushes(config);
    var pushed := Runs.From(Step, New(config), [StartCalled, Prepared(true)]).value;
    Runs.Append(Step, New(config), [StartCalled, Prepared(true)], Rounds(responses));
    RoundsFrom(pushed, responses);
  }

  /** Once settled, the runner ends where it would have pushed next. */
  lemma SettledRunnerEnds(s: Session)
    requires Inv(s) && s.outcome.Some?
    ensures s.phase == Sleeping ==>
              Step(s, SleepEnds).Some? && Step(s, SleepEnds).value.phase == Ended
              && Step(s, SleepEnds).value.pushes == s.pushes
    ensures s.phase == Hashing ==>
              Step(s, Prepared(true)).Some? && Step(s, Prepared(true)).value.phase == Ended
              && Step(s, Prepared(true)).value.pushes == s.pushes
  {
  }

  /** How many more times the runner can be resumed. */
  function Remaining(s: Session): nat
    requires s.config.triesMax.Limited? && s.tries <= s.config.triesMax.max
  {
    2 * (s.config.triesMax.max - s.tries) +
    match s.phase case NotStarted => 1 case Hashing => 1 case Fetching => 2 case Sleeping => 1 case Ended => 0
  }

  predicate Resumes(e: Event) { e.Prepared? || e.FetchEnds? || e.SleepEnds? }

  function Resumptions(events: seq<Event>): nat {
    if events == [] then 0 else (if Resumes(events[0]) then 1 else 0) + Resumptions(events[1..])
  }

  lemma ResumptionsAdd(events: seq<Event>, e: Event)
    ensures Resumptions([e] + events) ==
            Resumptions(events) + if e == StartCalled || e == DoneCalled then 0 else 1
  {
    assert ([e] + events)[1..] == events;
  }

  /** In every run: for the first push, and for the response to and the sleep after each of the tries. */
  lemma RunnerIsResumedSoOften(config: Config, events: seq<Event>)
    requires Sane(config) && config.triesMax.Limited? && Runs.From(Step, New(config), events).Some?
    ensures Resumptions(events) <= 2 * config.triesMax.max + 1
  {
    RunnerTerminates(New(config), events);
  }

  /** With a limit on the tries the runner is resumed only so often: it always comes to an end. */
  lemma {:induction false} RunnerTerminates(s: Session, events: seq<Event>)
    requires Inv(s) && s.config.triesMax.Limited? && Runs.From(Step, s, events).Some?
    ensures var end := Runs.From(Step, s, events).value;
            && end.config == s.config && end.tries <= s.config.triesMax.max
            && Resumptions(events) + Remaining(end) <= Remaining(s)
    decreases |events|
  {
    hide TimeoutAfter, TotalTimeout, TimeToLive;
    if events != [] {
      StepKeepsInv(s, events[0]);
      RunnerTerminates(Step(s, events[0]).value, events[1..]);
    }
  }

  // ---- The class ------------------------------------------------------------------------------

  class PushSession {
    const config: Config
    const doneFuture: Future<Failure>
    var running: bool
    var retryTimeoutMs: nat
    var tries: nat
    /** The request data the runner changes between pushes. */
    var collapseKey: bool
    ghost var phase: Phase
    ghost var pushes: seq<Push>
    ghost var slept: nat

    ghost predicate Valid()
      reads this, doneFuture
    {
      Sane(config) && doneFuture.Valid() && (running <==> phase != NotStarted)
    }

    ghost function AsValue(): Session
      reads this, doneFuture
    {
      Session(config, phase, tries, retryTimeoutMs, collapseKey, doneFuture.outcome, pushes, slept)
    }

    /** What remains of construction after the sanity checks of `Create`. */
    constructor (config: Config)
      requires Sane(config)
      ensures Valid() && AsValue() == New(config) && fresh(doneFuture)
    {
      this.config := config;
      doneFuture := new Future();
      running := false;
      retryTimeoutMs := config.retryTimeoutInitMs;
      tries := 0;
      collapseKey := false;
      phase, pushes, slept := NotStarted, [], 0;
      new;
      assert doneFuture.outcome.None?;
    }

    /** Construction; the sanity checks throw. */
    static method Create(config: Config) returns (r: Result<PushSession, ConfigError>)
      ensures r == Err(EmptyTimeToLiveRange) <==> config.timeToLiveRange == []
      ensures r == Err(TooFewTries) <==> config.timeToLiveRange != [] && config.triesMax == Limited(0)
      ensures r.Ok? ==> fresh(r.value) && r.value.Valid() && r.value.AsValue() == New(config)
    {
      if |config.timeToLiveRange| == 0 {
        return Err(EmptyTimeToLiveRange);
      }
      if config.triesMax.Limited? && config.triesMax.max < 1 {
        return Err(TooFewTries);
      }
      var session := new PushSession(config);
      return Ok(session);
    }

    method Start()
      requires Valid()
      modifies this
      ensures Valid() && Some(AsValue()) == Step(old(AsValue()), StartCalled)
      ensures running && phase == if old(running) then old(phase) else Hashing
    {
      if !running {
        phase := Hashing;
        running := true;
      }
    }

    method Done()
      requires Valid()
      modifies doneFuture
      ensures Valid() && Some(AsValue()) == Step(old(AsValue()), DoneCalled)
    {
      doneFuture.Resolve();
    }

    /** `run` from the session hash to the first push; `ok` is false when the push token is unusable. */
    method BeginRun(ok: bool)
      requires Valid() && phase == Hashing
      modifies this, doneFuture
      ensures Valid() && Some(AsValue()) == Step(old(AsValue()), Prepared(ok))
    {
      if ok {
        Loop();
      } else {
        phase := Ended;
        doneFuture.Reject(RunFailed);
      }
    }

    /** From the loop's condition to the `fetch` in its body. */
    method Loop()
      requires Valid() && running
      modifies this
      ensures Valid() && AsValue() == LoopHead(old(AsValue()))
    {
      if doneFuture.done {
        phase := Ended;
        return;
      }
      var ttl := if tries < |config.timeToLiveRange| then config.timeToLiveRange[tries]
                 else config.timeToLiveRange[|config.timeToLiveRange| - 1];
      if ttl == 0 {
        collapseKey := false;
      } else {
        collapseKey := true;
      }
      tries := tries + 1;
      pushes := pushes + [Push(ttl, collapseKey)];
      phase := Fetching;
    }

    method AfterFetch(response: Response)
      requires Valid() && phase == Fetching
      modifies this, doneFuture
      ensures Valid() && Some(AsValue()) == Step(old(AsValue()), FetchEnds(response))
    {
      if response.Status? && 200 <= response.status < 300 {
        // Sent: retry
      } else if response.Status? && response.status >= 400 && response.status < 500 {
        doneFuture.Reject(PushError(response.status));
      }
      phase := Sleeping;
    }

    method AfterSleep()
      requires Valid() && phase == Sleeping
      modifies this, doneFuture
      ensures Valid() && Some(AsValue()) == Step(old(AsValue()), SleepEnds)
    {
      slept := slept + retryTimeoutMs;
      retryTimeoutMs := Min(retryTimeoutMs * 2, config.retryTimeoutMaxMs);
      if !doneFuture.done && config.triesMax == Limited(tries) {
        doneFuture.Reject(TimeoutError);
      }
      Loop();
    }
  }
}
