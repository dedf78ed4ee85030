/**
  * UnboundedFlowControlledDataChannel of src/helpers/data_channel.ts: an unbounded FIFO made of a chain
  * of promises. Every `write` adds a link that runs once the link before it is fulfilled, awaits the
  * future that is then `ready`, and hands its message to the flow-controlled channel.
  */
module UnboundedChannels {
  import opened Prelude
  import opened DataChannels
  import Runs

  /**
    * `queue`: messages of the links that are not settled, in chain order. `awaited`: the future the
    * first of them awaits, once it runs. `broken`: a link was rejected, so no later one will run.
    * `lowEvents`: `bufferedamountlow` events fired but not yet handled.
    * `written` and `pausedErrors` record the calls to `write` and the "channel is paused" errors.
    */
  datatype Channel = Channel(
    flow: Flow, queue: seq<Bytes>, awaited: Option<nat>, broken: bool, lowEvents: nat,
    written: seq<Bytes>, pausedErrors: nat)

  datatype Event =
    | Write(message: Bytes)
    | RunLink
    | Proceed(accepted: bool)
    | Drain(bytes: nat)
    | HandleLow

  function Open(low: nat, high: nat): Channel {
    Channel(Flow(low, high, 0, [true], 0, []), [], None, false, 0, [], 0)
  }

  function Step(c: Channel, e: Event): Option<Channel> {
    if !Sound(c) then None
    else match e
      case Write(message) =>
        Some(c.(queue := c.queue + (if c.broken then [] else [message]), written := c.written + [message]))
      case RunLink =>
        if c.broken || c.queue == [] || c.awaited.Some? then None
        else Some(c.(awaited := Some(c.flow.ready)))
      case Proceed(accepted) =>
        if c.awaited.None? || !c.flow.futures[c.awaited.value] then None
        else
          var settled := c.(awaited := None, queue := c.queue[1..]);
          Some(match Written(c.flow, c.queue[0], accepted)
            case Ok(flow) => settled.(flow := flow)
            case Err(Paused) => settled.(broken := true, pausedErrors := c.pausedErrors + 1)
            case Err(SendFailed) => settled.(broken := true))
      case Drain(bytes) =>
        if bytes > c.flow.buffered then None
        else
          var left := c.flow.buffered - bytes;
          var crossed := c.flow.low < c.flow.buffered && left <= c.flow.low;
          Some(c.(flow := c.flow.(buffered := left), lowEvents := c.lowEvents + if crossed then 1 else 0))
      case HandleLow =>
        if c.lowEvents == 0 then None
        else Some(c.(flow := if IsPaused(c.flow) then Unpaused(c.flow) else c.flow, lowEvents := c.lowEvents - 1))
  }

  /** What the promises of the chain refer to exists; every reachable state is like that. */
  predicate Sound(c: Channel) {
    && c.flow.ready + 1 == |c.flow.futures|
    && (forall i :: 0 <= i < c.flow.ready ==> c.flow.futures[i])
    && (c.awaited.Some? ==> c.awaited.value <= c.flow.ready && c.queue != [])
  }

  function Run(low: nat, high: nat, events: seq<Event>): Option<Channel> {
    Runs.From(Step, Open(low, high), events)
  }

  // ---- Order, and no write while paused -------------------------------------------------------

  /** Holds of every channel, whatever its marks. */
  ghost predicate OrderInv(c: Channel) {
    && Sound(c)
    && c.pausedErrors == 0
    // No step replaces `ready` between a link's await and its send
    && (c.awaited.Some? ==> c.awaited.value == c.flow.ready && !c.broken)
    && (if c.broken then c.flow.sent < c.written else c.flow.sent + c.queue == c.written)
  }

  lemma ProceedKeepsOrder(c: Channel, accepted: bool)
    requires OrderInv(c) && Step(c, Proceed(accepted)).Some?
    ensures OrderInv(Step(c, Proceed(accepted)).value)
  {
    var c' := Step(c, Proceed(accepted)).value;
    if c'.broken {
      assert c.written[|c.flow.sent|] == c.queue[0];
    } else {
      assert c.flow.sent + c.queue == (c.flow.sent + [c.queue[0]]) + c.queue[1..];
    }
  }

  lemma StepKeepsOrder(c: Channel, e: Event)
    requires OrderInv(c) && Step(c, e).Some?
    ensures OrderInv(Step(c, e).value)
  {
    match e {
      case Write(message) => assert c.flow.sent + (c.queue + [message]) == (c.flow.sent + c.queue) + [message];
      case Proceed(accepted) => ProceedKeepsOrder(c, accepted);
      case _ =>
    }
  }

  lemma ReachableOrder(low: nat, high: nat, events: seq<Event>)
    requires Run(low, high, events).Some?
    ensures OrderInv(Run(low, high, events).value)
  {
    forall c, e | OrderInv(c) && Step(c, e).Some? ensures OrderInv(Step(c, e).value) {
      StepKeepsOrder(c, e);
    }
    Runs.Keeps(Step, OrderInv, Open(low, high), events);
  }

  /**
    * Over every run, whatever the marks and however late low-water events are handled: messages are
    * sent in the order they were written, none is skipped, and none fails because the channel is paused.
    */
  lemma SentInOrder(low: nat, high: nat, events: seq<Event>)
    requires Run(low, high, events).Some?
    ensures var c := Run(low, high, events).value;
            && c.pausedErrors == 0
            && c.flow.sent <= c.written
            && (!c.broken ==> c.flow.sent + c.queue == c.written)
  {
    ReachableOrder(low, high, events);
  }

  /** After a failed send nothing is sent any more. */
  lemma {:induction false} NothingAfterFailure(c: Channel, events: seq<Event>)
    requires OrderInv(c) && c.broken && Runs.From(Step, c, events).Some?
    ensures Runs.From(Step, c, events).value.flow.sent == c.flow.sent
    decreases |events|
  {
    if events != [] {
      StepKeepsOrder(c, events[0]);
      NothingAfterFailure(Step(c, events[0]).value, events[1..]);
    }
  }

  /**
    * A link that met a paused channel would be counted, and would stop the chain, as the failed sends do;
    * that it never happens is `SentInOrder`.
    */
  lemma PausedLinksCount(c: Channel, accepted: bool)
    requires Sound(c) && c.awaited.Some? && c.flow.futures[c.awaited.value] && IsPaused(c.flow)
    ensures Step(c, Proceed(accepted)).Some?
    ensures Step(c, Proceed(accepted)).value.pausedErrors == c.pausedErrors + 1
    ensures Step(c, Proceed(accepted)).value.broken && Step(c, Proceed(accepted)).value.flow == c.flow
  {
    WritingIsAllOrNothing(c.flow, c.queue[0], accepted);
  }

  /** A failed send stops everything: what was sent before it is all that is ever sent. */
  lemma FailedSendIsFinal(low: nat, high: nat, before: seq<Event>, after: seq<Event>)
    requires Run(low, high, before + ([Proceed(false)] + after)).Some?
    ensures Run(low, high, before).Some?
    ensures var end := Run(low, high, before + ([Proceed(false)] + after)).value;
            end.broken && end.flow.sent == Run(low, high, before).value.flow.sent
  {
    hide Runs.From;
    Runs.HasPrefix(Step, Open(low, high), before, [Proceed(false)] + after);
    Runs.Append(Step, Open(low, high), before, [Proceed(false)] + after);
    var c := Run(low, high, before).value;
    ReachableOrder(low, high, before);
    SecondIsPossible(c, Proceed(false), after);
    Runs.FirstEvent(Step, c, Proceed(false), after);
    var failed := Step(c, Proceed(false)).value;
    StepKeepsOrder(c, Proceed(false));
    assert failed.broken && failed.flow.sent == c.flow.sent;
    NothingAfterFailure(failed, after);
    StaysBroken(failed, after);
  }

  lemma SecondIsPossible(c: Channel, e: Event, rest: seq<Event>)
    requires Runs.From(Step, c, [e] + rest).Some?
    ensures Step(c, e).Some?
  {
    assert ([e] + rest)[0] == e;
  }

  lemma {:induction false} StaysBroken(c: Channel, events: seq<Event>)
    requires c.broken && Runs.From(Step, c, events).Some?
    ensures Runs.From(Step, c, events).value.broken
    decreases |events|
  {
    if events != [] {
      StaysBroken(Step(c, events[0]).value, events[1..]);
    }
  }

  // ---- No lost wake-up ------------------------------------------------------------------------

  /** A paused channel still has its low-water crossing to come. */
  ghost predicate WakeUpInv(c: Channel)
    requires Sound(c)
  {
    && c.flow.low < c.flow.high
    && (IsPaused(c.flow) ==> c.flow.low < c.flow.buffered || c.lowEvents > 0)
  }

  ghost predicate Inv(c: Channel) { OrderInv(c) && WakeUpInv(c) }

  lemma StepKeepsInv(c: Channel, e: Event)
    requires Inv(c) && Step(c, e).Some?
    ensures Inv(Step(c, e).value)
  {
    StepKeepsOrder(c, e);
  }

  lemma ReachableInv(low: nat, high: nat, events: seq<Event>)
    requires low < high && Run(low, high, events).Some?
    ensures Inv(Run(low, high, events).value)
  {
    forall c, e | Inv(c) && Step(c, e).Some? ensures Inv(Step(c, e).value) {
      StepKeepsInv(c, e);
    }
    Runs.Keeps(Step, Inv, Open(low, high), events);
  }

  /** What the environment has to do next for the first queued message to get sent. */
  function NextMove(c: Channel): Event
    requires Sound(c)
  {
    if c.awaited.None? then RunLink
    else if c.flow.futures[c.awaited.value] then Proceed(true)
    else if c.lowEvents > 0 then HandleLow
    else Drain(c.flow.buffered)
  }

  function Distance(c: Channel): nat
    requires Sound(c)
  {
    4 * |c.queue| -
    if c.queue == [] || c.awaited.None? then 0
    else if c.flow.futures[c.awaited.value] then 3
    else if c.lowEvents > 0 then 2
    else 1
  }

  lemma MoveIsProgress(c: Channel)
    requires Inv(c) && !c.broken && c.queue != []
    ensures Step(c, NextMove(c)).Some?
    ensures var c' := Step(c, NextMove(c)).value;
            Inv(c') && !c'.broken && c'.written == c.written && Distance(c') < Distance(c)
  {
    StepKeepsInv(c, NextMove(c));
  }

  function Moves(c: Channel, fuel: nat): (events: seq<Event>)
    decreases fuel
  {
    if fuel == 0 || !Sound(c) || c.queue == [] || Step(c, NextMove(c)).None? then []
    else [NextMove(c)] + Moves(Step(c, NextMove(c)).value, fuel - 1)
  }

  /**
    * With the low mark below the high one no wake-up is lost: while no send failed, draining the buffer and handling
    * the low-water events lets every message written so far be sent.
    */
  lemma {:induction false} EverythingGetsSent(c: Channel, fuel: nat)
    requires Inv(c) && !c.broken && Distance(c) <= fuel
    ensures var end := Runs.From(Step, c, Moves(c, fuel));
            end.Some? && !end.value.broken && end.value.queue == [] && end.value.flow.sent == c.written
    decreases fuel
  {
    if c.queue == [] {
      assert c.flow.sent + [] == c.flow.sent;
    } else {
      MoveIsProgress(c);
      var next := Step(c, NextMove(c)).value;
      EverythingGetsSent(next, fuel - 1);
      Runs.FirstEvent(Step, c, NextMove(c), Moves(next, fuel - 1));
    }
  }

  /** Some continuation sends everything written so far. */
  ghost predicate CanFinish(c: Channel) {
    exists more: seq<Event> :: Runs.From(Step, c, more).Some? && c.written <= Runs.From(Step, c, more).value.flow.sent
  }

  /** Paused, with no low-water crossing to come. */
  ghost predicate Stuck(c: Channel) {
    && Sound(c) && IsPaused(c.flow)
    && (c.awaited.Some? ==> c.awaited.value == c.flow.ready)
    && c.flow.buffered <= c.flow.low && c.lowEvents == 0
  }

  lemma {:induction false} StuckForever(c: Channel, events: seq<Event>)
    requires Stuck(c) && Runs.From(Step, c, events).Some?
    ensures Runs.From(Step, c, events).value.flow.sent == c.flow.sent
    decreases |events|
  {
    if events != [] {
      var next := Step(c, events[0]).value;
      assert Stuck(next) && next.flow.sent == c.flow.sent;
      StuckForever(next, events[1..]);
    }
  }

  /** A message that fills the buffer to the high mark without passing the low one is the last one sent. */
  lemma OneMessageGetsStuck(low: nat, high: nat, message: Bytes, events: seq<Event>)
    requires high <= |message| <= low
    requires Run(low, high, [Write(message), RunLink, Proceed(true)] + events).Some?
    ensures Run(low, high, [Write(message), RunLink, Proceed(true)] + events).value.flow.sent == [message]
  {
    hide Runs.From;
    var first := [Write(message), RunLink, Proceed(true)];
    var sent := SentFirst(low, high, message);
    Runs.Append(Step, Open(low, high), first, events);
    StuckForever(sent, events);
  }

  /** An idle channel after its first message. */
  lemma SentFirst(low: nat, high: nat, message: Bytes) returns (sent: Channel)
    requires high <= |message| <= low
    ensures Run(low, high, [Write(message), RunLink, Proceed(true)]) == Some(sent)
    ensures Stuck(sent) && sent.flow.sent == [message] == sent.written && !sent.broken
    ensures sent.queue == [] && sent.awaited == None && sent.flow.buffered == |message| && sent.flow.low == low
  {
    hide Runs.From;
    var c := Open(low, high);
    sent := c.(flow := Written(c.flow, message, true).value, written := [message]);
    assert [] + [message] == [message];
    FirstThree(c, message, sent);
  }

  /**
    * In every run without a failed send everything written can still be sent, exactly when the low
    * mark is below the high one.
    */
  lemma NoLostWakeUp(low: nat, high: nat)
    ensures low < high <==>
            forall events: seq<Event> :: Run(low, high, events).Some? && !Run(low, high, events).value.broken ==>
              CanFinish(Run(low, high, events).value)
  {
    if low < high {
      forall events: seq<Event> | Run(low, high, events).Some? && !Run(low, high, events).value.broken
        ensures CanFinish(Run(low, high, events).value)
      {
        hide Runs.From, Moves, Distance, WakeUpInv;
        ReachableInv(low, high, events);
        var c := Run(low, high, events).value;
        EverythingGetsSent(c, Distance(c));
        assert c.written <= Runs.From(Step, c, Moves(c, Distance(c))).value.flow.sent;
      }
    } else {
      var events := LeavesOneBehind(low, high);
    }
  }

  /** Drained, with no link to run, no message to send and no low-water event to handle. */
  ghost predicate Quiet(c: Channel) {
    && c.flow.buffered == 0 && c.lowEvents == 0
    && Step(c, RunLink).None? && Step(c, Proceed(true)).None?
  }

  /**
    * In every run without a failed send that ends with nothing left to do everything written has been
    * sent, exactly when the low mark is below the high one.
    */
  lemma QuietMeansSent(low: nat, high: nat)
    ensures low < high <==>
            forall events: seq<Event> :: Run(low, high, events).Some? && !Run(low, high, events).value.broken
                                         && Quiet(Run(low, high, events).value) ==>
              Run(low, high, events).value.flow.sent == Run(low, high, events).value.written
  {
    if low < high {
      forall events: seq<Event> | Run(low, high, events).Some? && !Run(low, high, events).value.broken
                                  && Quiet(Run(low, high, events).value)
        ensures Run(low, high, events).value.flow.sent == Run(low, high, events).value.written
      {
        hide Runs.From;
        ReachableInv(low, high, events);
        QuietIsDone(Run(low, high, events).value);
      }
    } else {
      var events := QuietButUnsent(low, high);
    }
  }

  lemma QuietIsDone(c: Channel)
    requires Inv(c) && !c.broken && Quiet(c)
    ensures c.flow.sent == c.written
  {
    assert c.queue == [];
    assert c.flow.sent + [] == c.flow.sent;
  }

  lemma QuietButUnsent(low: nat, high: nat) returns (events: seq<Event>)
    requires high <= low
    ensures Run(low, high, events).Some? && !Run(low, high, events).value.broken
    ensures Quiet(Run(low, high, events).value)
    ensures Run(low, high, events).value.flow.sent != Run(low, high, events).value.written
  {
    hide Runs.From;
    var message: Bytes := seq(high, _ => 0);
    var first := [Write(message), RunLink, Proceed(true)];
    var sent := SentFirst(low, high, message);
    var written := Step(sent, Write(message)).value;
    assert written.queue == [message] && |written.written| == 2;
    var waiting := Step(written, RunLink).value;
    var c := Step(waiting, Drain(high)).value;
    events := first + [Write(message)] + [RunLink] + [Drain(high)];
    Runs.LastEvent(Step, Open(low, high), first, Write(message));
    Runs.LastEvent(Step, Open(low, high), first + [Write(message)], RunLink);
    Runs.LastEvent(Step, Open(low, high), first + [Write(message)] + [RunLink], Drain(high));
    assert Run(low, high, events) == Some(c);
  }

  lemma LeavesOneBehind(low: nat, high: nat) returns (events: seq<Event>)
    requires high <= low
    ensures Run(low, high, events).Some? && !Run(low, high, events).value.broken
    ensures !CanFinish(Run(low, high, events).value)
  {
    hide Runs.From;
    var message: Bytes := seq(high, _ => 0);
    var first := [Write(message), RunLink, Proceed(true)];
    events := first + [Write(message)];
    var sent := SentFirst(low, high, message);
    Runs.LastEvent(Step, Open(low, high), first, Write(message));
    var c := Step(sent, Write(message)).value;
    assert Run(low, high, events) == Some(c) && |c.written| == 2 && Stuck(c);
    forall more: seq<Event> | Runs.From(Step, c, more).Some?
      ensures !(c.written <= Runs.From(Step, c, more).value.flow.sent)
    {
      StuckForever(c, more);
    }
  }

  // ---- The bound on the buffer ----------------------------------------------------------------

  ghost predicate ReadyBelowHigh(c: Channel) {
    Sound(c) ==> IsPaused(c.flow) || c.flow.buffered < c.flow.high
  }

  ghost predicate HandledLate(c: Channel, e: Event) { e == HandleLow && c.flow.buffered >= c.flow.high }

  /** Only a low-water event handled after the buffer has filled up again can break the bound. */
  lemma OnlyLateEventsBreakTheBound(c: Channel, e: Event)
    requires OrderInv(c) && ReadyBelowHigh(c) && Step(c, e).Some?
    ensures ReadyBelowHigh(Step(c, e).value) <==> !HandledLate(c, e)
  {
    StepKeepsOrder(c, e);
  }

  /** In every state of the run a channel that is ready is below the high mark. */
  ghost predicate AlwaysBelowHigh(c: Channel, events: seq<Event>)
    decreases |events|
  {
    && ReadyBelowHigh(c)
    && (events != [] && Step(c, events[0]).Some? ==> AlwaysBelowHigh(Step(c, events[0]).value, events[1..]))
  }

  /** Somewhere in the run a low-water event is handled while the buffer is full. */
  ghost predicate SomeHandledLate(c: Channel, events: seq<Event>)
    decreases |events|
  {
    && events != []
    && (HandledLate(c, events[0])
        || (Step(c, events[0]).Some? && SomeHandledLate(Step(c, events[0]).value, events[1..])))
  }

  ghost predicate AllWithin(messages: seq<Bytes>, size: nat) {
    forall i :: 0 <= i < |messages| ==> |messages[i]| <= size
  }

  /** `size` bounds the messages. */
  ghost predicate BoundInv(c: Channel, size: nat) {
    && OrderInv(c) && ReadyBelowHigh(c)
    && AllWithin(c.written, size)
    && c.flow.buffered < c.flow.high + size
  }

  lemma StepKeepsBound(c: Channel, e: Event, size: nat)
    requires BoundInv(c, size) && Step(c, e).Some? && !HandledLate(c, e)
    requires AllWithin(Step(c, e).value.written, size)
    ensures BoundInv(Step(c, e).value, size)
  {
    OnlyLateEventsBreakTheBound(c, e);
    StepKeepsOrder(c, e);
    if e.Proceed? {
      assert c.queue[0] == c.written[|c.flow.sent|];
    }
  }

  lemma {:induction false} RunIsBounded(c: Channel, size: nat, events: seq<Event>)
    requires OrderInv(c) && ReadyBelowHigh(c) && Runs.From(Step, c, events).Some?
    ensures AlwaysBelowHigh(c, events) <==> !SomeHandledLate(c, events)
    ensures BoundInv(c, size) && !SomeHandledLate(c, events)
            && AllWithin(Runs.From(Step, c, events).value.written, size) ==>
              BoundInv(Runs.From(Step, c, events).value, size)
    decreases |events|
  {
    hide OrderInv, AllWithin;
    if events != [] {
      var next := Step(c, events[0]).value;
      OnlyLateEventsBreakTheBound(c, events[0]);
      if !HandledLate(c, events[0]) {
        StepKeepsOrder(c, events[0]);
        RunIsBounded(next, size, events[1..]);
        if BoundInv(c, size) && AllWithin(Runs.From(Step, c, events).value.written, size) {
          WrittenGrows(next, events[1..]);
          WithinPrefix(next.written, Runs.From(Step, c, events).value.written, size);
          StepKeepsBound(c, events[0], size);
        }
      }
    }
  }

  lemma WithinPrefix(a: seq<Bytes>, b: seq<Bytes>, size: nat)
    requires a <= b && AllWithin(b, size)
    ensures AllWithin(a, size)
  {
    forall i | 0 <= i < |a| ensures |a[i]| <= size {
      assert a[i] == b[i];
    }
  }

  /** Writing only ever adds messages, and the marks stay. */
  lemma {:induction false} WrittenGrows(c: Channel, events: seq<Event>)
    requires Runs.From(Step, c, events).Some?
    ensures var end := Runs.From(Step, c, events).value;
            c.written <= end.written && end.flow.high == c.flow.high && end.flow.low == c.flow.low
    decreases |events|
  {
    if events != [] {
      WrittenGrows(Step(c, events[0]).value, events[1..]);
    }
  }

  /** Low-water events are handled before anything else happens. */
  predicate IsPrompt(c: Channel, events: seq<Event>)
    decreases |events|
  {
    events != [] ==>
      && (c.lowEvents > 0 ==> events[0] == HandleLow)
      && (Step(c, events[0]).Some? ==> IsPrompt(Step(c, events[0]).value, events[1..]))
  }

  /** With the low mark below the high one, such events are never handled late. */
  lemma {:induction false} PromptIsNotLate(c: Channel, events: seq<Event>)
    requires OrderInv(c) && c.flow.low < c.flow.high && (c.lowEvents > 0 ==> c.flow.buffered <= c.flow.low)
    requires Runs.From(Step, c, events).Some? && IsPrompt(c, events)
    ensures !SomeHandledLate(c, events)
    decreases |events|
  {
    if events != [] {
      StepKeepsOrder(c, events[0]);
      PromptIsNotLate(Step(c, events[0]).value, events[1..]);
    }
  }

  /**
    * Over every run, whatever the marks: a ready channel is always below the high mark exactly when
    * that is not 0 and no low-water event is handled at a full buffer. The buffer then never holds the
    * high mark plus the size of the largest message. With the low mark below the high one a paused
    * channel is above the low mark or about to resume, and prompt events are enough for the bound.
    */
  lemma BufferStaysBounded(low: nat, high: nat, size: nat, events: seq<Event>)
    requires Run(low, high, events).Some?
    ensures var c := Run(low, high, events).value;
            && (AlwaysBelowHigh(Open(low, high), events) <==> high > 0 && !SomeHandledLate(Open(low, high), events))
            && (AlwaysBelowHigh(Open(low, high), events) && AllWithin(c.written, size) ==>
                  c.flow.buffered < high + size)
            && Sound(c)
            && (low < high && IsPaused(c.flow) ==> low < c.flow.buffered || c.lowEvents > 0)
            && (low < high && IsPrompt(Open(low, high), events) ==> AlwaysBelowHigh(Open(low, high), events))
  {
    hide AlwaysBelowHigh, SomeHandledLate, IsPrompt, AllWithin;
    WrittenGrows(Open(low, high), events);
    ReachableOrder(low, high, events);
    if high > 0 {
      RunIsBounded(Open(low, high), size, events);
      assert AllWithin(Open(low, high).written, size) by {
        NothingWithin(size);
      }
    } else {
      NeverBelowZero(low, events);
    }
    if low < high {
      ReachableInv(low, high, events);
      if IsPrompt(Open(low, high), events) {
        PromptIsNotLate(Open(low, high), events);
      }
    }
  }

  lemma NothingWithin(size: nat)
    ensures AllWithin([], size)
  {
  }

  lemma NeverBelowZero(low: nat, events: seq<Event>)
    ensures !AlwaysBelowHigh(Open(low, 0), events)
  {
  }

  // ---- Late low-water events ------------------------------------------------------------------

  /** And such a run exists. */
  lemma LateEventBreaksTheBound(a: Bytes, b: Bytes)
    requires |a| == 1 && |b| == 2
    ensures var r := Run(0, 2, [Write(a), RunLink, Proceed(true), Drain(1),
                                Write(b), RunLink, Proceed(true), HandleLow]);
            r.Some? && !ReadyBelowHigh(r.value)
  {
    hide Runs.From;
    var c0 := Open(0, 2);
    var sent := c0.(flow := c0.flow.(buffered := 1, sent := [a]), written := [a]);
    assert [a] + [] == [a] && [a][1..] == [];
    FirstThree(c0, a, sent);
    var drained := sent.(flow := sent.flow.(buffered := 0), lowEvents := 1);
    assert Step(sent, Drain(1)) == Some(drained);
    var paused := drained.(flow := Flow(0, 2, 2, [true, false], 1, [a, b]), written := [a, b]);
    FirstThree(drained, b, paused);
    var late := Step(paused, HandleLow).value;
    var tail := [HandleLow];
    var second := [Write(b), RunLink, Proceed(true)];
    NoEvents(late);
    Runs.FirstEvent(Step, paused, HandleLow, []);
    assert [HandleLow] + [] == tail;
    Runs.Append(Step, drained, second, tail);
    Runs.FirstEvent(Step, sent, Drain(1), second + tail);
    var first := [Write(a), RunLink, Proceed(true)];
    Runs.Append(Step, c0, first, [Drain(1)] + (second + tail));
    assert first + ([Drain(1)] + (second + tail))
      == [Write(a), RunLink, Proceed(true), Drain(1), Write(b), RunLink, Proceed(true), HandleLow];
  }

  lemma NoEvents(c: Channel)
    ensures Runs.From(Step, c, []) == Some(c)
  {
  }

  /** Writing to an idle channel sends at once. */
  lemma FirstThree(c: Channel, message: Bytes, end: Channel)
    requires OrderInv(c) && !c.broken && c.queue == [] && !IsPaused(c.flow)
    requires end == c.(flow := Written(c.flow, message, true).value, written := c.written + [message])
    ensures Runs.From(Step, c, [Write(message), RunLink, Proceed(true)]) == Some(end)
  {
    hide Runs.From, Step;
    NoEvents(end);
    var c1 := c.(queue := [message], written := c.written + [message]);
    var c2 := c1.(awaited := Some(c.flow.ready));
    WriteToIdle(c, message);
    RunFirstLink(c1);
    SendFirst(c2);
    Runs.FirstEvent(Step, c2, Proceed(true), []);
    Runs.FirstEvent(Step, c1, RunLink, [Proceed(true)]);
    Runs.FirstEvent(Step, c, Write(message), [RunLink, Proceed(true)]);
    assert [RunLink] + [Proceed(true)] == [RunLink, Proceed(true)];
    assert [Write(message)] + [RunLink, Proceed(true)] == [Write(message), RunLink, Proceed(true)];
    assert [Proceed(true)] + [] == [Proceed(true)];
  }

  lemma WriteToIdle(c: Channel, message: Bytes)
    requires OrderInv(c) && !c.broken && c.queue == []
    ensures Step(c, Write(message)) == Some(c.(queue := [message], written := c.written + [message]))
    ensures c.awaited.None?
  {
    assert [] + [message] == [message];
  }

  lemma RunFirstLink(c: Channel)
    requires Sound(c) && !c.broken && c.queue != [] && c.awaited.None?
    ensures Step(c, RunLink) == Some(c.(awaited := Some(c.flow.ready)))
  {
  }

  lemma SendFirst(c: Channel)
    requires Sound(c) && |c.queue| == 1 && c.awaited == Some(c.flow.ready) && !IsPaused(c.flow)
    ensures Step(c, Proceed(true)) ==
            Some(c.(flow := Written(c.flow, c.queue[0], true).value, awaited := None, queue := []))
  {
    assert c.queue[1..] == [];
  }
}
