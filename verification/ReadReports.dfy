/**
  * `ConversationController.msgRead` of src/partials/messenger.ts: read reports, batched by a timer of
  * the timeout service, which the web client may cancel at any time.
  */
module ReadReports {
  import opened Prelude
  import Runs

  datatype Message = Message(isStatus: bool, isOutbox: bool, unread: bool, sortKey: int)

  /**
    * `seen` and `reports` record the messages seen and those reported as read, in order; `cancelled`
    * counts the timers that were cancelled before they fired.
    */
  datatype State = State(lastReadMsg: Option<Message>, pending: bool, timers: nat,
                         seen: seq<Message>, reports: seq<Message>, cancelled: nat)

  datatype Event = Seen(message: Message) | TimerFires | CancelAll

  const START := State(None, false, 0, [], [], 0)

  /** Whether seeing the message has to be reported. */
  predicate Counts(m: Message) { !m.isStatus && !m.isOutbox && m.unread }

  function MsgRead(s: State, m: Message): State {
    var seen := s.(seen := s.seen + [m]);
    if !Counts(m) then seen
    else
      var last := if s.lastReadMsg.None? || m.sortKey >= s.lastReadMsg.value.sortKey then Some(m) else s.lastReadMsg;
      seen.(lastReadMsg := last, pending := true, timers := s.timers + if s.pending then 0 else 1)
  }

  function Step(s: State, e: Event): Option<State> {
    match e
    case Seen(m) => Some(MsgRead(s, m))
    case TimerFires =>
      if s.timers == 0 || s.lastReadMsg.None? then None
      else Some(s.(reports := s.reports + [s.lastReadMsg.value], pending := false, timers := s.timers - 1))
    case CancelAll => Some(s.(timers := 0, cancelled := s.cancelled + s.timers))
  }

  class ConversationController {
    var lastReadMsg: Option<Message>
    var msgReadReportPending: bool
    ghost var timers: nat
    ghost var seen: seq<Message>
    ghost var reports: seq<Message>
    ghost var cancelled: nat

    ghost function AsValue(): State
      reads this
    {
      State(lastReadMsg, msgReadReportPending, timers, seen, reports, cancelled)
    }

    constructor ()
      ensures AsValue() == START
    {
      lastReadMsg, msgReadReportPending := None, false;
      timers, seen, reports, cancelled := 0, [], [], 0;
    }

    method MsgRead(message: Message)
      modifies this
      ensures Some(AsValue()) == Step(old(AsValue()), Seen(message))
    {
      seen := seen + [message];
      if message.isStatus {
        return;
      }
      if message.isOutbox {
        return;
      }
      if !message.unread {
        return;
      }
      if lastReadMsg.None? || message.sortKey >= lastReadMsg.value.sortKey {
        lastReadMsg := Some(message);
      }
      if !msgReadReportPending {
        msgReadReportPending := true;
        timers := timers + 1;
      }
    }

    method OnTimer()
      requires timers > 0 && lastReadMsg.Some?
      modifies this
      ensures Some(AsValue()) == Step(old(AsValue()), TimerFires)
    {
      reports := reports + [lastReadMsg.value];
      msgReadReportPending := false;
      timers := timers - 1;
    }

    /** `TimeoutService.cancelAll`: the controller does not notice. */
    ghost method OnCancelAll()
      modifies this
      ensures Some(AsValue()) == Step(old(AsValue()), CancelAll)
    {
      timers, cancelled := 0, cancelled + timers;
    }
  }

  // ---- Invariant ------------------------------------------------------------------------------

  /** The last report reaches up to the message. */
  ghost predicate Reported(s: State, m: Message) {
    s.reports != [] && s.reports[|s.reports| - 1].sortKey >= m.sortKey
  }

  /** A report already sent, or the one a running timer will send, reaches up to the message. */
  ghost predicate Covered(s: State, m: Message) {
    Reported(s, m) || (s.timers > 0 && s.lastReadMsg.Some? && s.lastReadMsg.value.sortKey >= m.sortKey)
  }

  ghost predicate AllCovered(s: State) {
    forall i :: 0 <= i < |s.seen| && Counts(s.seen[i]) ==> Covered(s, s.seen[i])
  }

  ghost predicate Monotone(reports: seq<Message>) {
    forall i, j :: 0 <= i <= j < |reports| ==> reports[i].sortKey <= reports[j].sortKey
  }

  ghost predicate Inv(s: State) {
    && s.timers + s.cancelled == (if s.pending then 1 else 0)
    && (s.pending || s.reports != [] ==> s.lastReadMsg.Some?)
    && Monotone(s.reports)
    && (s.reports != [] ==> s.reports[|s.reports| - 1].sortKey <= s.lastReadMsg.value.sortKey)
    && (forall i :: 0 <= i < |s.reports| ==> s.reports[i] in s.seen && Counts(s.reports[i]))
    // The remembered message is the latest that counts; without a timer it has been reported
    && (s.lastReadMsg.Some? ==> s.lastReadMsg.value in s.seen && Counts(s.lastReadMsg.value))
    && (forall i :: 0 <= i < |s.seen| && Counts(s.seen[i]) ==>
          s.lastReadMsg.Some? && s.seen[i].sortKey <= s.lastReadMsg.value.sortKey)
    && (s.lastReadMsg.Some? && !s.pending ==> Reported(s, s.lastReadMsg.value))
  }

  lemma StepKeepsInv(s: State, e: Event)
    requires Inv(s) && Step(s, e).Some?
    ensures Inv(Step(s, e).value)
  {
    var s' := Step(s, e).value;
    forall i | 0 <= i < |s'.seen| && Counts(s'.seen[i])
      ensures s'.lastReadMsg.Some? && s'.seen[i].sortKey <= s'.lastReadMsg.value.sortKey
    {
      assert i < |s.seen| ==> s.seen[i] == s'.seen[i];
    }
  }

  lemma StartInv()
    ensures Inv(START)
  {
  }

  lemma ReachableInv(events: seq<Event>)
    requires Runs.From(Step, START, events).Some?
    ensures Inv(Runs.From(Step, START, events).value)
  {
    hide Inv, Step;
    StartInv();
    forall s, e | Inv(s) && Step(s, e).Some? ensures Inv(Step(s, e).value) {
      StepKeepsInv(s, e);
    }
    Runs.Keeps(Step, Inv, START, events);
  }

  // ---- Results --------------------------------------------------------------------------------

  /**
    * The event leaves a message uncovered: it cancels a running timer while the latest message has not
    * been reported, or shows a newer one after a timer was cancelled.
    */
  ghost predicate Uncovers(s: State, e: Event) {
    match e
    case CancelAll => s.timers > 0 && s.lastReadMsg.Some? && !Reported(s, s.lastReadMsg.value)
    case Seen(m) => s.cancelled > 0 && Counts(m) && !Reported(s, m)
    case TimerFires => false
  }

  ghost predicate SomeUncovers(s: State, events: seq<Event>)
    decreases |events|
  {
    && events != []
    && (Uncovers(s, events[0])
        || (Step(s, events[0]).Some? && SomeUncovers(Step(s, events[0]).value, events[1..])))
  }

  /** It is the latest message that matters. */
  lemma LatestDecides(s: State)
    requires Inv(s)
    ensures AllCovered(s) <==> s.lastReadMsg.None? || Covered(s, s.lastReadMsg.value)
  {
    if s.lastReadMsg.Some? {
      var i :| 0 <= i < |s.seen| && s.seen[i] == s.lastReadMsg.value;
      assert AllCovered(s) ==> Covered(s, s.seen[i]);
    }
  }

  lemma OnlyUncoveringUncovers(s: State, e: Event)
    requires Inv(s) && Step(s, e).Some?
    ensures AllCovered(Step(s, e).value) <==> AllCovered(s) && !Uncovers(s, e)
  {
    LatestDecides(s);
    StepKeepsInv(s, e);
    LatestDecides(Step(s, e).value);
    hide AllCovered;
  }

  lemma {:induction false} CoveredUntil(s: State, events: seq<Event>)
    requires Inv(s) && Runs.From(Step, s, events).Some?
    ensures AllCovered(Runs.From(Step, s, events).value) <==> AllCovered(s) && !SomeUncovers(s, events)
    decreases |events|
  {
    hide Inv, AllCovered, Uncovers;
    if events != [] {
      StepKeepsInv(s, events[0]);
      OnlyUncoveringUncovers(s, events[0]);
      CoveredUntil(Step(s, events[0]).value, events[1..]);
    }
  }

  /**
    * Over every interleaving of seen messages, timers and cancellations: at most one timer runs;
    * reported sort keys never decrease; only unread incoming messages that were seen are reported; and
    * all of those are covered by a report sent or to be sent exactly when no event of the run uncovers
    * one.
    */
  lemma EveryMessageIsCovered(events: seq<Event>)
    requires Runs.From(Step, START, events).Some?
    ensures var s := Runs.From(Step, START, events).value;
            && s.timers <= 1 && (s.timers > 0 ==> Step(s, TimerFires).Some?)
            && Monotone(s.reports)
            && (forall i :: 0 <= i < |s.reports| ==> s.reports[i] in s.seen && Counts(s.reports[i]))
            && (AllCovered(s) <==> !SomeUncovers(START, events))
            && (s.cancelled == 0 ==> AllCovered(s))
  {
    hide Inv, AllCovered, SomeUncovers, Monotone, Runs.From;
    ReachableInv(events);
    StartInv();
    CoveredUntil(START, events);
    assert AllCovered(START) by {
      LatestDecides(START);
    }
    WhatInvMeans(Runs.From(Step, START, events).value);
  }

  lemma WhatInvMeans(s: State)
    requires Inv(s)
    ensures s.timers <= 1 && (s.timers > 0 ==> Step(s, TimerFires).Some?) && Monotone(s.reports)
    ensures forall i :: 0 <= i < |s.reports| ==> s.reports[i] in s.seen && Counts(s.reports[i])
    ensures s.cancelled == 0 ==> AllCovered(s)
    ensures s.cancelled > 0 && s.reports == [] ==> !AllCovered(s)
  {
    LatestDecides(s);
    hide AllCovered;
  }

  /** A message to report starts the timer that reports it; any other does nothing. */
  lemma OneMessage(m: Message)
    ensures var r := Runs.From(Step, START, [Seen(m), TimerFires]);
            if m.unread && !m.isOutbox && !m.isStatus then r.Some? && r.value.reports == [m] && !r.value.pending
            else r.None? && MsgRead(START, m) == START.(seen := [m])
  {
    var seen := MsgRead(START, m);
    assert [Seen(m), TimerFires] == [Seen(m)] + ([TimerFires] + []);
    Runs.FirstEvent(Step, START, Seen(m), [TimerFires] + []);
    if m.unread && !m.isOutbox && !m.isStatus {
      var reported := Step(seen, TimerFires).value;
      Runs.FirstEvent(Step, seen, TimerFires, []);
      assert Runs.From(Step, reported, []) == Some(reported);
    } else {
      assert ([TimerFires] + [])[0] == TimerFires && Step(seen, TimerFires).None?;
    }
  }

  /** Of all messages to report, the last one seen with the greatest sort key. */
  ghost predicate IsLatest(seen: seq<Message>, m: Message) {
    exists i :: 0 <= i < |seen| && seen[i] == m
                && (forall j :: 0 <= j < |seen| && Counts(seen[j]) ==> seen[j].sortKey <= m.sortKey)
                && (forall j :: i < j < |seen| && Counts(seen[j]) ==> seen[j].sortKey < m.sortKey)
  }

  ghost predicate RemembersLatest(s: State) {
    && (s.lastReadMsg.Some? ==> IsLatest(s.seen, s.lastReadMsg.value))
    && (s.lastReadMsg.None? ==> forall i :: 0 <= i < |s.seen| ==> !Counts(s.seen[i]))
  }

  lemma StepKeepsLatest(s: State, e: Event)
    requires RemembersLatest(s) && Step(s, e).Some?
    ensures RemembersLatest(Step(s, e).value)
  {
    if e.Seen? {
      var s' := Step(s, e).value;
      assert s'.seen == s.seen + [e.message];
      if s'.lastReadMsg == Some(e.message) && Counts(e.message) {
        assert s'.seen[|s.seen|] == e.message;
        assert forall j :: 0 <= j < |s.seen| ==> s'.seen[j] == s.seen[j];
        assert IsLatest(s'.seen, e.message);
      } else if s.lastReadMsg.Some? {
        var m := s.lastReadMsg.value;
        var i :| 0 <= i < |s.seen| && s.seen[i] == m
                 && (forall j :: 0 <= j < |s.seen| && Counts(s.seen[j]) ==> s.seen[j].sortKey <= m.sortKey)
                 && (forall j :: i < j < |s.seen| && Counts(s.seen[j]) ==> s.seen[j].sortKey < m.sortKey);
        assert s'.seen[i] == m && IsLatest(s'.seen, m);
      }
    }
  }

  /** Over every run it is this message that a report names. */
  lemma ReportsTheLatest(events: seq<Event>)
    requires Runs.From(Step, START, events).Some?
    ensures var s := Runs.From(Step, START, events).value;
            && (s.lastReadMsg.Some? ==> IsLatest(s.seen, s.lastReadMsg.value))
            && (s.timers > 0 ==>
                  Step(s, TimerFires).Some? && |Step(s, TimerFires).value.reports| == |s.reports| + 1
                  && IsLatest(s.seen, Step(s, TimerFires).value.reports[|s.reports|]))
  {
    hide RemembersLatest, IsLatest, Inv;
    forall s, e | RemembersLatest(s) && Step(s, e).Some? ensures RemembersLatest(Step(s, e).value) {
      StepKeepsLatest(s, e);
    }
    StartsLatest();
    Runs.Keeps(Step, RemembersLatest, START, events);
    ReachableInv(events);
    var s := Runs.From(Step, START, events).value;
    LatestOf(s);
    WhatInvMeans(s);
  }

  lemma StartsLatest()
    ensures RemembersLatest(START)
  {
  }

  lemma LatestOf(s: State)
    requires RemembersLatest(s)
    ensures s.lastReadMsg.Some? ==> IsLatest(s.seen, s.lastReadMsg.value)
  {
  }

  /** Cancelling a running timer is final: however many messages are seen, nothing is reported again. */
  lemma {:induction false} NothingReportedAgain(s: State, events: seq<Event>)
    requires Inv(s) && s.cancelled > 0 && Runs.From(Step, s, events).Some?
    ensures var end := Runs.From(Step, s, events).value;
            end.reports == s.reports && end.cancelled == s.cancelled && end.pending && end.timers == 0
    decreases |events|
  {
    if events != [] {
      StepKeepsInv(s, events[0]);
      NothingReportedAgain(Step(s, events[0]).value, events[1..]);
    }
  }

  /** And it happens: a message seen, the timer cancelled in time, and nothing is ever reported. */
  lemma CancellationLosesReports(m: Message, events: seq<Event>)
    requires Counts(m) && Runs.From(Step, START, [Seen(m), CancelAll] + events).Some?
    ensures var end := Runs.From(Step, START, [Seen(m), CancelAll] + events).value;
            end.reports == [] && !AllCovered(end)
  {
    var seen := Step(START, Seen(m)).value;
    var stuck := Step(seen, CancelAll).value;
    var all := [Seen(m), CancelAll] + events;
    assert all == [Seen(m)] + ([CancelAll] + events);
    Runs.FirstEvent(Step, START, Seen(m), [CancelAll] + events);
    Runs.FirstEvent(Step, seen, CancelAll, events);
    hide Inv, AllCovered, Runs.From;
    StartInv();
    StepKeepsInv(START, Seen(m));
    StepKeepsInv(seen, CancelAll);
    NothingReportedAgain(stuck, events);
    ReachableInv(all);
    WhatInvMeans(Runs.From(Step, START, all).value);
  }
}
