/** src/helpers/data_channel.ts: a data channel that pauses its writer at a high water mark. */
module DataChannels {
  import opened Prelude
  import opened Futures

  datatype WriteError = Paused | SendFailed

  /**
    * The channel as a value. `futures` says which of the `ready` futures created so far are done;
    * the current one is `ready`.
    */
  datatype Flow = Flow(low: nat, high: nat, buffered: nat, futures: seq<bool>, ready: nat, sent: seq<Bytes>)

  ghost predicate WellFormed(f: Flow) {
    // Only the current future can be pending: it is replaced only when it is done
    && f.ready + 1 == |f.futures|
    && forall i :: 0 <= i < f.ready ==> f.futures[i]
  }

  predicate IsPaused(f: Flow)
    requires WellFormed(f)
  {
    !f.futures[f.ready]
  }

  function Written(f: Flow, message: Bytes, accepted: bool): Result<Flow, WriteError>
    requires WellFormed(f)
  {
    if IsPaused(f) then Err(Paused)
    else if !accepted then Err(SendFailed)
    else
      var f' := f.(buffered := f.buffered + |message|, sent := f.sent + [message]);
      Ok(if f'.buffered >= f'.high then f'.(futures := f'.futures + [false], ready := |f'.futures|) else f')
  }

  /** Who may write, what is sent, and when the channel is paused afterwards. */
  lemma WritingIsAllOrNothing(f: Flow, message: Bytes, accepted: bool)
    requires WellFormed(f)
    ensures !f.futures[f.ready] ==> Written(f, message, accepted) == Err(Paused)
    ensures f.futures[f.ready] && !accepted ==> Written(f, message, accepted) == Err(SendFailed)
    ensures f.futures[f.ready] && accepted ==>
              && Written(f, message, accepted).Ok?
              && var f' := Written(f, message, accepted).value;
                 && WellFormed(f') && f'.sent == f.sent + [message] && f'.buffered == f.buffered + |message|
                 && (IsPaused(f') <==> f.buffered + |message| >= f.high)
  {
  }

  /** The handler of `bufferedamountlow`. */
  function Unpaused(f: Flow): Flow
    requires WellFormed(f)
  {
    f.(futures := f.futures[f.ready := true])
  }

  /** The part of an RTCDataChannel that flow control uses (section 6.2 of W3C WebRTC 1.0). */
  class RtcDataChannel {
    var bufferedAmount: nat
    var bufferedAmountLowThreshold: nat
    ghost var sent: seq<Bytes>

    constructor ()
      ensures bufferedAmount == 0 && sent == []
    {
      bufferedAmount := 0;
      bufferedAmountLowThreshold := 0;
      sent := [];
    }

    /** Throws (returns false) for reasons of its own, given by `accepted`. */
    method Send(message: Bytes, accepted: bool) returns (ok: bool)
      modifies this
      ensures ok == accepted
      ensures bufferedAmountLowThreshold == old(bufferedAmountLowThreshold)
      ensures bufferedAmount == old(bufferedAmount) + if ok then |message| else 0
      ensures sent == old(sent) + if ok then [message] else []
    {
      ok := accepted;
      if accepted {
        bufferedAmount := bufferedAmount + |message|;
        sent := sent + [message];
      }
    }
  }

  class FlowControlledDataChannel {
    const dc: RtcDataChannel
    const highWaterMark: nat
    var ready: Future<WriteError>
    /** Every future `ready` ever was, the current one last. */
    ghost var issued: seq<Future<WriteError>>

    ghost predicate Valid()
      reads this, dc, issued
    {
      && |issued| > 0 && ready == issued[|issued| - 1]
      && (forall i, j :: 0 <= i < j < |issued| ==> issued[i] != issued[j])
      && (forall i :: 0 <= i < |issued| ==> issued[i].Valid())
      && (forall i :: 0 <= i < |issued| - 1 ==> issued[i].done)
    }

    ghost function AsValue(): (f: Flow)
      requires Valid()
      reads this, dc, issued
      ensures WellFormed(f)
    {
      Flow(dc.bufferedAmountLowThreshold, highWaterMark, dc.bufferedAmount,
           seq(|issued|, i requires 0 <= i < |issued| reads this, issued => issued[i].done),
           |issued| - 1, dc.sent)
    }

    constructor (dc: RtcDataChannel, lowWaterMark: nat := 256 * 1024, highWaterMark: nat := 1024 * 1024)
      modifies dc
      ensures Valid() && fresh(issued)
      ensures AsValue() == Flow(lowWaterMark, highWaterMark, old(dc.bufferedAmount), [true], 0, old(dc.sent))
    {
      this.dc := dc;
      this.highWaterMark := highWaterMark;
      ready := new Future();
      new;
      issued := [ready];
      ready.Resolve();
      dc.bufferedAmountLowThreshold := lowWaterMark;
    }

    method OnBufferedAmountLow()
      requires Valid()
      modifies issued
      ensures Valid() && AsValue() == Unpaused(old(AsValue()))
    {
      if !ready.done {
        ready.Resolve();
      }
    }

    method Write(message: Bytes, accepted: bool) returns (r: Result<(), WriteError>)
      requires Valid()
      modifies this, dc
      ensures Valid() && fresh(set f | f in issued && f !in old(issued))
      ensures match Written(old(AsValue()), message, accepted)
              case Ok(f) => r.Ok? && AsValue() == f
              case Err(e) => r == Err(e) && AsValue() == old(AsValue())
    {
      if !ready.done {
        return Err(Paused);
      }
      var ok := dc.Send(message, accepted);
      if !ok {
        return Err(SendFailed);
      }
      if dc.bufferedAmount >= highWaterMark {
        ready := new Future();
        issued := issued + [ready];
      }
      return Ok(());
    }
  }
}
