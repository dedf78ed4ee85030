/** src/protocol/cache.ts: the buffer of chunks that have not been acknowledged yet. */
module ChunkCaches {
  import opened Prelude
  import opened SequenceNumbers

  /** `null` stands for a chunk that is numbered but must not be retransmitted. */
  type CachedChunk = Option<Bytes>

  datatype PruneError = InvalidNumber | Future | AlreadyAcknowledged

  datatype Pruned = Pruned(acknowledged: int, left: int)

  /** The payloads among the first `n` chunks. */
  function NonNullOfFirst(chunks: seq<CachedChunk>, n: nat): seq<Bytes>
    requires n <= |chunks|
  {
    if n == 0 then []
    else NonNullOfFirst(chunks, n - 1) + match chunks[n - 1] case Some(b) => [b] case None => []
  }

  /** The chunks to retransmit, in order. */
  function NonNull(chunks: seq<CachedChunk>): seq<Bytes> {
    NonNullOfFirst(chunks, |chunks|)
  }

  function AsCached(payloads: seq<Bytes>): (chunks: seq<CachedChunk>)
    ensures |chunks| == |payloads|
    ensures forall i :: 0 <= i < |payloads| ==> chunks[i] == Some(payloads[i])
  {
    seq(|payloads|, i requires 0 <= i < |payloads| => Some(payloads[i]))
  }

  function ByteLength(chunk: CachedChunk): nat {
    match chunk case Some(b) => |b| case None => 0
  }

  /** The bytes of the first `n` chunks; `null` has none. */
  function BytesOfFirst(chunks: seq<CachedChunk>, n: nat): nat
    requires n <= |chunks|
  {
    if n == 0 then 0 else BytesOfFirst(chunks, n - 1) + ByteLength(chunks[n - 1])
  }

  function TotalBytes(chunks: seq<CachedChunk>): nat {
    BytesOfFirst(chunks, |chunks|)
  }

  lemma {:induction false} BytesOfPrefix(a: seq<CachedChunk>, b: seq<CachedChunk>, n: nat)
    requires n <= |a|
    ensures BytesOfFirst(a + b, n) == BytesOfFirst(a, n)
  {
    if n > 0 {
      BytesOfPrefix(a, b, n - 1);
    }
  }

  lemma TotalBytesAppend(chunks: seq<CachedChunk>, chunk: CachedChunk)
    ensures TotalBytes(chunks + [chunk]) == TotalBytes(chunks) + ByteLength(chunk)
  {
    BytesOfPrefix(chunks, [chunk], |chunks|);
  }

  lemma {:induction false} NonNullOfPrefix(a: seq<CachedChunk>, b: seq<CachedChunk>, n: nat)
    requires n <= |a|
    ensures NonNullOfFirst(a + b, n) == NonNullOfFirst(a, n)
  {
    if n > 0 {
      NonNullOfPrefix(a, b, n - 1);
    }
  }

  lemma {:induction false} NonNullAppend(a: seq<CachedChunk>, b: seq<CachedChunk>)
    ensures NonNull(a + b) == NonNull(a) + NonNull(b)
    decreases |b|
  {
    if b == [] {
      assert a + b == a;
    } else {
      var init, last := b[..|b| - 1], b[|b| - 1];
      NonNullAppend(a, init);
      NonNullOfPrefix(a + init, [last], |a + init|);
      NonNullOfPrefix(init, [last], |init|);
      assert a + b == (a + init) + [last];
      assert b == init + [last];
    }
  }

  lemma {:induction false} NonNullIsShort(chunks: seq<CachedChunk>, n: nat)
    requires n <= |chunks|
    ensures |NonNullOfFirst(chunks, n)| <= n
  {
    if n > 0 {
      NonNullIsShort(chunks, n - 1);
    }
  }

  lemma {:induction false} NonNullOfCached(payloads: seq<Bytes>, n: nat)
    requires n <= |payloads|
    ensures NonNullOfFirst(AsCached(payloads), n) == payloads[..n]
  {
    if n > 0 {
      NonNullOfCached(payloads, n - 1);
    }
  }

  // ---- What a cache holds, as a value -------------------------------------------------------

  /** `next` is the number of the next chunk; `min` and `max` bound every number. */
  datatype Cache = Cache(next: int, min: int, max: int, chunks: seq<CachedChunk>)

  function Appended(c: Cache, chunk: CachedChunk): Result<Cache, RangeError> {
    if c.next + 1 < c.min then Err(TooSmall)
    else if c.next + 1 > c.max then Err(TooLarge)
    else Ok(c.(next := c.next + 1, chunks := c.chunks + [chunk]))
  }

  /** Appends until a chunk cannot be numbered any more; says how many there were and how it ended. */
  function AppendedAll(c: Cache, chunks: seq<CachedChunk>): (Cache, Result<(), RangeError>)
    decreases |chunks|
  {
    if chunks == [] then (c, Ok(()))
    else match Appended(c, chunks[0])
      case Ok(c') => AppendedAll(c', chunks[1..])
      case Err(e) => (c, Err(e))
  }

  function PrunedBy(c: Cache, their: int): Result<Cache, PruneError> {
    var beginOffset := their - c.next;
    if !(c.min <= their <= c.max) then Err(InvalidNumber)
    else if beginOffset > 0 then Err(Future)
    else if -beginOffset > |c.chunks| then Err(AlreadyAcknowledged)
    else Ok(c.(chunks := if beginOffset == 0 then [] else SliceFrom(c.chunks, beginOffset)))
  }

  /**
    * The meaning of a cache: of all chunks ever appended (numbered from `base`), it holds exactly
    * those numbered from the last accepted acknowledgement up to the next number.
    */
  ghost predicate Holds(c: Cache, base: int, history: seq<CachedChunk>, acked: int) {
    && base <= acked <= c.next
    && c.next == base + |history|
    && c.chunks == history[acked - base..]
  }

  lemma AppendExtendsHistory(c: Cache, base: int, history: seq<CachedChunk>, acked: int, chunk: CachedChunk)
    requires Holds(c, base, history, acked)
    ensures Appended(c, chunk).Ok? <==> c.min <= c.next + 1 <= c.max
    ensures Appended(c, chunk).Ok? ==> Holds(Appended(c, chunk).value, base, history + [chunk], acked)
  {
    assert (history + [chunk])[acked - base..] == history[acked - base..] + [chunk];
  }

  /** How many chunks can still be numbered. */
  function Room(c: Cache): nat { if c.next + 1 < c.min then 0 else Max(c.max - c.next, 0) }

  /** Appending many stops at the first number out of range, keeping what was appended before. */
  lemma {:induction false} AppendAllExtendsHistory(c: Cache, base: int, history: seq<CachedChunk>, acked: int,
                                                   chunks: seq<CachedChunk>)
    requires Holds(c, base, history, acked)
    ensures var n := Min(|chunks|, Room(c));
            var (c', r) := AppendedAll(c, chunks);
            && Holds(c', base, history + chunks[..n], acked)
            && c'.min == c.min && c'.max == c.max && c'.next == c.next + n
            && (r.Ok? <==> n == |chunks|)
            && (r.Err? ==> r.error == if c.next + 1 < c.min then TooSmall else TooLarge)
    decreases |chunks|
  {
    if chunks == [] {
      assert history + chunks[..0] == history;
    } else if Room(c) == 0 {
      assert history + chunks[..0] == history;
    } else {
      AppendExtendsHistory(c, base, history, acked, chunks[0]);
      var c1 := Appended(c, chunks[0]).value;
      AppendAllExtendsHistory(c1, base, history + [chunks[0]], acked, chunks[1..]);
      var n := Min(|chunks|, Room(c));
      assert (history + [chunks[0]]) + chunks[1..][..n - 1] == history + chunks[..n];
    }
  }

  /**
    * An acknowledgement is accepted exactly when it lies between the last accepted one and the next
    * number (within the bounds); the cache then holds exactly what follows it.
    */
  lemma PruneKeepsWhatFollows(c: Cache, base: int, history: seq<CachedChunk>, acked: int, their: int)
    requires Holds(c, base, history, acked)
    ensures PrunedBy(c, their).Ok? <==> c.min <= their <= c.max && acked <= their <= c.next
    ensures PrunedBy(c, their) == Err(AlreadyAcknowledged) <==> c.min <= their <= c.max && their < acked
    ensures PrunedBy(c, their).Ok? ==> Holds(PrunedBy(c, their).value, base, history, their)
  {
    if PrunedBy(c, their).Ok? {
      assert PrunedBy(c, their).value.chunks == history[their - base..];
    }
  }

  // ---- The class ----------------------------------------------------------------------------

  class ChunkCache {
    const sequenceNumber: SequenceNumber
    var byteLength: int
    var cache: seq<CachedChunk>

    /** Every chunk appended since construction, numbered from `base`. */
    ghost var history: seq<CachedChunk>
    ghost const base: int
    /** The last accepted acknowledgement. */
    ghost var acked: int

    ghost function AsValue(): Cache
      reads this, sequenceNumber
    {
      Cache(sequenceNumber.value, sequenceNumber.minValue, sequenceNumber.maxValue, cache)
    }

    ghost predicate Valid()
      reads this, sequenceNumber
    {
      && Holds(AsValue(), base, history, acked)
      && byteLength == TotalBytes(cache)
    }

    constructor (sequenceNumber: SequenceNumber)
      ensures Valid() && this.sequenceNumber == sequenceNumber
      ensures history == [] && base == acked == sequenceNumber.value
    {
      this.sequenceNumber := sequenceNumber;
      byteLength := 0;
      cache := [];
      history, base, acked := [], sequenceNumber.value, sequenceNumber.value;
    }

    method Chunks() returns (chunks: seq<Bytes>)
      requires Valid()
      ensures chunks == NonNull(history[acked - base..])
    {
      chunks := NonNull(cache);
    }

    method Append(chunk: CachedChunk) returns (r: Result<(), RangeError>)
      requires Valid()
      modifies this, sequenceNumber
      ensures Valid() && acked == old(acked)
      ensures r.Ok? <==> sequenceNumber.minValue <= old(sequenceNumber.value) + 1 <= sequenceNumber.maxValue
      ensures r.Ok? ==> history == old(history) + [chunk] && Appended(old(AsValue()), chunk) == Ok(AsValue())
      ensures r.Err? ==> history == old(history) && AsValue() == old(AsValue()) && byteLength == old(byteLength)
    {
      ghost var before := AsValue();
      AppendExtendsHistory(before, base, history, acked, chunk);
      TotalBytesAppend(cache, chunk);
      var incremented := sequenceNumber.Increment();
      if incremented.Err? {
        assert AsValue() == before;
        return Err(incremented.error);
      }
      if chunk.Some? {
        byteLength := byteLength + |chunk.value|;
      }
      cache := cache + [chunk];
      history := history + [chunk];
      assert AsValue() == before.(next := before.next + 1, chunks := before.chunks + [chunk]);
      assert AsValue() == Appended(before, chunk).value;
      return Ok(());
    }

    /**
      * Appends the chunks that may be retransmitted. When the numbers run out half-way, the chunks
      * appended until then stay and the error is passed on.
      */
    method Transfer(chunks: seq<CachedChunk>) returns (r: Result<nat, RangeError>)
      requires Valid()
      modifies this, sequenceNumber
      ensures Valid() && acked == old(acked)
      ensures var payloads := NonNull(chunks);
              var n := Min(|payloads|, Room(old(AsValue())));
              && history == old(history) + AsCached(payloads)[..n]
              && (if n == |payloads| then r == Ok(|payloads|) else r.Err?)
      ensures AppendedAll(old(AsValue()), AsCached(NonNull(chunks))).0 == AsValue()
    {
      ghost var start, startHistory := AsValue(), history;
      var retained := AsCached(NonNull(chunks));
      AppendAllExtendsHistory(start, base, startHistory, acked, retained);
      var i := 0;
      while i < |retained|
        invariant 0 <= i <= |retained| && Valid() && acked == old(acked)
        invariant sequenceNumber.value == start.next + i && i <= Room(start)
        invariant history == startHistory + retained[..i]
      {
        assert retained[..i + 1] == retained[..i] + [retained[i]];
        var appended := Append(retained[i]);
        if appended.Err? {
          return Err(appended.error);
        }
        i := i + 1;
      }
      return Ok(|retained|);
    }

    method Prune(theirSequenceNumber: int) returns (r: Result<Pruned, PruneError>)
      requires Valid()
      modifies this
      ensures Valid() && history == old(history)
      ensures var inBounds := sequenceNumber.minValue <= theirSequenceNumber <= sequenceNumber.maxValue;
              && (r == Err(InvalidNumber) <==> !inBounds)
              && (r == Err(PruneError.Future) <==> inBounds && sequenceNumber.value < theirSequenceNumber)
              && (r == Err(AlreadyAcknowledged) <==> inBounds && theirSequenceNumber < old(acked))
      ensures r.Err? ==> AsValue() == old(AsValue()) && acked == old(acked) && byteLength == old(byteLength)
      ensures r.Ok? ==>
                && acked == theirSequenceNumber
                && r.value == Pruned(theirSequenceNumber - old(acked), sequenceNumber.value - theirSequenceNumber)
                && r.value.acknowledged + r.value.left == |old(cache)|
                && PrunedBy(old(AsValue()), theirSequenceNumber) == Ok(AsValue())
    {
      hide NonNull, TotalBytes, SumLengths;
      ghost var before := AsValue();
      PruneKeepsWhatFollows(before, base, history, acked, theirSequenceNumber);
      var valid := sequenceNumber.Validate(theirSequenceNumber);
      if valid.Err? {
        return Err(InvalidNumber);
      }
      var beginOffset := theirSequenceNumber - sequenceNumber.value;
      if beginOffset > 0 {
        return Err(PruneError.Future);
      } else if -beginOffset > |cache| {
        return Err(AlreadyAcknowledged);
      }
      var chunkCountBefore := |cache|;
      cache := if beginOffset == 0 then [] else SliceFrom(cache, beginOffset);
      byteLength := SumLengths(NonNull(cache));
      assert byteLength == TotalBytes(cache) by {
        SumsToTotal(cache);
      }
      acked := theirSequenceNumber;
      assert AsValue() == PrunedBy(before, theirSequenceNumber).value;
      return Ok(Pruned(chunkCountBefore + beginOffset, |cache|));
    }
  }

  /** The filter-and-reduce by which `prune` recomputes the size. */
  function SumLengths(payloads: seq<Bytes>): nat {
    if payloads == [] then 0 else SumLengths(payloads[..|payloads| - 1]) + |payloads[|payloads| - 1]|
  }

  lemma {:induction false} SumLengthsIsTotal(chunks: seq<CachedChunk>, n: nat)
    requires n <= |chunks|
    ensures SumLengths(NonNullOfFirst(chunks, n)) == BytesOfFirst(chunks, n)
  {
    if n > 0 {
      SumLengthsIsTotal(chunks, n - 1);
      var init := NonNullOfFirst(chunks, n - 1);
      match chunks[n - 1] {
        case Some(b) => assert (init + [b])[..|init|] == init;
        case None => assert init + [] == init;
      }
    }
  }

  lemma SumsToTotal(chunks: seq<CachedChunk>)
    ensures SumLengths(NonNull(chunks)) == TotalBytes(chunks)
  {
    SumLengthsIsTotal(chunks, |chunks|);
  }
}
