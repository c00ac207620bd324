/** The read and write loops that pkg/xnet/tcp_socket.go and
    pkg/xnet/kcp_socket.go share line for line: re-framing the read cache
    with the handler, and writing one batch until the connection took it all. */
module XNetStream {
  import opened Bytes
  import opened XNetCommon
  import opened XNetBuffer

  /** How one pass of a read loop began: SetReadDeadline failed before a
      buffer was taken, or conn.Read into a pooled buffer delivered data, end
      of stream or an error (a read timeout is an error). */
  datatype ReadResult = DeadlineFailed | Received(data: seq<Byte>) | ReadEof | ReadFailed

  /** Why re-framing stopped: the handler asked for more data, returned an
      error, or claimed more bytes than the cache holds (the slice
      readCaches[reqCount:] then panics). */
  datatype Stop = NeedMore | HandlerFailed | Overclaimed

  /** The outcome of re-framing a read cache: the frames the handler took,
      in order, what is left in the cache, and why the loop stopped. */
  datatype Reframed = Reframed(frames: seq<seq<Byte>>, rest: seq<Byte>, stop: Stop)

  /** The inner loop of readLoop: call the handler on the whole cache; an
      error ends the loop, a count of 0 keeps the cache, any other count
      cuts that many bytes off the front and repeats. */
  function Reframe(h: Handler, cache: seq<Byte>): (r: Reframed)
    decreases |cache|
  {
    var o := h(cache);
    if o.failed then Reframed([], cache, HandlerFailed)
    else if o.count == 0 then Reframed([], cache, NeedMore)
    else if o.count > |cache| then Reframed([], cache, Overclaimed)
    else
      var r := Reframe(h, cache[o.count..]);
      Reframed([cache[..o.count]] + r.frames, r.rest, r.stop)
  }

  predicate AllNonEmpty(frames: seq<seq<Byte>>)
  {
    forall i :: 0 <= i < |frames| ==> |frames[i]| > 0
  }

  /** Re-framing loses and duplicates no byte: the frames and the rest, put
      back together, are the cache. */
  lemma {:induction false} ReframeConserves(h: Handler, cache: seq<Byte>)
    ensures Concat(Reframe(h, cache).frames) + Reframe(h, cache).rest == cache
    decreases |cache|
  {
    var o := h(cache);
    if !o.failed && o.count != 0 && o.count <= |cache| {
      var head := cache[..o.count];
      var tail := cache[o.count..];
      var r := Reframe(h, tail);
      ReframeConserves(h, tail);
      assert Reframe(h, cache).frames == [head] + r.frames;
      ConcatAppend([head], r.frames);
      ConcatSingle(head);
      assert cache == head + tail;
    }
  }

  /** Every frame is non-empty, and the loop stops exactly where the handler
      erred, asked for more, or claimed too much. */
  lemma {:induction false} ReframeStops(h: Handler, cache: seq<Byte>)
    ensures AllNonEmpty(Reframe(h, cache).frames)
    ensures var r := Reframe(h, cache);
            (r.stop == HandlerFailed <==> h(r.rest).failed) &&
            (r.stop == NeedMore <==> h(r.rest) == Handled(0, false)) &&
            (r.stop == Overclaimed <==> !h(r.rest).failed && h(r.rest).count > |r.rest|)
    decreases |cache|
  {
    var o := h(cache);
    if !o.failed && o.count != 0 && o.count <= |cache| {
      ReframeStops(h, cache[o.count..]);
    }
  }

  /** A handler that keeps the OnHandlerOnce contract never makes readLoop
      panic. */
  lemma FramingHandlerNeverOverclaims(h: Handler, cache: seq<Byte>)
    requires FramingContract(h)
    ensures Reframe(h, cache).stop != Overclaimed
  {
    ReframeStops(h, cache);
  }

  /** A handler that never claims a frame leaves the cache as it is. */
  lemma ReframeNeedMore(h: Handler, cache: seq<Byte>)
    requires h(cache) == Handled(0, false)
    ensures Reframe(h, cache) == Reframed([], cache, NeedMore)
  {
  }

  /** The inner loop of readLoop: the handler is called on what is left of
      the cache until it errs, asks for more or claims too much; the frames it
      took come back in order, ready to be returned to the bufferPool (see
      RecycleFrames). */
  method ReframeLoop(h: Handler, cache: seq<Byte>) returns (frames: seq<seq<Byte>>, rest: seq<Byte>, stop: Stop)
    ensures Reframed(frames, rest, stop) == Reframe(h, cache)
  {
    rest := cache;
    frames := [];
    var o := h(rest);
    while !o.failed && o.count != 0 && o.count <= |rest|
      invariant o == h(rest)
      invariant frames + Reframe(h, rest).frames == Reframe(h, cache).frames
      invariant Reframe(h, rest).rest == Reframe(h, cache).rest
      invariant Reframe(h, rest).stop == Reframe(h, cache).stop
      decreases |rest|
    {
      var frame := rest[..o.count];
      ReframeUnfold(h, rest, frames);
      frames := frames + [frame];
      rest := rest[o.count..];
      o := h(rest);
    }
    stop := if o.failed then HandlerFailed else if o.count == 0 then NeedMore else Overclaimed;
    assert frames + [] == Reframe(h, cache).frames;
  }

  lemma ReframeUnfold(h: Handler, c: seq<Byte>, done: seq<seq<Byte>>)
    requires !h(c).failed && 0 < h(c).count <= |c|
    ensures done + Reframe(h, c).frames == (done + [c[..h(c).count]]) + Reframe(h, c[h(c).count..]).frames
    ensures Reframe(h, c).rest == Reframe(h, c[h(c).count..]).rest
    ensures Reframe(h, c).stop == Reframe(h, c[h(c).count..]).stop
  {
    var k := h(c).count;
    var r := Reframe(h, c[k..]);
    assert Reframe(h, c) == Reframed([c[..k]] + r.frames, r.rest, r.stop);
    assert done + ([c[..k]] + r.frames) == (done + [c[..k]]) + r.frames;
  }

  /** readBufferPool.put of each consumed frame, in order. */
  method RecycleFrames(pool: BufferPool, frames: seq<seq<Byte>>)
    requires pool.Valid()
    modifies pool, pool.shared
    ensures pool.Valid()
    ensures pool.recycled == old(pool.recycled) + Concat(frames)
  {
    for i := 0 to |frames|
      invariant pool.Valid()
      invariant pool.recycled == old(pool.recycled) + Concat(frames[..i])
    {
      pool.Put(frames[i]);
      RecycleStep(old(pool.recycled), frames[..i], frames[i]);
      assert frames[..i + 1] == frames[..i] + [frames[i]];
    }
    assert frames[..|frames|] == frames;
  }

  lemma RecycleStep(base: seq<Byte>, done: seq<seq<Byte>>, frame: seq<Byte>)
    ensures base + Concat(done) + frame == base + Concat(done + [frame])
  {
    ConcatAppend(done, [frame]);
    ConcatSingle(frame);
  }

  /** The body of one readLoop pass after a read of `data`: take a buffer
      from the pool, hand its unused tail back, append what was read to the
      cache, re-frame, and give every consumed frame back to the pool. */
  method ReadPass(pool: BufferPool, h: Handler, cache: seq<Byte>, data: seq<Byte>) returns (rest: seq<Byte>, stop: Stop, ghost spare: seq<Byte>)
    requires pool.Valid()
    requires |data| <= ReadBufferSize
    modifies pool, pool.shared
    ensures pool.Valid()
    ensures rest == Reframe(h, cache + data).rest && stop == Reframe(h, cache + data).stop
    ensures |spare| == ReadBufferSize - |data|
    ensures pool.recycled == old(pool.recycled) + spare + Concat(Reframe(h, cache + data).frames)
  {
    var buf := pool.Get();
    pool.Put(buf[|data|..]);
    spare := buf[|data|..];
    var frames;
    frames, rest, stop := ReframeLoop(h, cache + data);
    RecycleFrames(pool, frames);
  }

  /** A pass whose conn.Read failed: the buffer taken for it is dropped,
      not handed back to the pool. */
  method DropBuffer(pool: BufferPool)
    requires pool.Valid()
    modifies pool.shared
    ensures pool.Valid()
    ensures old(pool.shared.items) != multiset{} ==> |pool.shared.items| == |old(pool.shared.items)| - 1
    ensures old(pool.shared.items) == multiset{} ==> pool.shared.items == multiset{}
  {
    var lost := pool.Get();
  }

  /** What one conn.Write call did: took the first n bytes, or took the
      first n bytes and then failed (a deadline that expires mid-message). A
      failed SetWriteDeadline is WriteFailed(0). */
  datatype WriteAttempt = Wrote(n: nat) | WriteFailed(n: nat)

  /** How a batch write ended. Stalled means the attempts ran out before the
      batch was taken and no call failed. */
  datatype WriteOutcome = Flushed | WriteError | Stalled

  /** write(msg): repeat conn.Write on what is left until one call takes it
      all or one fails. Returns the outcome and the bytes the connection took. */
  function WriteSpec(msg: seq<Byte>, attempts: seq<WriteAttempt>): (r: (WriteOutcome, seq<Byte>))
    ensures r.1 <= msg
    ensures r.0 == Stalled ==> |r.1| < |msg| || msg == []
    ensures r.0 == Flushed ==> r.1 == msg
    decreases |attempts|
  {
    if |attempts| == 0 then (Stalled, [])
    else match attempts[0]
      case WriteFailed(n) => (WriteError, msg[..if n < |msg| then n else |msg|])
      case Wrote(n) =>
        if n >= |msg| then (Flushed, msg)
        else
          var r := WriteSpec(msg[n..], attempts[1..]);
          assert msg == msg[..n] + msg[n..];
          (r.0, msg[..n] + r.1)
  }

  /** What one pass of a write loop did: the bytes the connection took,
      whether the loop exits, and whether it exits on a write error. */
  datatype WriterPass = WriterPass(written: seq<Byte>, exit: bool, failed: bool)

  /** A connection that takes every call whole flushes in one call. */
  lemma WholeWriteFlushes(msg: seq<Byte>, rest: seq<WriteAttempt>)
    ensures WriteSpec(msg, [Wrote(|msg|)] + rest) == (Flushed, msg)
  {
  }

  /** Partial writes resume where the previous call stopped: two calls that
      together take the batch flush it. */
  lemma SplitWriteFlushes(msg: seq<Byte>, k: nat)
    requires 0 < k < |msg|
    ensures WriteSpec(msg, [Wrote(k), Wrote(|msg| - k)]) == (Flushed, msg)
  {
    assert msg == msg[..k] + msg[k..];
  }

  /** A call that fails after taking some bytes still leaves them with the
      connection: the reported prefix counts them. */
  lemma {:induction false} FailedWriteKeepsTaken(msg: seq<Byte>, k: nat, n: nat)
    requires k < |msg| && n <= |msg| - k
    ensures WriteSpec(msg, [Wrote(k), WriteFailed(n)]) == (WriteError, msg[..k + n])
  {
    var r := WriteSpec(msg[k..], [WriteFailed(n)]);
    assert [Wrote(k), WriteFailed(n)][1..] == [WriteFailed(n)];
    assert r == (WriteError, msg[k..][..n]);
    assert msg[..k] + msg[k..][..n] == msg[..k + n];
  }

  /** The loop of write(msg). */
  method WriteAll(msg: seq<Byte>, attempts: seq<WriteAttempt>) returns (outcome: WriteOutcome, written: seq<Byte>)
    ensures (outcome, written) == WriteSpec(msg, attempts)
  {
    var left := msg;
    var i := 0;
    written := [];
    while true
      invariant 0 <= i <= |attempts|
      invariant WriteSpec(msg, attempts).0 == WriteSpec(left, attempts[i..]).0
      invariant WriteSpec(msg, attempts).1 == written + WriteSpec(left, attempts[i..]).1
      decreases |attempts| - i
    {
      if i == |attempts| {
        outcome := Stalled;
        assert attempts[i..] == [] && written + [] == written;
        return;
      }
      assert attempts[i..][1..] == attempts[i + 1..];
      match attempts[i]
      case WriteFailed(n) =>
        outcome := WriteError;
        written := written + left[..if n < |left| then n else |left|];
        return;
      case Wrote(n) =>
        if n >= |left| {
          outcome := Flushed;
          written := written + left;
          return;
        }
        written := written + left[..n];
        left := left[n..];
        i := i + 1;
    }
  }
}
