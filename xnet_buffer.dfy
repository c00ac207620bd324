/** pkg/xnet/buffer.go: the shared pool of read buffers and the per-socket
    bufferPool that recycles leftover bytes into it. */
module XNetBuffer {
  import opened Bytes
  import opened XNetCommon

  /** A buffer made by the pool's New function: readBufferSize zero bytes. */
  function FreshBuffer(): (b: seq<Byte>)
    ensures |b| == ReadBufferSize
  {
    seq(ReadBufferSize, _ => 0)
  }

  /** The readBufferSize-long chunks that can be cut, in order, from the
      front of s. */
  function Chunks(s: seq<Byte>): seq<seq<Byte>>
    decreases |s|
  {
    if |s| < ReadBufferSize then [] else [s[..ReadBufferSize]] + Chunks(s[ReadBufferSize..])
  }

  /** What remains of s after its chunks are cut off. */
  function Leftover(s: seq<Byte>): seq<Byte>
    decreases |s|
  {
    if |s| < ReadBufferSize then s else Leftover(s[ReadBufferSize..])
  }

  /** Every buffer held by a pool is readBufferSize long. */
  ghost predicate PooledFullSize(items: multiset<seq<Byte>>)
  {
    forall b | b in items :: |b| == ReadBufferSize
  }

  predicate AllFullSize(bs: seq<seq<Byte>>)
  {
    forall i :: 0 <= i < |bs| ==> |bs[i]| == ReadBufferSize
  }

  /** Cutting loses and duplicates nothing, every chunk is full size and
      less than one buffer's worth is left over. */
  lemma {:induction false} ChunksSplit(s: seq<Byte>)
    ensures Concat(Chunks(s)) + Leftover(s) == s
    ensures AllFullSize(Chunks(s))
    ensures |Leftover(s)| < ReadBufferSize
    ensures |Chunks(s)| == |s| / ReadBufferSize
    decreases |s|
  {
    if |s| >= ReadBufferSize {
      var t := s[ReadBufferSize..];
      ChunksSplit(t);
      ConcatAppend([s[..ReadBufferSize]], Chunks(t));
      ConcatSingle(s[..ReadBufferSize]);
      assert s == s[..ReadBufferSize] + t;
    }
  }

  /** The state of a bufferPool is determined by the bytes it was given:
      with full-size chunks and less than a buffer's worth cached, the chunks
      pooled are exactly Chunks(recycled) and the cache is Leftover(recycled). */
  lemma {:induction false} PoolStateDetermined(pushed: seq<seq<Byte>>, cache: seq<Byte>, recycled: seq<Byte>)
    requires AllFullSize(pushed) && |cache| < ReadBufferSize
    requires Concat(pushed) + cache == recycled
    ensures pushed == Chunks(recycled) && cache == Leftover(recycled)
    decreases |pushed|
  {
    if pushed != [] {
      var p := pushed[0];
      var tail := Concat(pushed[1..]) + cache;
      assert recycled == p + tail;
      assert recycled[..ReadBufferSize] == p && recycled[ReadBufferSize..] == tail;
      PoolStateDetermined(pushed[1..], cache, tail);
      assert pushed == [p] + pushed[1..];
    }
  }

  /** sync.Pool: the buffers handed back by every bufferPool of one manager. */
  class SharedPool {
    var items: multiset<seq<Byte>>

    /** Every pooled buffer is exactly readBufferSize long. */
    ghost predicate Valid()
      reads this
    {
      PooledFullSize(items)
    }

    /** newBufferManager: an empty pool whose New makes readBufferSize buffers. */
    constructor ()
      ensures Valid() && items == multiset{}
    {
      items := multiset{};
    }
  }

  /** bufferPool: a single-goroutine front end to the shared pool. */
  class BufferPool {
    const shared: SharedPool
    var cache: seq<Byte>
    /** The chunks this bufferPool has returned to the shared pool, in order. */
    ghost var pushed: seq<seq<Byte>>
    /** Every byte ever given to put, in order. */
    ghost var recycled: seq<Byte>

    ghost predicate Valid()
      reads this, shared
    {
      shared.Valid() &&
      AllFullSize(pushed) &&
      |cache| < ReadBufferSize &&
      Concat(pushed) + cache == recycled
    }

    /** newBufferPool: an empty cache in front of the manager's pool. */
    constructor (shared: SharedPool)
      requires shared.Valid()
      ensures Valid() && this.shared == shared
      ensures cache == [] && pushed == [] && recycled == []
    {
      this.shared := shared;
      cache := [];
      pushed := [];
      recycled := [];
    }

    /** get: a pooled buffer if there is one, otherwise a fresh one. */
    method Get() returns (b: seq<Byte>)
      requires Valid()
      modifies shared
      ensures Valid()
      ensures |b| == ReadBufferSize
      ensures old(shared.items) == multiset{} ==> b == FreshBuffer() && shared.items == multiset{}
      ensures old(shared.items) != multiset{} ==>
                b in old(shared.items) && shared.items == old(shared.items) - multiset{b}
    {
      if shared.items == multiset{} {
        b := FreshBuffer();
      } else {
        b :| b in shared.items;
        shared.items := shared.items - multiset{b};
      }
    }

    /** put, with the loop advancing past each chunk it pools (see
        PutLoopAsWritten for the loop exactly as buffer.go has it). */
    method Put(data: seq<Byte>)
      requires Valid()
      modifies this, shared
      ensures Valid()
      ensures recycled == old(recycled) + data
      ensures |old(pushed)| <= |pushed| && pushed[..|old(pushed)|] == old(pushed)
      ensures shared.items == old(shared.items) + multiset(pushed[|old(pushed)|..])
    {
      var all := cache + data;
      PutKeepsAccount(pushed, cache, data, recycled);
      var rest, items := PoolChunks(all, shared.items);
      shared.items := items;
      ghost var before := pushed;
      pushed := pushed + Chunks(all);
      assert pushed[|before|..] == Chunks(all);
      cache := rest;
      recycled := recycled + data;
    }
  }

  /** The pool after the chunks of s are put into it one by one. */
  ghost function PoolInto(items: multiset<seq<Byte>>, s: seq<Byte>): multiset<seq<Byte>>
    decreases |s|
  {
    if |s| < ReadBufferSize then items else PoolInto(items + multiset{s[..ReadBufferSize]}, s[ReadBufferSize..])
  }

  lemma {:induction false} PoolIntoChunks(items: multiset<seq<Byte>>, s: seq<Byte>)
    ensures PoolInto(items, s) == items + multiset(Chunks(s))
    decreases |s|
  {
    if |s| >= ReadBufferSize {
      PoolIntoChunks(items + multiset{s[..ReadBufferSize]}, s[ReadBufferSize..]);
      PutStep(s);
    }
  }

  /** The corrected loop of put: pool readBufferSize-long chunks cut from the
      front of `all` until less than one buffer's worth remains. */
  method PoolChunks(all: seq<Byte>, items0: multiset<seq<Byte>>) returns (rest: seq<Byte>, items: multiset<seq<Byte>>)
    requires PooledFullSize(items0)
    ensures PooledFullSize(items)
    ensures rest == Leftover(all) && |rest| < ReadBufferSize
    ensures items == items0 + multiset(Chunks(all))
  {
    rest := all;
    items := items0;
    while |rest| >= ReadBufferSize
      invariant PoolInto(items, rest) == PoolInto(items0, all)
      invariant Leftover(rest) == Leftover(all)
      decreases |rest|
    {
      items := items + multiset{rest[..ReadBufferSize]};
      rest := rest[ReadBufferSize..];
    }
    PoolIntoChunks(items0, all);
    ChunksSplit(all);
    PoolAddFullSize(items0, Chunks(all));
  }

  lemma PoolAddFullSize(items0: multiset<seq<Byte>>, cs: seq<seq<Byte>>)
    requires PooledFullSize(items0)
    requires AllFullSize(cs)
    ensures PooledFullSize(items0 + multiset(cs))
  {
    forall b | b in items0 + multiset(cs)
      ensures |b| == ReadBufferSize
    {
      if b !in items0 {
        assert b in multiset(cs);
        assert b in cs;
      }
    }
  }

  /** After put, the pooled chunks and the cache still account for every
      byte put so far. */
  lemma PutKeepsAccount(before: seq<seq<Byte>>, cache: seq<Byte>, data: seq<Byte>, recycled: seq<Byte>)
    requires AllFullSize(before) && Concat(before) + cache == recycled
    ensures AllFullSize(before + Chunks(cache + data))
    ensures Concat(before + Chunks(cache + data)) + Leftover(cache + data) == recycled + data
  {
    var all := cache + data;
    ChunksSplit(all);
    ConcatAppend(before, Chunks(all));
    assert forall i :: 0 <= i < |Chunks(all)| ==> (before + Chunks(all))[|before| + i] == Chunks(all)[i];
    assert Concat(before + Chunks(all)) + Leftover(all) == Concat(before) + (Concat(Chunks(all)) + Leftover(all));
  }

  /** One pass of the corrected put loop, as facts about the spec functions. */
  lemma PutStep(cache: seq<Byte>)
    requires |cache| >= ReadBufferSize
    ensures Chunks(cache) == [cache[..ReadBufferSize]] + Chunks(cache[ReadBufferSize..])
    ensures Leftover(cache) == Leftover(cache[ReadBufferSize..])
    ensures cache == cache[..ReadBufferSize] + cache[ReadBufferSize..]
    ensures multiset(Chunks(cache)) == multiset{cache[..ReadBufferSize]} + multiset(Chunks(cache[ReadBufferSize..]))
  {
  }

  /** The put loop exactly as buffer.go writes it, run for k passes: each pass
      pools the front readBufferSize bytes but never shortens the cache. */
  function PutLoopAsWritten(cache: seq<Byte>, items: multiset<seq<Byte>>, k: nat): (r: (seq<Byte>, multiset<seq<Byte>>))
    requires |cache| >= ReadBufferSize
    decreases k
  {
    if k == 0 then (cache, items)
    else PutLoopAsWritten(cache, items + multiset{cache[..ReadBufferSize]}, k - 1)
  }

  /** Once the cache holds readBufferSize bytes the as-written loop makes no
      progress: after any number of passes its guard still holds, the cache
      is unchanged and the same chunk has been pooled once per pass. */
  lemma {:induction false} PutAsWrittenNeverTerminates(cache: seq<Byte>, items: multiset<seq<Byte>>, k: nat)
    requires |cache| >= ReadBufferSize
    ensures PutLoopAsWritten(cache, items, k).0 == cache
    ensures |PutLoopAsWritten(cache, items, k).0| >= ReadBufferSize
    ensures PutLoopAsWritten(cache, items, k).1[cache[..ReadBufferSize]] == items[cache[..ReadBufferSize]] + k
    decreases k
  {
    if k > 0 {
      PutAsWrittenNeverTerminates(cache, items + multiset{cache[..ReadBufferSize]}, k - 1);
    }
  }

  /** Below readBufferSize the as-written loop does not run, so it and Put
      agree: nothing reaches the pool and the bytes stay in the cache. */
  lemma ShortPutPoolsNothing(cache: seq<Byte>, data: seq<Byte>)
    requires |cache + data| < ReadBufferSize
    ensures Chunks(cache + data) == [] && Leftover(cache + data) == cache + data
  {
  }
}
