/** pkg/xnet/kcp_socket.go: a KCP session served by a read loop and a
    write loop, closed through an atomic flag so that closeCh is closed
    exactly once. Each loop is modelled one pass at a time; the random pick
    of a Go `select` is a parameter. */
module XNetKcpSocket {
  import opened Bytes
  import opened XNetCommon
  import opened XNetBuffer
  import opened XNetStream

  const KcpSocketStart: int := 0
  const KcpSocketClose: int := 1

  /** The reader's deferred exit before closeOnce: onDisconnect(state),
      then releaseFn(sock). */
  function KcpReaderExit(state: nat): seq<LoopEvent>
  {
    [Disconnected(ConnState(state)), Released]
  }

  /** Logging the writer's exit adds one ConnClosed and nothing else. */
  lemma ConnClosedCounts(events: seq<LoopEvent>)
    ensures Count(events + [ConnClosed], ConnClosed) == Count(events, ConnClosed) + 1
    ensures Count(events + [ConnClosed], CloseSignalled) == Count(events, CloseSignalled)
    ensures Count(events + [ConnClosed], Released) == Count(events, Released)
  {
    CountAppend(events, [ConnClosed], ConnClosed);
    CountAppend(events, [ConnClosed], CloseSignalled);
    CountAppend(events, [ConnClosed], Released);
  }

  /** closeOnce: the compare-and-swap lets only the first caller close
      closeCh; a later caller does nothing. */
  function CloseOnce(flag: int): (r: (int, bool))
    ensures flag == KcpSocketStart || flag == KcpSocketClose ==> r.0 == KcpSocketClose
    ensures r.1 <==> flag == KcpSocketStart
  {
    if flag == KcpSocketStart then (KcpSocketClose, true) else (flag, false)
  }

  /** However many callers race to close, closeCh is closed once: the first
      call closes it and every later call is a no-op. */
  lemma CloseOnceIdempotent(flag: int)
    ensures CloseOnce(CloseOnce(flag).0) == (CloseOnce(flag).0, false)
  {
  }

  /** What holds of a KCP socket between passes of its loops. */
  ghost predicate KcpInv(closeFlag: int, readerDone: bool, writerDone: bool, writeFailed: bool,
                         events: seq<LoopEvent>, wire: seq<Byte>, writeCh: seq<seq<Byte>>, accepted: seq<seq<Byte>>)
  {
    (closeFlag == KcpSocketStart || closeFlag == KcpSocketClose) &&
    // close(closeCh) runs once, and exactly when the flag is set
    Count(events, CloseSignalled) == (if closeFlag == KcpSocketClose then 1 else 0) &&
    Count(events, Released) == (if readerDone then 1 else 0) &&
    Count(events, ConnClosed) == (if writerDone then 1 else 0) &&
    (readerDone ==> closeFlag == KcpSocketClose) &&
    (writerDone && !writeFailed ==> closeFlag == KcpSocketClose) &&
    (writeFailed ==> writerDone) &&
    // every accepted byte is on the wire or still queued, unless a write failed
    (!writeFailed ==> wire + Concat(writeCh) == Concat(accepted))
  }

  /** One pass of writeLoop after waitMsg returned `batch`: the batch is
      written even when empty, and the loop ends on an error or once closeCh
      was seen. */
  function KcpWriterPass(batch: seq<Byte>, attempts: seq<WriteAttempt>, sawClose: bool): (p: WriterPass)
    ensures p.written <= batch
    ensures p.failed ==> p.exit
    ensures !p.failed ==> p.written == batch
    ensures sawClose ==> p.exit
  {
    var r := WriteSpec(batch, attempts);
    WriterPass(r.1, r.0 != Flushed || sawClose, r.0 != Flushed)
  }

  /** The body of one writeLoop pass: write the batch, even an empty one. */
  method KcpWrite(batch: seq<Byte>, attempts: seq<WriteAttempt>, sawClose: bool) returns (p: WriterPass)
    ensures p == KcpWriterPass(batch, attempts, sawClose)
  {
    var o, w := WriteAll(batch, attempts);
    p := WriterPass(w, o != Flushed || sawClose, o != Flushed);
  }

  /** One writer pass keeps the invariant: the drained batch is written,
      and the writer exits after a failed write or after seeing closeCh. */
  lemma WriterPassKeepsInv(closeFlag: int, readerDone: bool, writeFailed: bool, events: seq<LoopEvent>,
                           wire: seq<Byte>, writeCh: seq<seq<Byte>>, accepted: seq<seq<Byte>>,
                           attempts: seq<WriteAttempt>, sawClose: bool)
    requires KcpInv(closeFlag, readerDone, false, writeFailed, events, wire, writeCh, accepted)
    requires sawClose ==> closeFlag == KcpSocketClose
    ensures var p := KcpWriterPass(Concat(writeCh), attempts, sawClose);
            KcpInv(closeFlag, readerDone, p.exit, p.failed, events + (if p.exit then [ConnClosed] else []),
                   wire + p.written, [], accepted)
  {
    var p := KcpWriterPass(Concat(writeCh), attempts, sawClose);
    if p.exit {
      ConnClosedCounts(events);
    } else {
      assert events + [] == events;
    }
    assert Concat([]) == [];
  }

  /** The reader's exit keeps the invariant: onDisconnect and releaseFn are
      logged once, and closeOnce closes closeCh unless Close got there first. */
  lemma ReaderExitKeepsInv(closeFlag: int, writerDone: bool, writeFailed: bool, events: seq<LoopEvent>,
                           wire: seq<Byte>, writeCh: seq<seq<Byte>>, accepted: seq<seq<Byte>>, state: nat)
    requires KcpInv(closeFlag, false, writerDone, writeFailed, events, wire, writeCh, accepted)
    ensures KcpInv(KcpSocketClose, true, writerDone, writeFailed,
                   events + KcpReaderExit(state) + (if closeFlag == KcpSocketStart then [CloseSignalled] else []),
                   wire, writeCh, accepted)
  {
    var extra := if closeFlag == KcpSocketStart then [CloseSignalled] else [];
    var exit := KcpReaderExit(state) + extra;
    assert events + KcpReaderExit(state) + extra == events + exit;
    CountAppend(KcpReaderExit(state), extra, CloseSignalled);
    CountAppend(KcpReaderExit(state), extra, Released);
    CountAppend(KcpReaderExit(state), extra, ConnClosed);
    CountAppend(events, exit, CloseSignalled);
    CountAppend(events, exit, Released);
    CountAppend(events, exit, ConnClosed);
  }

  /** closeOnce from Close keeps the invariant: closeCh is signalled only by
      the call that sets the flag. */
  lemma CloseOnceKeepsInv(closeFlag: int, readerDone: bool, writerDone: bool, writeFailed: bool,
                          events: seq<LoopEvent>, wire: seq<Byte>, writeCh: seq<seq<Byte>>, accepted: seq<seq<Byte>>)
    requires KcpInv(closeFlag, readerDone, writerDone, writeFailed, events, wire, writeCh, accepted)
    ensures KcpInv(KcpSocketClose, readerDone, writerDone, writeFailed,
                   events + (if closeFlag == KcpSocketStart then [CloseSignalled] else []),
                   wire, writeCh, accepted)
  {
    var extra := if closeFlag == KcpSocketStart then [CloseSignalled] else [];
    CountAppend(events, extra, CloseSignalled);
    CountAppend(events, extra, Released);
    CountAppend(events, extra, ConnClosed);
  }

  /** An accepted message joins the queue, so every accepted byte is still
      on the wire or queued. */
  lemma SendKeepsInv(closeFlag: int, readerDone: bool, writerDone: bool, writeFailed: bool,
                     events: seq<LoopEvent>, wire: seq<Byte>, writeCh: seq<seq<Byte>>, accepted: seq<seq<Byte>>,
                     msg: seq<Byte>)
    requires KcpInv(closeFlag, readerDone, writerDone, writeFailed, events, wire, writeCh, accepted)
    ensures KcpInv(closeFlag, readerDone, writerDone, writeFailed, events, wire, writeCh + [msg], accepted + [msg])
  {
    ConcatAppend(writeCh, [msg]);
    ConcatAppend(accepted, [msg]);
    ConcatSingle(msg);
    if !writeFailed {
      calc {
        wire + Concat(writeCh + [msg]);
        wire + (Concat(writeCh) + msg);
        (wire + Concat(writeCh)) + msg;
        Concat(accepted + [msg]);
      }
    }
  }

  class KcpSocket {
    const pool: BufferPool
    const handler: Handler
    /** What onConnect returned; handed to onMsg and onDisconnect. */
    const state: nat
    var readCaches: seq<Byte>
    /** Messages queued on writeCh, oldest first. */
    var writeCh: seq<seq<Byte>>
    var closeFlag: int
    var readerDone: bool
    var writerDone: bool
    /** The bytes the session has taken, in order. */
    var wire: seq<Byte>
    var events: seq<LoopEvent>
    /** Every message SendMsg accepted, in order. */
    ghost var accepted: seq<seq<Byte>>
    ghost var writeFailed: bool

    ghost predicate Valid()
      reads this, pool, pool.shared
    {
      pool.Valid() &&
      |writeCh| <= WriteChanLimit &&
      KcpInv(closeFlag, readerDone, writerDone, writeFailed, events, wire, writeCh, accepted)
    }

    /** newKCPSocket followed by the read loop's onConnect. */
    constructor (pool: BufferPool, handler: Handler, state: nat)
      requires pool.Valid()
      ensures Valid()
      ensures this.pool == pool && this.handler == handler && this.state == state
      ensures readCaches == [] && writeCh == [] && wire == [] && accepted == []
      ensures closeFlag == KcpSocketStart && !readerDone && !writerDone && events == [Connected]
    {
      this.pool := pool;
      this.handler := handler;
      this.state := state;
      readCaches := [];
      writeCh := [];
      closeFlag := KcpSocketStart;
      readerDone := false;
      writerDone := false;
      wire := [];
      events := [Connected];
      accepted := [];
      writeFailed := false;
    }

    /** SendMsg: the three-way select on writeCh, closeCh and default. */
    method SendMsg(msg: seq<Byte>, preferClose: bool) returns (o: SendOutcome)
      requires Valid()
      modifies this
      ensures Valid()
      ensures o == SelectSend(|old(writeCh)|, WriteChanLimit, old(closeFlag) == KcpSocketClose, preferClose)
      ensures o == Enqueued ==> writeCh == old(writeCh) + [msg] && accepted == old(accepted) + [msg]
      ensures o != Enqueued ==> writeCh == old(writeCh) && accepted == old(accepted)
      ensures readCaches == old(readCaches) && closeFlag == old(closeFlag) && wire == old(wire)
      ensures readerDone == old(readerDone) && writerDone == old(writerDone) && events == old(events)
      ensures writeFailed == old(writeFailed)
    {
      o := SelectSend(|writeCh|, WriteChanLimit, closeFlag == KcpSocketClose, preferClose);
      if o == Enqueued {
        SendKeepsInv(closeFlag, readerDone, writerDone, writeFailed, events, wire, writeCh, accepted, msg);
        writeCh := writeCh + [msg];
        accepted := accepted + [msg];
      }
    }

    /** closeOnce, called by Close and by the reader's exit. */
    method CloseOnceStep()
      requires Valid()
      modifies this
      ensures Valid()
      ensures (closeFlag, events != old(events)) == CloseOnce(old(closeFlag))
      ensures events == old(events) + (if old(closeFlag) == KcpSocketStart then [CloseSignalled] else [])
      ensures readCaches == old(readCaches) && writeCh == old(writeCh) && wire == old(wire)
      ensures readerDone == old(readerDone) && writerDone == old(writerDone)
      ensures accepted == old(accepted) && writeFailed == old(writeFailed)
    {
      var (flag, won) := CloseOnce(closeFlag);
      CloseOnceKeepsInv(closeFlag, readerDone, writerDone, writeFailed, events, wire, writeCh, accepted);
      closeFlag, events := flag, events + (if won then [CloseSignalled] else []);
    }

    /** The deferred exit of readLoop: onDisconnect, releaseFn, closeOnce. */
    method ExitReader()
      requires Valid() && !readerDone
      modifies this
      ensures Valid()
      ensures readerDone && closeFlag == KcpSocketClose
      ensures events == old(events) + KcpReaderExit(state) +
                        (if old(closeFlag) == KcpSocketStart then [CloseSignalled] else [])
      ensures readCaches == old(readCaches) && writeCh == old(writeCh) && wire == old(wire)
      ensures writerDone == old(writerDone) && accepted == old(accepted) && writeFailed == old(writeFailed)
    {
      var (flag, won) := CloseOnce(closeFlag);
      ReaderExitKeepsInv(closeFlag, writerDone, writeFailed, events, wire, writeCh, accepted, state);
      closeFlag, readerDone, events :=
        flag, true, events + KcpReaderExit(state) + (if won then [CloseSignalled] else []);
    }

    /** One pass of readLoop. Data read after the close flag was set is
        dropped together with its buffer, and so is a failed read's buffer.
        `panicked` reports a handler count beyond the cache: the slice
        readCaches[reqCount:] panics, the deferred exit still runs, and the
        re-panic in the wait group's Done ends the process. */
    method ReadStep(r: ReadResult) returns (panicked: bool)
      requires Valid() && !readerDone
      requires r.Received? ==> |r.data| <= ReadBufferSize
      modifies this, pool, pool.shared
      ensures Valid()
      ensures r.Received? && old(closeFlag) == KcpSocketStart ==>
                var R := Reframe(handler, old(readCaches) + r.data);
                readCaches == R.rest && readerDone == (R.stop != NeedMore) &&
                (panicked <==> R.stop == Overclaimed)
      ensures !(r.Received? && old(closeFlag) == KcpSocketStart) ==>
                readerDone && readCaches == old(readCaches) && pool.recycled == old(pool.recycled) && !panicked
      ensures readerDone ==> closeFlag == KcpSocketClose
      ensures events == old(events) +
                        (if readerDone then KcpReaderExit(state) else []) +
                        (if readerDone && old(closeFlag) == KcpSocketStart then [CloseSignalled] else [])
      ensures writeCh == old(writeCh) && wire == old(wire) && writerDone == old(writerDone)
      ensures accepted == old(accepted) && writeFailed == old(writeFailed)
    {
      var exit := true;
      panicked := false;
      if r.Received? && closeFlag == KcpSocketStart {
        var rest, stop, spare := ReadPass(pool, handler, readCaches, r.data);
        readCaches := rest;
        exit := stop != NeedMore;
        panicked := stop == Overclaimed;
      } else if !r.DeadlineFailed? {
        DropBuffer(pool);
      }
      if exit {
        ExitReader();
      }
    }

    /** One pass of writeLoop: wait for a message or for closeCh, drain the
        queue into one batch and write it, even when it is empty; stop after
        a failed write or once closeCh was seen. */
    method WriteStep(preferClose: bool, attempts: seq<WriteAttempt>) returns (woke: Wake)
      requires Valid() && !writerDone
      requires WriteSpec(Concat(writeCh), attempts).0 != Stalled
      modifies this
      ensures Valid()
      ensures woke == SelectWake(|old(writeCh)| > 0, old(closeFlag) == KcpSocketClose, preferClose)
      ensures woke == Blocked ==>
                writeCh == old(writeCh) && wire == old(wire) && !writerDone && events == old(events)
      ensures woke != Blocked ==>
                var p := KcpWriterPass(Concat(old(writeCh)), attempts, woke == TookClose);
                writeCh == [] && wire == old(wire) + p.written && writerDone == p.exit && writeFailed == p.failed
      ensures events == old(events) + (if writerDone then [ConnClosed] else [])
      ensures readCaches == old(readCaches) && closeFlag == old(closeFlag) && readerDone == old(readerDone)
      ensures accepted == old(accepted)
    {
      woke := SelectWake(|writeCh| > 0, closeFlag == KcpSocketClose, preferClose);
      if woke != Blocked {
        WriteBatch(woke == TookClose, attempts);
      }
    }

    /** The queue drained into one batch and written; the loop is left when
        the write failed or closeCh had been seen. */
    method WriteBatch(sawClose: bool, attempts: seq<WriteAttempt>)
      requires Valid() && !writerDone
      requires sawClose ==> closeFlag == KcpSocketClose
      requires WriteSpec(Concat(writeCh), attempts).0 != Stalled
      modifies this
      ensures Valid()
      ensures var p := KcpWriterPass(Concat(old(writeCh)), attempts, sawClose);
              writeCh == [] && wire == old(wire) + p.written && writerDone == p.exit && writeFailed == p.failed
      ensures events == old(events) + (if writerDone then [ConnClosed] else [])
      ensures readCaches == old(readCaches) && closeFlag == old(closeFlag) && readerDone == old(readerDone)
      ensures accepted == old(accepted)
    {
      var p := KcpWrite(Concat(writeCh), attempts, sawClose);
      WriterPassKeepsInv(closeFlag, readerDone, writeFailed, events, wire, writeCh, accepted, attempts, sawClose);
      writeCh, wire, writeFailed, writerDone, events :=
        [], wire + p.written, p.failed, p.exit, events + (if p.exit then [ConnClosed] else []);
    }

    /** Close: closeOnce, then wg.Wait(). The writer wakes on closeCh, writes
        the last batch and closes the session, whose closed pipe then fails
        the reader's next conn.Read. */
    method Close(attempts: seq<WriteAttempt>)
      requires Valid()
      requires WriteSpec(Concat(writeCh), attempts).0 != Stalled
      modifies this, pool, pool.shared
      ensures Valid()
      ensures readerDone && writerDone && closeFlag == KcpSocketClose
      ensures Count(events, CloseSignalled) == 1
      ensures !old(writerDone) && !writeFailed ==> wire == Concat(accepted)
      ensures accepted == old(accepted)
    {
      CloseOnceStep();
      if !writerDone {
        var woke := WriteStep(true, attempts);
      }
      if !readerDone {
        var _ := ReadStep(ReadFailed);
      }
    }
  }
}
