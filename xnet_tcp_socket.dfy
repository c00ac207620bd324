/** pkg/xnet/tcp_socket.go: a TCP connection served by a read loop and a
    write loop. Each loop is modelled one pass at a time (ReadStep,
    WriteStep); the random pick of a Go `select` is a parameter. */
module XNetTcpSocket {
  import opened Bytes
  import opened XNetCommon
  import opened XNetBuffer
  import opened XNetStream

  /** The reader's exit: close(closeCh), then onDisconnect(state). */
  function TcpReaderExit(state: nat): seq<LoopEvent>
  {
    [CloseSignalled, Disconnected(ConnState(state))]
  }

  /** The writer's exit: conn.Close(), then releaseFn(sock). */
  function TcpWriterExit(): seq<LoopEvent>
  {
    [ConnClosed, Released]
  }

  /** The callback logs the two loops can leave behind, whichever exits first. */
  ghost predicate TcpLog(events: seq<LoopEvent>, state: nat, readerDone: bool, writerDone: bool)
  {
    if readerDone && writerDone then
      events == [Connected] + TcpReaderExit(state) + TcpWriterExit() ||
      events == [Connected] + TcpWriterExit() + TcpReaderExit(state)
    else if readerDone then events == [Connected] + TcpReaderExit(state)
    else if writerDone then events == [Connected] + TcpWriterExit()
    else events == [Connected]
  }

  /** A batch write the connection settles: it is taken whole or one call
      fails (the write deadline bounds every call). An empty batch is never
      written. */
  ghost predicate TcpSettles(batch: seq<Byte>, attempts: seq<WriteAttempt>)
  {
    batch == [] || WriteSpec(batch, attempts).0 != Stalled
  }

  /** What holds of a TCP socket between passes of its loops: closeCh is
      closed exactly when the reader has exited, the callback log matches
      the loops that have exited, and every accepted byte is on the wire or
      still queued unless a write failed. */
  ghost predicate TcpInv(state: nat, closed: bool, readerDone: bool, writerDone: bool, writeFailed: bool,
                         events: seq<LoopEvent>, wire: seq<Byte>, writeCh: seq<seq<Byte>>, accepted: seq<seq<Byte>>)
  {
    (closed <==> readerDone) &&
    (writeFailed ==> writerDone) &&
    (!writeFailed ==> wire + Concat(writeCh) == Concat(accepted)) &&
    TcpLog(events, state, readerDone, writerDone)
  }

  /** The reader's exit keeps the invariant. */
  lemma TcpReaderExitKeepsInv(state: nat, writerDone: bool, writeFailed: bool, events: seq<LoopEvent>,
                              wire: seq<Byte>, writeCh: seq<seq<Byte>>, accepted: seq<seq<Byte>>)
    requires TcpInv(state, false, false, writerDone, writeFailed, events, wire, writeCh, accepted)
    ensures TcpInv(state, true, true, writerDone, writeFailed, events + TcpReaderExit(state), wire, writeCh, accepted)
  {
    if writerDone {
      assert events + TcpReaderExit(state) == [Connected] + TcpWriterExit() + TcpReaderExit(state);
    } else {
      assert events + TcpReaderExit(state) == [Connected] + TcpReaderExit(state);
    }
  }

  /** One pass of writeLoop after waitMsg returned `batch`: an empty batch
      ends the loop unwritten; otherwise the batch is written and the loop
      ends on an error or once closeCh was seen. */
  function TcpWriterPass(batch: seq<Byte>, attempts: seq<WriteAttempt>, sawClose: bool): (p: WriterPass)
    ensures p.written <= batch
    ensures p.failed ==> p.exit && batch != []
    ensures !p.failed ==> p.written == batch
    ensures batch == [] || sawClose ==> p.exit
  {
    if batch == [] then WriterPass([], true, false)
    else
      var r := WriteSpec(batch, attempts);
      WriterPass(r.1, r.0 != Flushed || sawClose, r.0 != Flushed)
  }

  /** The body of one writeLoop pass: skip an empty batch, write any other. */
  method TcpWrite(batch: seq<Byte>, attempts: seq<WriteAttempt>, sawClose: bool) returns (p: WriterPass)
    ensures p == TcpWriterPass(batch, attempts, sawClose)
  {
    p := WriterPass([], true, false);
    if batch != [] {
      var o, w := WriteAll(batch, attempts);
      p := WriterPass(w, o != Flushed || sawClose, o != Flushed);
    }
  }

  /** One writer pass keeps the invariant: the drained batch is written and
      the writer exits after an empty batch, a failed write or closeCh. */
  lemma TcpWriterPassKeepsInv(state: nat, closed: bool, readerDone: bool, writeFailed: bool, events: seq<LoopEvent>,
                              wire: seq<Byte>, writeCh: seq<seq<Byte>>, accepted: seq<seq<Byte>>,
                              attempts: seq<WriteAttempt>, sawClose: bool)
    requires TcpInv(state, closed, readerDone, false, writeFailed, events, wire, writeCh, accepted)
    ensures var p := TcpWriterPass(Concat(writeCh), attempts, sawClose);
            TcpInv(state, closed, readerDone, p.exit, p.failed,
                   events + (if p.exit then TcpWriterExit() else []), wire + p.written, [], accepted)
  {
    var p := TcpWriterPass(Concat(writeCh), attempts, sawClose);
    if p.exit {
      if readerDone {
        assert events + TcpWriterExit() == [Connected] + TcpReaderExit(state) + TcpWriterExit();
      } else {
        assert events + TcpWriterExit() == [Connected] + TcpWriterExit();
      }
    } else {
      assert events + [] == events;
    }
    assert Concat([]) == [];
  }

  /** An accepted message joins the queue. */
  lemma TcpSendKeepsInv(state: nat, closed: bool, readerDone: bool, writerDone: bool, writeFailed: bool,
                        events: seq<LoopEvent>, wire: seq<Byte>, writeCh: seq<seq<Byte>>, accepted: seq<seq<Byte>>,
                        msg: seq<Byte>)
    requires TcpInv(state, closed, readerDone, writerDone, writeFailed, events, wire, writeCh, accepted)
    ensures TcpInv(state, closed, readerDone, writerDone, writeFailed, events, wire, writeCh + [msg], accepted + [msg])
  {
    ConcatAppend(writeCh, [msg]);
    ConcatAppend(accepted, [msg]);
    ConcatSingle(msg);
    if !writeFailed {
      calc {
        wire + Concat(writeCh + [msg]);
        wire + (Concat(writeCh) + msg);
        (wire + Concat(writeCh)) + msg;
        Concat(accepted + [msg]);
      }
    }
  }

  class TcpSocket {
    const pool: BufferPool
    const handler: Handler
    /** What onConnect returned; handed to onMsg and onDisconnect. */
    const state: nat
    var readCaches: seq<Byte>
    /** Messages queued on writeCh, oldest first. */
    var writeCh: seq<seq<Byte>>
    /** closeCh has been closed. */
    var closed: bool
    var readerDone: bool
    var writerDone: bool
    /** The bytes the connection has taken, in order. */
    var wire: seq<Byte>
    var events: seq<LoopEvent>
    /** Every message SendMsg accepted, in order. */
    ghost var accepted: seq<seq<Byte>>
    ghost var writeFailed: bool

    ghost predicate Valid()
      reads this, pool, pool.shared
    {
      pool.Valid() &&
      |writeCh| <= WriteChanLimit &&
      TcpInv(state, closed, readerDone, writerDone, writeFailed, events, wire, writeCh, accepted)
    }

    /** newTCPSocket followed by the read loop's onConnect. */
    constructor (pool: BufferPool, handler: Handler, state: nat)
      requires pool.Valid()
      ensures Valid()
      ensures this.pool == pool && this.handler == handler && this.state == state
      ensures readCaches == [] && writeCh == [] && wire == [] && accepted == []
      ensures !closed && !readerDone && !writerDone && events == [Connected]
    {
      this.pool := pool;
      this.handler := handler;
      this.state := state;
      readCaches := [];
      writeCh := [];
      closed := false;
      readerDone := false;
      writerDone := false;
      wire := [];
      events := [Connected];
      accepted := [];
      writeFailed := false;
    }

    /** SendMsg: the three-way select on writeCh, closeCh and default. */
    method SendMsg(msg: seq<Byte>, preferClose: bool) returns (o: SendOutcome)
      requires Valid()
      modifies this
      ensures Valid()
      ensures o == SelectSend(|old(writeCh)|, WriteChanLimit, old(closed), preferClose)
      ensures o == Enqueued ==> writeCh == old(writeCh) + [msg] && accepted == old(accepted) + [msg]
      ensures o != Enqueued ==> writeCh == old(writeCh) && accepted == old(accepted)
      ensures readCaches == old(readCaches) && closed == old(closed) && wire == old(wire)
      ensures readerDone == old(readerDone) && writerDone == old(writerDone) && events == old(events)
      ensures writeFailed == old(writeFailed)
    {
      o := SelectSend(|writeCh|, WriteChanLimit, closed, preferClose);
      if o == Enqueued {
        TcpSendKeepsInv(state, closed, readerDone, writerDone, writeFailed, events, wire, writeCh, accepted, msg);
        writeCh := writeCh + [msg];
        accepted := accepted + [msg];
      }
    }

    /** The deferred exit of readLoop. */
    method ExitReader()
      requires Valid() && !readerDone
      modifies this
      ensures Valid()
      ensures readerDone && closed
      ensures events == old(events) + TcpReaderExit(state)
      ensures readCaches == old(readCaches) && writeCh == old(writeCh) && wire == old(wire)
      ensures writerDone == old(writerDone) && accepted == old(accepted) && writeFailed == old(writeFailed)
    {
      TcpReaderExitKeepsInv(state, writerDone, writeFailed, events, wire, writeCh, accepted);
      closed, readerDone, events := true, true, events + TcpReaderExit(state);
    }

    /** One pass of readLoop: take a buffer, read into it, return its unused
        tail to the pool, append what was read to the cache and re-frame.
        `panicked` reports a handler count beyond the cache: the slice
        readCaches[reqCount:] panics, the deferred exit still runs, and the
        re-panic in the wait group's Done ends the process. */
    method ReadStep(r: ReadResult) returns (panicked: bool)
      requires Valid() && !readerDone
      requires r.Received? ==> |r.data| <= ReadBufferSize
      modifies this, pool, pool.shared
      ensures Valid()
      ensures r.Received? ==>
                var R := Reframe(handler, old(readCaches) + r.data);
                readCaches == R.rest && readerDone == (R.stop != NeedMore) &&
                (panicked <==> R.stop == Overclaimed)
      ensures !r.Received? ==> !panicked
      ensures !r.Received? ==> readerDone && readCaches == old(readCaches) && pool.recycled == old(pool.recycled)
      ensures events == old(events) + (if readerDone then TcpReaderExit(state) else [])
      ensures writeCh == old(writeCh) && wire == old(wire) && writerDone == old(writerDone)
      ensures accepted == old(accepted) && writeFailed == old(writeFailed)
    {
      var exit := true;
      panicked := false;
      if r.Received? {
        var rest, stop, spare := ReadPass(pool, handler, readCaches, r.data);
        readCaches := rest;
        exit := stop != NeedMore;
        panicked := stop == Overclaimed;
      } else if !r.DeadlineFailed? {
        DropBuffer(pool);
      }
      if exit {
        ExitReader();
      }
    }

    /** One pass of writeLoop: wait for a message or for closeCh, drain the
        queue into one batch, stop on an empty batch, write the batch, and stop
        after a failed write or once closeCh was seen. */
    method WriteStep(preferClose: bool, attempts: seq<WriteAttempt>) returns (woke: Wake)
      requires Valid() && !writerDone
      requires TcpSettles(Concat(writeCh), attempts)
      modifies this
      ensures Valid()
      ensures woke == SelectWake(|old(writeCh)| > 0, old(closed), preferClose)
      ensures woke == Blocked ==>
                writeCh == old(writeCh) && wire == old(wire) && !writerDone && events == old(events)
      ensures woke != Blocked ==>
                var p := TcpWriterPass(Concat(old(writeCh)), attempts, woke == TookClose);
                writeCh == [] && wire == old(wire) + p.written && writerDone == p.exit && writeFailed == p.failed
      ensures events == old(events) + (if writerDone then TcpWriterExit() else [])
      ensures readCaches == old(readCaches) && closed == old(closed) && readerDone == old(readerDone)
      ensures accepted == old(accepted)
    {
      woke := SelectWake(|writeCh| > 0, closed, preferClose);
      if woke != Blocked {
        WriteBatch(woke == TookClose, attempts);
      }
    }

    /** The queue drained into one batch, written, and the loop left when the
        batch was empty, the write failed or closeCh had been seen. */
    method WriteBatch(sawClose: bool, attempts: seq<WriteAttempt>)
      requires Valid() && !writerDone
      requires TcpSettles(Concat(writeCh), attempts)
      modifies this
      ensures Valid()
      ensures var p := TcpWriterPass(Concat(old(writeCh)), attempts, sawClose);
              writeCh == [] && wire == old(wire) + p.written && writerDone == p.exit && writeFailed == p.failed
      ensures events == old(events) + (if writerDone then TcpWriterExit() else [])
      ensures readCaches == old(readCaches) && closed == old(closed) && readerDone == old(readerDone)
      ensures accepted == old(accepted)
    {
      var p := TcpWrite(Concat(writeCh), attempts, sawClose);
      TcpWriterPassKeepsInv(state, closed, readerDone, writeFailed, events, wire, writeCh, accepted, attempts, sawClose);
      writeCh, wire, writeFailed, writerDone, events :=
        [], wire + p.written, p.failed, p.exit, events + (if p.exit then TcpWriterExit() else []);
    }

    /** Close: conn.CloseRead() ends the read loop, whose closeCh ends the
        write loop after one last batch; wg.Wait() returns when both are
        done. The reader's last pass takes a buffer and its conn.Read returns
        end of stream; the writer is taken to wake on closeCh. */
    method Close(attempts: seq<WriteAttempt>)
      requires Valid()
      requires TcpSettles(Concat(writeCh), attempts)
      modifies this, pool, pool.shared
      ensures Valid()
      ensures readerDone && writerDone && closed
      ensures !old(writerDone) && !writeFailed ==> wire == Concat(accepted)
      ensures accepted == old(accepted)
    {
      if !readerDone {
        var _ := ReadStep(ReadEof);
      }
      if !writerDone {
        var woke := WriteStep(true, attempts);
      }
    }
  }
}
