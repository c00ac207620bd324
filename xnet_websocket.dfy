/** pkg/xnet/websocket.go: a websocket connection served by a read loop and
    a write loop. The library frames messages itself, so every message read
    goes to onMsg whole, and every message queued is written as one binary
    frame. Each loop is modelled one pass at a time. */
module XNetWebsocket {
  import opened Wrappers
  import opened Bytes
  import opened XNetCommon
  import opened XNetStream
  import opened XNetDrain

  /** What travels on writeCh. Go's nil slice (None) differs from an empty
      one: the write loop stops when it takes nil. */
  type WsMsg = Option<seq<Byte>>

  /** The reader's exit: onDisconnect(state), then forceClose, which closes
      closeCh only the first time. */
  function WsReaderExit(state: nat, closed: bool): seq<LoopEvent>
  {
    [Disconnected(ConnState(state))] + (if closed then [] else [CloseSignalled])
  }

  /** The writer's exit: a close frame, then conn.Close(). */
  function WsWriterExit(): seq<LoopEvent>
  {
    [CloseFrame, ConnClosed]
  }

  /** What holds between passes: closeCh is closed once and only by
      forceClose, the reader's exit closes it, the writer drains only after
      seeing it, each exit is logged once, and while the writer runs (or
      after it drained) every accepted message was written or is queued. */
  ghost predicate WsInv(state: nat, closed: bool, sawClose: bool, readerDone: bool, end: WriterEnd,
                        events: seq<LoopEvent>, sent: seq<seq<Byte>>, writeCh: seq<WsMsg>, accepted: seq<WsMsg>)
  {
    (sawClose ==> closed) &&
    (end == Drained ==> sawClose) &&
    (readerDone ==> closed) &&
    Count(events, CloseSignalled) == (if closed then 1 else 0) &&
    Count(events, Disconnected(ConnState(state))) == (if readerDone then 1 else 0) &&
    Count(events, ConnClosed) == (if end == Running then 0 else 1) &&
    Count(events, CloseFrame) == Count(events, ConnClosed) &&
    (end == Running || end == Drained ==> Queued(sent) + writeCh == accepted)
  }

  /** Logging the writer's exit adds one close frame and one ConnClosed. */
  lemma WsWriterExitCounts(state: nat, events: seq<LoopEvent>)
    ensures Count(events + WsWriterExit(), CloseSignalled) == Count(events, CloseSignalled)
    ensures Count(events + WsWriterExit(), Disconnected(ConnState(state))) == Count(events, Disconnected(ConnState(state)))
    ensures Count(events + WsWriterExit(), ConnClosed) == Count(events, ConnClosed) + 1
    ensures Count(events + WsWriterExit(), CloseFrame) == Count(events, CloseFrame) + 1
  {
    CountAppend(events, WsWriterExit(), CloseSignalled);
    CountAppend(events, WsWriterExit(), Disconnected(ConnState(state)));
    CountAppend(events, WsWriterExit(), ConnClosed);
    CountAppend(events, WsWriterExit(), CloseFrame);
  }

  lemma WsWriterPassKeepsInv(state: nat, closed: bool, sawClose: bool, readerDone: bool, events: seq<LoopEvent>,
                             sent: seq<seq<Byte>>, writeCh: seq<WsMsg>, accepted: seq<WsMsg>,
                             p: DrainPass<seq<Byte>>)
    requires WsInv(state, closed, sawClose, readerDone, Running, events, sent, writeCh, accepted)
    requires p.end == Drained ==> p.sawClose
    requires p.sawClose ==> closed
    requires p.end == Running || p.end == Drained ==> Queued(p.sent) + p.queue == writeCh
    ensures WsInv(state, closed, p.sawClose, readerDone, p.end,
                  events + (if p.end == Running then [] else WsWriterExit()), sent + p.sent, p.queue, accepted)
  {
    if p.end == Running {
      assert events + [] == events;
    } else {
      WsWriterExitCounts(state, events);
    }
    if p.end == Running || p.end == Drained {
      QueuedAppend(sent, p.sent);
      calc {
        Queued(sent + p.sent) + p.queue;
        Queued(sent) + (Queued(p.sent) + p.queue);
        Queued(sent) + writeCh;
      }
    }
  }

  lemma WsReaderExitKeepsInv(state: nat, closed: bool, sawClose: bool, end: WriterEnd, events: seq<LoopEvent>,
                             sent: seq<seq<Byte>>, writeCh: seq<WsMsg>, accepted: seq<WsMsg>)
    requires WsInv(state, closed, sawClose, false, end, events, sent, writeCh, accepted)
    ensures WsInv(state, true, sawClose, true, end, events + WsReaderExit(state, closed), sent, writeCh, accepted)
  {
    var extra := WsReaderExit(state, closed);
    var first := [Disconnected(ConnState(state))];
    var tail := if closed then [] else [CloseSignalled];
    CountAppend(first, tail, CloseSignalled);
    CountAppend(first, tail, Disconnected(ConnState(state)));
    CountAppend(first, tail, ConnClosed);
    CountAppend(first, tail, CloseFrame);
    CountAppend(events, extra, CloseSignalled);
    CountAppend(events, extra, Disconnected(ConnState(state)));
    CountAppend(events, extra, ConnClosed);
    CountAppend(events, extra, CloseFrame);
  }

  lemma WsForceCloseKeepsInv(state: nat, sawClose: bool, readerDone: bool, end: WriterEnd, events: seq<LoopEvent>,
                             sent: seq<seq<Byte>>, writeCh: seq<WsMsg>, accepted: seq<WsMsg>)
    requires WsInv(state, false, sawClose, readerDone, end, events, sent, writeCh, accepted)
    ensures WsInv(state, true, sawClose, readerDone, end, events + [CloseSignalled], sent, writeCh, accepted)
  {
    CountAppend(events, [CloseSignalled], CloseSignalled);
    CountAppend(events, [CloseSignalled], Disconnected(ConnState(state)));
    CountAppend(events, [CloseSignalled], ConnClosed);
    CountAppend(events, [CloseSignalled], CloseFrame);
  }

  lemma WsSendKeepsInv(state: nat, closed: bool, sawClose: bool, readerDone: bool, end: WriterEnd,
                       events: seq<LoopEvent>, sent: seq<seq<Byte>>, writeCh: seq<WsMsg>, accepted: seq<WsMsg>,
                       msg: WsMsg)
    requires WsInv(state, closed, sawClose, readerDone, end, events, sent, writeCh, accepted)
    ensures WsInv(state, closed, sawClose, readerDone, end, events, sent, writeCh + [msg], accepted + [msg])
  {
    if end == Running || end == Drained {
      assert Queued(sent) + (writeCh + [msg]) == (Queued(sent) + writeCh) + [msg];
    }
  }

  /** A message the reader hands over: none when the read fails or the
      message is over the read limit (SetReadLimit makes ReadMessage fail). */
  function WsReadMessage(r: ReadResult): (m: Option<seq<Byte>>)
    ensures m.Some? <==> r.Received? && |r.data| <= MaxMessageSize
    ensures m.Some? ==> m.value == r.data
  {
    if r.Received? && |r.data| <= MaxMessageSize then Some(r.data) else None
  }

  class Websocket {
    const handler: Handler
    /** What onConnect returned; handed to onMsg and onDisconnect. */
    const state: nat
    /** Messages queued on writeCh, oldest first. */
    var writeCh: seq<WsMsg>
    /** closeCh has been closed (by forceClose). */
    var closed: bool
    /** The write loop's local `close`: it has seen closeCh. */
    var sawClose: bool
    var readerDone: bool
    var writerEnd: WriterEnd
    /** The binary frames written, in order. */
    var sent: seq<seq<Byte>>
    /** Every message handed to onMsg, in order. */
    var delivered: seq<seq<Byte>>
    var events: seq<LoopEvent>
    /** Every message SendMsg accepted, in order. */
    ghost var accepted: seq<WsMsg>

    ghost predicate Valid()
      reads this
    {
      |writeCh| <= WriteChanLimit &&
      WsInv(state, closed, sawClose, readerDone, writerEnd, events, sent, writeCh, accepted)
    }

    /** NewWebsocket followed by the read loop's onConnect. */
    constructor (handler: Handler, state: nat)
      ensures Valid()
      ensures this.handler == handler && this.state == state
      ensures writeCh == [] && sent == [] && delivered == [] && accepted == []
      ensures !closed && !sawClose && !readerDone && writerEnd == Running && events == [Connected]
    {
      this.handler := handler;
      this.state := state;
      writeCh := [];
      closed := false;
      sawClose := false;
      readerDone := false;
      writerEnd := Running;
      sent := [];
      delivered := [];
      events := [Connected];
      accepted := [];
    }

    /** SendMsg: the three-way select on writeCh, closeCh and default. */
    method SendMsg(msg: WsMsg, preferClose: bool) returns (o: SendOutcome)
      requires Valid()
      modifies this
      ensures Valid()
      ensures o == SelectSend(|old(writeCh)|, WriteChanLimit, old(closed), preferClose)
      ensures o == Enqueued ==> writeCh == old(writeCh) + [msg] && accepted == old(accepted) + [msg]
      ensures o != Enqueued ==> writeCh == old(writeCh) && accepted == old(accepted)
      ensures closed == old(closed) && sawClose == old(sawClose) && readerDone == old(readerDone)
      ensures writerEnd == old(writerEnd) && sent == old(sent) && delivered == old(delivered) && events == old(events)
    {
      o := SelectSend(|writeCh|, WriteChanLimit, closed, preferClose);
      if o == Enqueued {
        WsSendKeepsInv(state, closed, sawClose, readerDone, writerEnd, events, sent, writeCh, accepted, msg);
        writeCh := writeCh + [msg];
        accepted := accepted + [msg];
      }
    }

    /** forceClose: closeCh is closed once, whoever calls first. */
    method ForceClose()
      requires Valid()
      modifies this
      ensures Valid()
      ensures closed
      ensures events == old(events) + (if old(closed) then [] else [CloseSignalled])
      ensures writeCh == old(writeCh) && sawClose == old(sawClose) && readerDone == old(readerDone)
      ensures writerEnd == old(writerEnd) && sent == old(sent) && delivered == old(delivered)
      ensures accepted == old(accepted)
    {
      if !closed {
        WsForceCloseKeepsInv(state, sawClose, readerDone, writerEnd, events, sent, writeCh, accepted);
        closed, events := true, events + [CloseSignalled];
      }
    }

    /** One pass of readLoop: a message within the read limit goes to onMsg
        whole; a failed read or a failing handler ends the loop, whose exit
        runs onDisconnect and then forceClose. */
    method ReadStep(r: ReadResult)
      requires Valid() && !readerDone
      modifies this
      ensures Valid()
      ensures var m := WsReadMessage(r);
              (m.Some? ==> delivered == old(delivered) + [m.value] && readerDone == handler(m.value).failed) &&
              (m.None? ==> delivered == old(delivered) && readerDone)
      ensures events == old(events) + (if readerDone then WsReaderExit(state, old(closed)) else [])
      ensures closed == (old(closed) || readerDone)
      ensures writeCh == old(writeCh) && sawClose == old(sawClose) && writerEnd == old(writerEnd)
      ensures sent == old(sent) && accepted == old(accepted)
    {
      var exit := true;
      var m := WsReadMessage(r);
      if m.Some? {
        delivered := delivered + [m.value];
        exit := handler(m.value).failed;
      }
      if exit {
        WsReaderExitKeepsInv(state, closed, sawClose, writerEnd, events, sent, writeCh, accepted);
        closed, readerDone, events := true, true, events + WsReaderExit(state, closed);
      }
    }

    /** One pass of writeLoop; its exit writes a close frame and closes the
        connection. */
    method WriteStep(preferClose: bool, ok: bool) returns (p: DrainPass<seq<Byte>>)
      requires Valid() && writerEnd == Running
      modifies this
      ensures Valid()
      ensures p == DrainWriterPass(old(sawClose), old(writeCh), old(closed), preferClose, ok)
      ensures sawClose == p.sawClose && writeCh == p.queue && sent == old(sent) + p.sent && writerEnd == p.end
      ensures events == old(events) + (if writerEnd == Running then [] else WsWriterExit())
      ensures closed == old(closed) && readerDone == old(readerDone) && delivered == old(delivered)
      ensures accepted == old(accepted)
    {
      p := DrainWriterPass(sawClose, writeCh, closed, preferClose, ok);
      WsWriterPassKeepsInv(state, closed, sawClose, readerDone, events, sent, writeCh, accepted, p);
      sawClose, writeCh, sent, writerEnd, events :=
        p.sawClose, p.queue, sent + p.sent, p.end, events + (if p.end == Running then [] else WsWriterExit());
    }

    /** Close: forceClose, then wait for both loops. The writer, having seen
        closeCh, drains the queue and ends on the first empty poll; its
        conn.Close() makes the reader's next read fail. `writeOks[k]` is the
        outcome of the write in the k-th writer pass (true beyond its end). */
    method Close(writeOks: seq<bool>)
      requires Valid()
      modifies this
      ensures Valid()
      ensures closed && readerDone && writerEnd != Running
      ensures Count(events, CloseSignalled) == 1 && Count(events, ConnClosed) == 1
      ensures old(writerEnd) == Running && None !in old(writeCh) && (forall k | 0 <= k < |writeOks| :: writeOks[k]) ==>
                writerEnd == Drained && writeCh == [] && Queued(sent) == accepted
      ensures accepted == old(accepted)
    {
      ForceClose();
      var k := 0;
      ghost var good := writerEnd == Running && None !in writeCh && (forall j | 0 <= j < |writeOks| :: writeOks[j]);
      while writerEnd == Running
        invariant Valid() && closed
        invariant accepted == old(accepted) && readerDone == old(readerDone)
        invariant good ==> None !in writeCh && (writerEnd == Running || writerEnd == Drained)
        invariant good && writerEnd == Drained ==> writeCh == []
        invariant good ==> (forall j | 0 <= j < |writeOks| :: writeOks[j])
        decreases writerEnd == Running, |writeCh| + (if sawClose then 0 else 1)
      {
        var ok := if k < |writeOks| then writeOks[k] else true;
        ghost var q := writeCh;
        var p := WriteStep(true, ok);
        if good && q != [] {
          assert q[0] in q;
          assert forall m | m in writeCh :: m in q;
        }
        k := k + 1;
      }
      if !readerDone {
        ReadStep(ReadFailed);
      }
    }
  }
}
