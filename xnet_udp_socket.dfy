/** pkg/xnet/udp_socket.go: the one UDP socket a server or client owns. Its
    read loop hands every datagram with its sender to onMsg; its write loop
    drains a queue of datagrams, also after the close channel. Each loop is
    modelled one pass at a time. */
module XNetUdpSocket {
  import opened Wrappers
  import opened Bytes
  import opened XNetCommon
  import opened XNetDrain

  /** A peer address. addrToString keys the session maps and is taken to be
      one-to-one, so the address itself is the key. */
  datatype UdpAddr = UdpAddr(ip: seq<Byte>, port: nat)

  /** udpDatagram: a payload and the address it came from or goes to. */
  datatype Datagram = Datagram(msg: seq<Byte>, addr: UdpAddr)

  /** The write queue holds ten times writeChanLimit datagrams. */
  const UdpWriteChanLimit: nat := WriteChanLimit * 10

  /** What one ReadFromUDP returns: a datagram and its sender, or an error
      (net.ErrClosed once the write loop has closed the connection). */
  datatype UdpRead = Arrived(payload: seq<Byte>, from: UdpAddr) | UdpReadFailed

  /** The datagram onMsg receives: ReadFromUDP fills a fresh buffer of
      readBufferSize bytes, so a longer datagram arrives cut to that size. */
  function Received(r: UdpRead): (d: Option<Datagram>)
    ensures d.Some? <==> r.Arrived?
    ensures d.Some? ==> d.value.addr == r.from && d.value.msg <= r.payload
    ensures d.Some? ==> |d.value.msg| == if |r.payload| <= ReadBufferSize then |r.payload| else ReadBufferSize
  {
    match r
    case Arrived(payload, from) =>
      Some(Datagram(if |payload| <= ReadBufferSize then payload else payload[..ReadBufferSize], from))
    case UdpReadFailed => None
  }

  /** Where a written datagram goes: a server socket sends it to its address
      (WriteToUDP), a client socket, connected by DialUDP, to its one peer
      (Write), whatever the address says. */
  datatype Outgoing = ToAddr(msg: seq<Byte>, addr: UdpAddr) | ToPeer(msg: seq<Byte>)

  function Outbound(isServer: bool, sent: seq<Datagram>): (w: seq<Outgoing>)
    ensures |w| == |sent|
    ensures forall i | 0 <= i < |w| :: w[i].msg == sent[i].msg && (w[i].ToAddr? <==> isServer)
    ensures isServer ==> forall i | 0 <= i < |w| :: w[i].addr == sent[i].addr
  {
    if sent == [] then []
    else [if isServer then ToAddr(sent[0].msg, sent[0].addr) else ToPeer(sent[0].msg)] + Outbound(isServer, sent[1..])
  }

  /** The reader's exit: forceClose, which closes closeCh only the first time. */
  function UdpReaderExit(closed: bool): seq<LoopEvent>
  {
    if closed then [] else [CloseSignalled]
  }

  /** What holds between passes: closeCh is closed once, the reader's exit
      closes it, the writer drains only after seeing it, the writer's
      conn.Close() is logged once, and while the writer runs (or after it
      drained) every accepted datagram was written or is queued. */
  ghost predicate UdpInv(closed: bool, sawClose: bool, readerDone: bool, end: WriterEnd, events: seq<LoopEvent>,
                         sent: seq<Datagram>, writeCh: seq<Option<Datagram>>, accepted: seq<Option<Datagram>>)
  {
    (sawClose ==> closed) &&
    (end == Drained ==> sawClose) &&
    (readerDone ==> closed) &&
    Count(events, CloseSignalled) == (if closed then 1 else 0) &&
    Count(events, ConnClosed) == (if end == Running then 0 else 1) &&
    (end == Running || end == Drained ==> Queued(sent) + writeCh == accepted)
  }

  lemma UdpWriterPassKeepsInv(closed: bool, sawClose: bool, readerDone: bool, events: seq<LoopEvent>,
                              sent: seq<Datagram>, writeCh: seq<Option<Datagram>>, accepted: seq<Option<Datagram>>,
                              p: DrainPass<Datagram>)
    requires UdpInv(closed, sawClose, readerDone, Running, events, sent, writeCh, accepted)
    requires p.end == Drained ==> p.sawClose
    requires p.sawClose ==> closed
    requires p.end == Running || p.end == Drained ==> Queued(p.sent) + p.queue == writeCh
    ensures UdpInv(closed, p.sawClose, readerDone, p.end,
                   events + (if p.end == Running then [] else [ConnClosed]), sent + p.sent, p.queue, accepted)
  {
    if p.end == Running {
      assert events + [] == events;
    } else {
      CountAppend(events, [ConnClosed], CloseSignalled);
      CountAppend(events, [ConnClosed], ConnClosed);
    }
    if p.end == Running || p.end == Drained {
      QueuedAppend(sent, p.sent);
      calc {
        Queued(sent + p.sent) + p.queue;
        Queued(sent) + (Queued(p.sent) + p.queue);
        Queued(sent) + writeCh;
      }
    }
  }

  lemma UdpForceCloseKeepsInv(closed: bool, sawClose: bool, readerDone: bool, end: WriterEnd, events: seq<LoopEvent>,
                              sent: seq<Datagram>, writeCh: seq<Option<Datagram>>, accepted: seq<Option<Datagram>>)
    requires UdpInv(closed, sawClose, readerDone, end, events, sent, writeCh, accepted)
    ensures UdpInv(true, sawClose, readerDone, end, events + UdpReaderExit(closed), sent, writeCh, accepted)
  {
    if closed {
      assert events + UdpReaderExit(closed) == events;
    } else {
      CountAppend(events, [CloseSignalled], CloseSignalled);
      CountAppend(events, [CloseSignalled], ConnClosed);
    }
  }

  lemma UdpSendKeepsInv(closed: bool, sawClose: bool, readerDone: bool, end: WriterEnd, events: seq<LoopEvent>,
                        sent: seq<Datagram>, writeCh: seq<Option<Datagram>>, accepted: seq<Option<Datagram>>,
                        d: Option<Datagram>)
    requires UdpInv(closed, sawClose, readerDone, end, events, sent, writeCh, accepted)
    ensures UdpInv(closed, sawClose, readerDone, end, events, sent, writeCh + [d], accepted + [d])
  {
    if end == Running || end == Drained {
      assert Queued(sent) + (writeCh + [d]) == (Queued(sent) + writeCh) + [d];
    }
  }

  class UdpSocket {
    const isServer: bool
    /** Datagrams queued on writeCh, oldest first; a nil entry is None. */
    var writeCh: seq<Option<Datagram>>
    /** closeCh has been closed (by forceClose). */
    var closed: bool
    /** The write loop's local `close`: it has seen closeCh. */
    var sawClose: bool
    var readerDone: bool
    var writerEnd: WriterEnd
    /** The datagrams written, in order. */
    var sent: seq<Datagram>
    /** Every datagram handed to onMsg, in order. */
    var delivered: seq<Datagram>
    var events: seq<LoopEvent>
    /** Every datagram sendMsg accepted, in order. */
    ghost var accepted: seq<Option<Datagram>>

    ghost predicate Valid()
      reads this
    {
      |writeCh| <= UdpWriteChanLimit &&
      UdpInv(closed, sawClose, readerDone, writerEnd, events, sent, writeCh, accepted)
    }

    /** What the connection has taken, as addressed by this socket. */
    function Wire(): (w: seq<Outgoing>)
      reads this
      ensures |w| == |sent|
    {
      Outbound(isServer, sent)
    }

    /** NewUDPSocket. */
    constructor (isServer: bool)
      ensures Valid()
      ensures this.isServer == isServer
      ensures writeCh == [] && sent == [] && delivered == [] && accepted == [] && events == []
      ensures !closed && !sawClose && !readerDone && writerEnd == Running
    {
      this.isServer := isServer;
      writeCh := [];
      closed := false;
      sawClose := false;
      readerDone := false;
      writerEnd := Running;
      sent := [];
      delivered := [];
      events := [];
      accepted := [];
    }

    /** sendMsg: the three-way select on writeCh, closeCh and default. */
    method SendMsg(d: Option<Datagram>, preferClose: bool) returns (o: SendOutcome)
      requires Valid()
      modifies this
      ensures Valid()
      ensures o == SelectSend(|old(writeCh)|, UdpWriteChanLimit, old(closed), preferClose)
      ensures o == Enqueued ==> writeCh == old(writeCh) + [d] && accepted == old(accepted) + [d]
      ensures o != Enqueued ==> writeCh == old(writeCh) && accepted == old(accepted)
      ensures closed == old(closed) && sawClose == old(sawClose) && readerDone == old(readerDone)
      ensures writerEnd == old(writerEnd) && sent == old(sent) && delivered == old(delivered) && events == old(events)
    {
      o := SelectSend(|writeCh|, UdpWriteChanLimit, closed, preferClose);
      if o == Enqueued {
        UdpSendKeepsInv(closed, sawClose, readerDone, writerEnd, events, sent, writeCh, accepted, d);
        writeCh := writeCh + [d];
        accepted := accepted + [d];
      }
    }

    /** forceClose: closeCh is closed once, whoever calls first. */
    method ForceClose()
      requires Valid()
      modifies this
      ensures Valid()
      ensures closed
      ensures events == old(events) + UdpReaderExit(old(closed))
      ensures writeCh == old(writeCh) && sawClose == old(sawClose) && readerDone == old(readerDone)
      ensures writerEnd == old(writerEnd) && sent == old(sent) && delivered == old(delivered)
      ensures accepted == old(accepted)
    {
      UdpForceCloseKeepsInv(closed, sawClose, readerDone, writerEnd, events, sent, writeCh, accepted);
      closed, events := true, events + UdpReaderExit(closed);
    }

    /** One pass of readLoop: a datagram goes to onMsg (returned here for the
        owner to dispatch) and the loop goes on; a failed read ends the loop,
        whose exit runs forceClose. */
    method ReadStep(r: UdpRead) returns (d: Option<Datagram>)
      requires Valid() && !readerDone
      modifies this
      ensures Valid()
      ensures d == Received(r)
      ensures d.Some? ==> delivered == old(delivered) + [d.value] && !readerDone && events == old(events)
      ensures d.None? ==> delivered == old(delivered) && readerDone && closed &&
                          events == old(events) + UdpReaderExit(old(closed))
      ensures d.Some? ==> closed == old(closed)
      ensures writeCh == old(writeCh) && sawClose == old(sawClose) && writerEnd == old(writerEnd)
      ensures sent == old(sent) && accepted == old(accepted)
    {
      d := Received(r);
      if d.Some? {
        delivered := delivered + [d.value];
      } else {
        ForceClose();
        readerDone := true;
      }
    }

    /** One pass of writeLoop; its exit closes the connection. */
    method WriteStep(preferClose: bool, ok: bool) returns (p: DrainPass<Datagram>)
      requires Valid() && writerEnd == Running
      modifies this
      ensures Valid()
      ensures p == DrainWriterPass(old(sawClose), old(writeCh), old(closed), preferClose, ok)
      ensures sawClose == p.sawClose && writeCh == p.queue && sent == old(sent) + p.sent && writerEnd == p.end
      ensures events == old(events) + (if writerEnd == Running then [] else [ConnClosed])
      ensures closed == old(closed) && readerDone == old(readerDone) && delivered == old(delivered)
      ensures accepted == old(accepted)
    {
      p := DrainWriterPass(sawClose, writeCh, closed, preferClose, ok);
      UdpWriterPassKeepsInv(closed, sawClose, readerDone, events, sent, writeCh, accepted, p);
      sawClose, writeCh, sent, writerEnd, events :=
        p.sawClose, p.queue, sent + p.sent, p.end, events + (if p.end == Running then [] else [ConnClosed]);
    }

    /** close: forceClose, then wait for both loops. The writer, having seen
        closeCh, drains the queue and ends on the first empty poll; its
        conn.Close() makes the reader's next read fail. `writeOks[k]` is the
        outcome of the write in the k-th writer pass (true beyond its end). */
    method Close(writeOks: seq<bool>)
      requires Valid()
      modifies this
      ensures Valid()
      ensures closed && readerDone && writerEnd != Running
      ensures Count(events, CloseSignalled) == 1 && Count(events, ConnClosed) == 1
      ensures old(writerEnd) == Running && None !in old(writeCh) && (forall k | 0 <= k < |writeOks| :: writeOks[k]) ==>
                writerEnd == Drained && writeCh == [] && Queued(sent) == accepted
      ensures accepted == old(accepted)
    {
      ForceClose();
      var k := 0;
      ghost var good := writerEnd == Running && None !in writeCh && (forall j | 0 <= j < |writeOks| :: writeOks[j]);
      while writerEnd == Running
        invariant Valid() && closed
        invariant accepted == old(accepted) && readerDone == old(readerDone)
        invariant good ==> None !in writeCh && (writerEnd == Running || writerEnd == Drained)
        invariant good && writerEnd == Drained ==> writeCh == []
        invariant good ==> (forall j | 0 <= j < |writeOks| :: writeOks[j])
        decreases writerEnd == Running, |writeCh| + (if sawClose then 0 else 1)
      {
        var ok := if k < |writeOks| then writeOks[k] else true;
        ghost var q := writeCh;
        var p := WriteStep(true, ok);
        if good && q != [] {
          assert q[0] in q;
          assert forall m | m in writeCh :: m in q;
        }
        k := k + 1;
      }
      if !readerDone {
        var d := ReadStep(UdpReadFailed);
      }
    }
  }
}
