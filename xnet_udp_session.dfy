/** pkg/xnet/udp_session.go: one peer's logical conversation over a shared
    UDP socket. The socket's reader pushes the peer's datagrams into a
    bounded queue (recvMsg); the session's handler loop hands them to onMsg
    one at a time, in order; replies go out through the shared socket. */
module XNetUdpSession {
  import opened Wrappers
  import opened Bytes
  import opened XNetCommon
  import opened XNetUdpSocket

  /** The idle test of both sweeps: a session is expired when its last
      activity is strictly before `now` minus the timeout, in seconds. */
  function Expired(activeAt: int, now: int): (b: bool)
    ensures b <==> now - activeAt > UdpSessionTimeout
  {
    activeAt < now - UdpSessionTimeout
  }

  /** The handler loop's exit: onDisconnect, which receives the session
      itself rather than the state onConnect returned. */
  function SessionExit(): seq<LoopEvent>
  {
    [Disconnected(SessionItself)]
  }

  /** What holds between passes: closeCh is closed once, the handler loop's
      exit is logged once, and the messages handed to onMsg followed by those
      still queued are exactly the ones recvMsg accepted, in order. */
  ghost predicate SessionInv(closed: bool, handlerDone: bool, events: seq<LoopEvent>,
                             delivered: seq<seq<Byte>>, msgCh: seq<seq<Byte>>, received: seq<seq<Byte>>)
  {
    Count(events, CloseSignalled) == (if closed then 1 else 0) &&
    Count(events, Disconnected(SessionItself)) == (if handlerDone then 1 else 0) &&
    delivered + msgCh == received
  }

  lemma SessionExitKeepsInv(closed: bool, events: seq<LoopEvent>,
                            delivered: seq<seq<Byte>>, msgCh: seq<seq<Byte>>, received: seq<seq<Byte>>)
    requires SessionInv(closed, false, events, delivered, msgCh, received)
    ensures SessionInv(closed, true, events + SessionExit(), delivered, msgCh, received)
  {
    CountAppend(events, SessionExit(), CloseSignalled);
    CountAppend(events, SessionExit(), Disconnected(SessionItself));
  }

  lemma SessionCloseKeepsInv(handlerDone: bool, events: seq<LoopEvent>,
                             delivered: seq<seq<Byte>>, msgCh: seq<seq<Byte>>, received: seq<seq<Byte>>)
    requires SessionInv(false, handlerDone, events, delivered, msgCh, received)
    ensures SessionInv(true, handlerDone, events + [CloseSignalled], delivered, msgCh, received)
  {
    CountAppend(events, [CloseSignalled], CloseSignalled);
    CountAppend(events, [CloseSignalled], Disconnected(SessionItself));
  }

  /** Taking the head of the queue and handing it to onMsg keeps the order. */
  lemma SessionTakeKeepsInv(closed: bool, handlerDone: bool, events: seq<LoopEvent>,
                            delivered: seq<seq<Byte>>, msgCh: seq<seq<Byte>>, received: seq<seq<Byte>>)
    requires SessionInv(closed, handlerDone, events, delivered, msgCh, received)
    requires msgCh != []
    ensures SessionInv(closed, handlerDone, events, delivered + [msgCh[0]], msgCh[1..], received)
  {
    assert delivered + [msgCh[0]] + msgCh[1..] == delivered + msgCh;
  }

  class UdpSession {
    const addr: UdpAddr
    /** The shared socket replies are queued on (sendMsg). */
    const sock: UdpSocket
    const handler: Handler
    /** What onConnect returned; handed to onMsg. */
    const state: nat
    /** Unix seconds of the last datagram recvMsg queued. */
    var activeAt: int
    /** Datagram payloads queued on msgCh, oldest first. */
    var msgCh: seq<seq<Byte>>
    /** closeCh has been closed (by forceClose). */
    var closed: bool
    var handlerDone: bool
    /** Every payload handed to onMsg, in order. */
    var delivered: seq<seq<Byte>>
    var events: seq<LoopEvent>
    /** Every payload recvMsg accepted, in order. */
    ghost var received: seq<seq<Byte>>

    ghost predicate Valid()
      reads this
    {
      |msgCh| <= UdpMsgChanLimit &&
      SessionInv(closed, handlerDone, events, delivered, msgCh, received)
    }

    /** NewUDPSession followed by the handler loop's onConnect. */
    constructor (addr: UdpAddr, sock: UdpSocket, handler: Handler, state: nat, now: int)
      ensures Valid()
      ensures this.addr == addr && this.sock == sock && this.handler == handler && this.state == state
      ensures activeAt == now && msgCh == [] && delivered == [] && received == []
      ensures !closed && !handlerDone && events == [Connected]
    {
      this.addr := addr;
      this.sock := sock;
      this.handler := handler;
      this.state := state;
      activeAt := now;
      msgCh := [];
      closed := false;
      handlerDone := false;
      delivered := [];
      events := [Connected];
      received := [];
    }

    /** recvMsg: the three-way select on msgCh, closeCh and default; only a
        queued datagram refreshes activeAt. */
    method RecvMsg(msg: seq<Byte>, now: int, preferClose: bool) returns (o: SendOutcome)
      requires Valid()
      modifies this
      ensures Valid()
      ensures o == SelectSend(|old(msgCh)|, UdpMsgChanLimit, old(closed), preferClose)
      ensures o == Enqueued ==> msgCh == old(msgCh) + [msg] && received == old(received) + [msg] && activeAt == now
      ensures o != Enqueued ==> msgCh == old(msgCh) && received == old(received) && activeAt == old(activeAt)
      ensures closed == old(closed) && handlerDone == old(handlerDone) && delivered == old(delivered)
      ensures events == old(events)
    {
      o := SelectSend(|msgCh|, UdpMsgChanLimit, closed, preferClose);
      if o == Enqueued {
        assert delivered + (msgCh + [msg]) == (delivered + msgCh) + [msg];
        msgCh, received, activeAt := msgCh + [msg], received + [msg], now;
      }
    }

    /** forceClose: closeCh is closed once, whoever calls first. */
    method ForceClose()
      requires Valid()
      modifies this
      ensures Valid()
      ensures closed
      ensures events == old(events) + (if old(closed) then [] else [CloseSignalled])
      ensures msgCh == old(msgCh) && handlerDone == old(handlerDone) && delivered == old(delivered)
      ensures activeAt == old(activeAt) && received == old(received)
    {
      if !closed {
        SessionCloseKeepsInv(handlerDone, events, delivered, msgCh, received);
        closed, events := true, events + [CloseSignalled];
      }
    }

    /** One pass of handlerLoop: wait for a message or closeCh; closeCh ends
        the loop, a message goes to onMsg and a handler error ends the loop.
        The loop's exit runs onDisconnect but does not close closeCh. */
    method HandlerStep(preferClose: bool) returns (w: Wake)
      requires Valid() && !handlerDone
      modifies this
      ensures Valid()
      ensures w == SelectWake(|old(msgCh)| > 0, old(closed), preferClose)
      ensures w == TookMsg ==> delivered == old(delivered) + [old(msgCh)[0]] && msgCh == old(msgCh)[1..] &&
                               handlerDone == handler(old(msgCh)[0]).failed
      ensures w != TookMsg ==> delivered == old(delivered) && msgCh == old(msgCh) && handlerDone == (w == TookClose)
      ensures events == old(events) + (if handlerDone then SessionExit() else [])
      ensures closed == old(closed) && activeAt == old(activeAt) && received == old(received)
    {
      w := SelectWake(|msgCh| > 0, closed, preferClose);
      var exit := w == TookClose;
      if w == TookMsg {
        SessionTakeKeepsInv(closed, handlerDone, events, delivered, msgCh, received);
        exit := handler(msgCh[0]).failed;
        delivered, msgCh := delivered + [msgCh[0]], msgCh[1..];
      }
      if exit {
        SessionExitKeepsInv(closed, events, delivered, msgCh, received);
        handlerDone, events := true, events + SessionExit();
      }
    }

    /** Close: forceClose, then wait for the handler loop, which is taken to
        pick closeCh. Every datagram accepted but not yet handled stays queued. */
    method Close()
      requires Valid()
      modifies this
      ensures Valid()
      ensures closed && handlerDone
      ensures Count(events, CloseSignalled) == 1 && Count(events, Disconnected(SessionItself)) == 1
      ensures delivered == old(delivered) && msgCh == old(msgCh) && received == old(received)
      ensures activeAt == old(activeAt)
    {
      ForceClose();
      if !handlerDone {
        var w := HandlerStep(true);
      }
    }

    /** SendMsg: the payload, addressed to this session's peer, is offered to
        the shared socket's write queue. */
    method SendMsg(msg: seq<Byte>, preferClose: bool) returns (o: SendOutcome)
      requires sock.Valid()
      modifies sock
      ensures sock.Valid()
      ensures o == SelectSend(|old(sock.writeCh)|, UdpWriteChanLimit, old(sock.closed), preferClose)
      ensures o == Enqueued ==> sock.writeCh == old(sock.writeCh) + [Some(Datagram(msg, addr))]
      ensures o != Enqueued ==> sock.writeCh == old(sock.writeCh)
      ensures sock.closed == old(sock.closed) && sock.sent == old(sock.sent) && sock.events == old(sock.events)
    {
      o := sock.SendMsg(Some(Datagram(msg, addr)), preferClose);
    }
  }
}
