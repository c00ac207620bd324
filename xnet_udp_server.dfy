/** pkg/xnet/udp_server.go: one listening UDP socket multiplexed into
    per-peer sessions. The first datagram from an unseen address creates its
    session; later ones reuse it; a periodic sweep drops sessions idle for
    longer than the timeout. */
module XNetUdpServer {
  import opened Wrappers
  import opened Bytes
  import opened XNetCommon
  import opened XNetUdpSocket
  import opened XNetUdpSession
  import XNetDrain

  /** The addresses a sweep at `now` finds idle. */
  function ExpiredAddrs(sessions: map<UdpAddr, int>, now: int): (e: set<UdpAddr>)
    ensures forall a :: a in e <==> a in sessions && Expired(sessions[a], now)
  {
    set a | a in sessions && Expired(sessions[a], now)
  }

  /** session.Close() on each of a set of sessions, in any order. */
  method CloseAll(victims: set<UdpSession>)
    requires forall s | s in victims :: s.Valid()
    modifies victims
    ensures forall s | s in victims :: s.Valid() && s.closed && s.handlerDone
  {
    var todo := victims;
    while todo != {}
      invariant todo <= victims
      invariant forall s | s in victims :: s.Valid()
      invariant forall s | s in victims - todo :: s.closed && s.handlerDone
      decreases todo
    {
      var s :| s in todo;
      s.Close();
      todo := todo - {s};
    }
  }

  class UdpServer {
    const sock: UdpSocket
    const handler: Handler
    /** The session map, keyed by peer address. */
    var sessions: map<UdpAddr, UdpSession>
    /** svr.closeCh has been closed. */
    var closed: bool
    /** The sweep loop (checkLoop) has ended. */
    var checkDone: bool

    ghost predicate Valid()
      reads this, sock, sessions.Values
    {
      sock.Valid() && sock.isServer &&
      (checkDone ==> closed) &&
      forall a | a in sessions ::
        sessions[a].addr == a && sessions[a].sock == sock && sessions[a].handler == handler && sessions[a].Valid()
    }

    /** Every session's last-activity time, by address. */
    function ActiveAt(): (m: map<UdpAddr, int>)
      reads this, sessions.Values
      ensures m.Keys == sessions.Keys
      ensures forall a | a in m :: m[a] == sessions[a].activeAt
    {
      map a | a in sessions :: sessions[a].activeAt
    }

    /** NewUDPServer, once the address resolved and the socket is listening. */
    constructor (handler: Handler)
      ensures Valid() && fresh(sock)
      ensures this.handler == handler && sessions == map[] && !closed && !checkDone
      ensures sock.writeCh == [] && !sock.closed && sock.events == []
    {
      this.handler := handler;
      sock := new UdpSocket(true);
      sessions := map[];
      closed := false;
      checkDone := false;
    }

    /** udpOnMsg: find the sender's session, creating it (with the state
        onConnect returns) when the address is new, and queue the payload on
        it. A failed recvMsg is only logged. */
    method OnMsg(d: Datagram, now: int, state: nat, preferClose: bool) returns (o: SendOutcome, created: bool)
      requires Valid()
      modifies this, sessions.Values
      ensures Valid()
      ensures created <==> d.addr !in old(sessions)
      ensures d.addr in sessions && sessions == old(sessions)[d.addr := sessions[d.addr]]
      ensures forall a | a in old(sessions) && a != d.addr :: unchanged(sessions[a])
      ensures created ==> fresh(sessions[d.addr]) && sessions[d.addr].state == state &&
                          sessions[d.addr].events == [Connected] && sessions[d.addr].delivered == []
      ensures created ==> o == SelectSend(0, UdpMsgChanLimit, false, preferClose)
      ensures !created ==> o == SelectSend(|old(sessions[d.addr].msgCh)|, UdpMsgChanLimit, old(sessions[d.addr].closed), preferClose)
      ensures o == Enqueued || created ==> sessions[d.addr].activeAt == now
      ensures o != Enqueued && !created ==> sessions[d.addr].activeAt == old(sessions[d.addr].activeAt)
      ensures o == Enqueued && created ==> sessions[d.addr].received == [d.msg]
      ensures o == Enqueued && !created ==> sessions[d.addr].received == old(sessions[d.addr].received) + [d.msg]
      ensures closed == old(closed) && checkDone == old(checkDone)
    {
      var s;
      s, created := SessionFor(d.addr, now, state);
      o := s.RecvMsg(d.msg, now, preferClose);
    }

    /** getSession, and on a miss NewUDPSession plus addSession. */
    method SessionFor(addr: UdpAddr, now: int, state: nat) returns (s: UdpSession, created: bool)
      requires Valid()
      modifies this
      ensures Valid()
      ensures created <==> addr !in old(sessions)
      ensures sessions == old(sessions)[addr := s] && s.Valid()
      ensures !created ==> s == old(sessions)[addr]
      ensures created ==> fresh(s) && s.state == state && s.activeAt == now && s.msgCh == [] && !s.closed &&
                          s.events == [Connected] && s.delivered == [] && s.received == []
      ensures closed == old(closed) && checkDone == old(checkDone)
    {
      created := addr !in sessions;
      if created {
        s := new UdpSession(addr, sock, handler, state, now);
        sessions := sessions[addr := s];
      } else {
        s := sessions[addr];
      }
    }

    /** One sweep of checkLoop as written: every session idle past the
        timeout is removed from the map, and nothing else is done to it, so
        its handler loop and closeCh are left as they were. */
    method SweepAsWritten(now: int) returns (expired: set<UdpAddr>)
      requires Valid()
      modifies this
      ensures Valid()
      ensures expired == ExpiredAddrs(old(ActiveAt()), now)
      ensures sessions == old(sessions) - expired
      ensures forall a | a in expired :: unchanged(old(sessions)[a])
      ensures closed == old(closed) && checkDone == old(checkDone)
    {
      expired := ExpiredAddrs(ActiveAt(), now);
      sessions := sessions - expired;
    }

    /** One sweep as evidently intended: every session idle past the timeout
        is removed and closed, so its handler loop ends and onDisconnect runs. */
    method Sweep(now: int) returns (expired: set<UdpAddr>)
      requires Valid()
      modifies this, sessions.Values
      ensures Valid()
      ensures expired == ExpiredAddrs(old(ActiveAt()), now)
      ensures sessions == old(sessions) - expired
      ensures forall a | a in expired :: old(sessions)[a].closed && old(sessions)[a].handlerDone
      ensures forall a | a in sessions :: unchanged(sessions[a])
      ensures closed == old(closed) && checkDone == old(checkDone)
    {
      expired := ExpiredAddrs(ActiveAt(), now);
      var victims := set a | a in expired :: sessions[a];
      assert forall a | a in sessions && a !in expired :: sessions[a] !in victims;
      sessions := sessions - expired;
      CloseAll(victims);
    }

    /** One pass of checkLoop: the ticker and svr.closeCh race (`preferClose`
        is the pick when both are ready); the closed channel ends the loop,
        the ticker runs a sweep. */
    method CheckStep(now: int, preferClose: bool) returns (expired: set<UdpAddr>)
      requires Valid() && !checkDone
      modifies this, sessions.Values
      ensures Valid()
      ensures checkDone <==> old(closed) && preferClose
      ensures checkDone ==> expired == {} && sessions == old(sessions)
      ensures !checkDone ==> expired == ExpiredAddrs(old(ActiveAt()), now) && sessions == old(sessions) - expired
      ensures forall a | a in expired :: old(sessions)[a].closed && old(sessions)[a].handlerDone
      ensures forall a | a in sessions :: unchanged(sessions[a])
      ensures closed == old(closed)
    {
      if closed && preferClose {
        checkDone := true;
        expired := {};
      } else {
        expired := Sweep(now);
      }
    }

    /** Close: every session in the map is closed, then the socket, then
        svr.closeCh, and the sweep loop is waited for. Sessions stay in the
        map. `writeOks` drives the socket's last drain. */
    method Close(writeOks: seq<bool>)
      requires Valid()
      modifies this, sock, sessions.Values
      ensures Valid()
      ensures sessions == old(sessions) && closed && checkDone
      ensures forall a | a in sessions :: sessions[a].closed && sessions[a].handlerDone
      ensures sock.closed && sock.readerDone && sock.writerEnd != XNetDrain.Running
      ensures old(sock.writerEnd) == XNetDrain.Running && None !in old(sock.writeCh) && (forall k | 0 <= k < |writeOks| :: writeOks[k]) ==>
                XNetDrain.Queued(sock.sent) == sock.accepted
    {
      CloseAll(sessions.Values);
      sock.Close(writeOks);
      closed, checkDone := true, true;
    }
  }
}
