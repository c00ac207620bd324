/** pkg/xnet/udp_client.go: a UDP socket connected to one server, with the
    single session every datagram goes to. A periodic check closes the
    client once the session has been idle past the timeout. */
module XNetUdpClient {
  import opened Wrappers
  import opened Bytes
  import opened XNetCommon
  import opened XNetUdpSocket
  import opened XNetUdpSession
  import XNetDrain

  class UdpClient {
    const sock: UdpSocket
    const session: UdpSession
    /** closeOnce has run: the session and the socket are closed and
        cli.closeCh is closed. */
    var closed: bool
    /** The check loop has ended. */
    var checkDone: bool

    ghost predicate Valid()
      reads this, sock, session
    {
      sock.Valid() && !sock.isServer && session.Valid() && session.sock == sock &&
      (closed ==> session.closed && session.handlerDone && sock.closed && sock.readerDone) &&
      (checkDone ==> closed)
    }

    /** NewUDPClient once the address resolved and DialUDP connected: the
        socket, and the session for the server's address, active now. */
    constructor (server: UdpAddr, handler: Handler, state: nat, now: int)
      ensures Valid() && fresh(sock) && fresh(session)
      ensures session.addr == server && session.handler == handler && session.state == state
      ensures session.activeAt == now && session.msgCh == [] && session.events == [Connected]
      ensures sock.writeCh == [] && !sock.closed && !closed && !checkDone
    {
      var sock := new UdpSocket(false);
      this.sock := sock;
      session := new UdpSession(server, sock, handler, state, now);
      closed := false;
      checkDone := false;
    }

    /** udpOnMsg: every datagram goes to the one session, whatever its
        sender; a failed recvMsg is only logged. */
    method OnMsg(d: Datagram, now: int, preferClose: bool) returns (o: SendOutcome)
      requires Valid()
      modifies session
      ensures Valid()
      ensures o == SelectSend(|old(session.msgCh)|, UdpMsgChanLimit, old(session.closed), preferClose)
      ensures o == Enqueued ==> session.msgCh == old(session.msgCh) + [d.msg] && session.activeAt == now
      ensures o != Enqueued ==> session.msgCh == old(session.msgCh) && session.activeAt == old(session.activeAt)
    {
      o := session.RecvMsg(d.msg, now, preferClose);
    }

    /** SendMsg: the payload, addressed to the session's peer, is offered to
        the socket's write queue. */
    method SendMsg(msg: seq<Byte>, preferClose: bool) returns (o: SendOutcome)
      requires Valid()
      modifies sock
      ensures Valid()
      ensures o == SelectSend(|old(sock.writeCh)|, UdpWriteChanLimit, old(sock.closed), preferClose)
      ensures o == Enqueued ==> sock.writeCh == old(sock.writeCh) + [Some(Datagram(msg, session.addr))]
      ensures o != Enqueued ==> sock.writeCh == old(sock.writeCh)
    {
      o := sock.SendMsg(Some(Datagram(msg, session.addr)), preferClose);
    }

    /** forceClose: the first call closes the session, then the socket, then
        cli.closeCh; later calls do nothing. */
    method ForceClose(writeOks: seq<bool>)
      requires Valid()
      modifies this, sock, session
      ensures Valid()
      ensures closed && checkDone == old(checkDone)
      ensures old(closed) ==> unchanged(sock) && unchanged(session)
      ensures !old(closed) && old(sock.writerEnd) == XNetDrain.Running && None !in old(sock.writeCh) &&
              (forall k | 0 <= k < |writeOks| :: writeOks[k]) ==>
                XNetDrain.Queued(sock.sent) == sock.accepted
    {
      if !closed {
        session.Close();
        sock.Close(writeOks);
        closed := true;
      }
    }

    /** One pass of checkLoop: the ticker and cli.closeCh race (`preferClose`
        is the pick when both are ready). The closed channel ends the loop; on
        a tick, a session idle past the timeout makes the loop force-close the
        client and end. */
    method CheckStep(now: int, preferClose: bool, writeOks: seq<bool>)
      requires Valid() && !checkDone
      modifies this, sock, session
      ensures Valid()
      ensures checkDone <==> (old(closed) && preferClose) || Expired(old(session.activeAt), now)
      ensures closed == (old(closed) || checkDone)
    {
      if closed && preferClose {
        checkDone := true;
      } else if Expired(session.activeAt, now) {
        ForceClose(writeOks);
        checkDone := true;
      }
    }

    /** Close: forceClose, then wait for the check loop. */
    method Close(writeOks: seq<bool>)
      requires Valid()
      modifies this, sock, session
      ensures Valid()
      ensures closed && checkDone
      ensures session.closed && session.handlerDone && sock.closed && sock.readerDone
      ensures Count(session.events, Disconnected(SessionItself)) == 1
    {
      ForceClose(writeOks);
      checkDone := true;
    }
  }
}
