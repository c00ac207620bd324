/** pkg/xnet/common.go: the constants and callback shapes shared by every
    transport, and the outcome of the non-blocking `select` that every
    SendMsg uses. */
module XNetCommon {
  import opened Bytes

  const ReadBufferSize: nat := 1024
  const WriteChanLimit: nat := 200
  const UdpSessionTimeout: int := 10
  const UdpMsgChanLimit: nat := 1024
  /** The websocket read limit (SetReadLimit). */
  const MaxMessageSize: nat := 2048

  /** What one OnHandlerOnce call returns: the number of bytes it consumed
      (0 means "need more data") and whether it returned an error. */
  datatype Handled = Handled(count: nat, failed: bool)

  /** The framing callback, with the opaque per-connection state fixed. */
  type Handler = seq<Byte> -> Handled

  /** The OnHandlerOnce contract the read loops rely on: a handler never
      claims more bytes than it was given. */
  ghost predicate FramingContract(h: Handler)
  {
    forall s :: h(s).count <= |s|
  }

  /** Result of SendMsg / sendMsg / recvMsg on a bounded queue. */
  datatype SendOutcome = Enqueued | AlreadyClosed | Overflow

  /** The three-way Go `select` of SendMsg: enqueue when the queue has room,
      report "already close" when the close channel is closed, otherwise
      "overflow". When the queue has room AND the channel is closed both
      cases are ready and Go picks one at random; `preferClose` is that pick. */
  function SelectSend(queued: nat, limit: nat, closed: bool, preferClose: bool): (r: SendOutcome)
    ensures r == Enqueued ==> queued < limit
    ensures r == AlreadyClosed ==> closed
    ensures r == Overflow <==> queued >= limit && !closed
    ensures !closed && queued < limit ==> r == Enqueued
    ensures closed && queued >= limit ==> r == AlreadyClosed
  {
    if queued < limit && !(closed && preferClose) then Enqueued
    else if closed then AlreadyClosed
    else Overflow
  }

  /** A closed socket can still accept a message when its queue has room:
      the random pick of `select` may choose the send case. */
  lemma SendAfterCloseMayEnqueue(queued: nat, limit: nat)
    requires queued < limit
    ensures SelectSend(queued, limit, true, false) == Enqueued
    ensures SelectSend(queued, limit, true, true) == AlreadyClosed
  {
  }

  /** What a blocking `select` between a queue and a close channel wakes on.
      Blocked means neither case is ready, so the goroutine waits. */
  datatype Wake = Blocked | TookMsg | TookClose

  function SelectWake(hasMsg: bool, closed: bool, preferClose: bool): (w: Wake)
    ensures w == Blocked <==> !hasMsg && !closed
    ensures w == TookMsg ==> hasMsg
    ensures w == TookClose ==> closed
    ensures hasMsg && !closed ==> w == TookMsg
  {
    if hasMsg && !(closed && preferClose) then TookMsg
    else if closed then TookClose
    else Blocked
  }

  /** Which callbacks a read loop has run, in order. */
  datatype LoopEvent =
    | Connected                     // onConnect returned the per-connection state
    | Disconnected(arg: DisconnectArg)
    | Released                      // releaseFn(sock)
    | CloseSignalled                // closeCh closed
    | ConnClosed                    // conn.Close()
    | CloseFrame                    // a websocket close frame (code 1000) was written or attempted

  /** What onDisconnect receives. */
  datatype DisconnectArg = ConnState(token: nat) | SessionItself

  /** How many times `e` occurs in a callback log. */
  function Count(events: seq<LoopEvent>, e: LoopEvent): (n: nat)
    ensures n <= |events|
  {
    if events == [] then 0
    else (if events[0] == e then 1 else 0) + Count(events[1..], e)
  }

  lemma {:induction false} CountAppend(a: seq<LoopEvent>, b: seq<LoopEvent>, e: LoopEvent)
    ensures Count(a + b, e) == Count(a, e) + Count(b, e)
    decreases |a|
  {
    if a == [] {
      assert a + b == b;
    } else {
      assert (a + b)[1..] == a[1..] + b;
      CountAppend(a[1..], b, e);
    }
  }
}
