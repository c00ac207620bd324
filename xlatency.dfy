/** pkg/xlatency/latency.go: the latency and loss simulator that sits in
    the middle of a tunnel. Each datagram is either dropped, with a
    probability of `loss` percent, or queued with a delivery time up to
    `latency` milliseconds ahead; a periodic tick delivers whatever is due,
    in queue order. The clock and the random draws are parameters. */
module XLatency {
  import opened Wrappers
  import opened Bytes
  import opened XActorHandler

  /** InitArg's tick interval: 5 ms, as a time.Duration in nanoseconds. */
  const TickerDuration: int := 5_000_000

  /** latencyMsg: a queued datagram, its direction (isSvr: bound for the
      server side) and its delivery time in Unix milliseconds. */
  datatype LatencyMsg = LatencyMsg(isSvr: bool, at: int, msg: seq<Byte>)

  /** The actor's mutable fields as values. */
  datatype LatencyState = LatencyState(msgs: seq<LatencyMsg>, lost: nat, packets: nat, allDelay: int)

  /** The largest delay randLatency can draw. */
  function MaxDelay(latency: Uint32): nat {
    if latency == 0 then 0 else latency - 1
  }

  /** rand.Int31n(int32(latency)) panics when the conversion to int32 is
      not positive, which happens for a latency of 2^31 ms or more. */
  predicate DelayPanics(latency: Uint32) {
    latency > 0 && WrapInt32(latency) <= 0
  }

  /** What the random source can return: a loss draw in [0, 100), a delay
      draw in [0, latency). */
  predicate LossDraw(draw: int) {
    0 <= draw < 100
  }
  predicate DelayDraw(latency: Uint32, draw: int) {
    0 <= draw && (latency > 0 && !DelayPanics(latency) ==> draw < latency)
  }

  /** Nothing is lost that was not counted, and every transferred packet
      added at most MaxDelay to allDelay. */
  predicate LatencyInv(st: LatencyState, latency: Uint32) {
    st.lost <= st.packets && 0 <= st.allDelay <= (st.packets - st.lost) * MaxDelay(latency)
  }

  function Initial(): (st: LatencyState)
    ensures forall latency: Uint32 :: LatencyInv(st, latency)
  {
    LatencyState([], 0, 0, 0)
  }

  /** isLoss: the packet is counted, and lost when the draw is below the
      loss percentage taken as an int32. */
  function IsLoss(st: LatencyState, loss: Uint32, draw: int): (r: (LatencyState, bool))
    requires LossDraw(draw)
    ensures r.1 <==> draw < WrapInt32(loss)
    ensures r.0.packets == st.packets + 1
    ensures r.0.lost == if r.1 then st.lost + 1 else st.lost
    ensures r.0.msgs == st.msgs && r.0.allDelay == st.allDelay
    ensures loss == 0 ==> !r.1
    ensures 100 <= loss < 0x8000_0000 ==> r.1
  {
    var lostIt := draw < WrapInt32(loss);
    (st.(packets := st.packets + 1, lost := if lostIt then st.lost + 1 else st.lost), lostIt)
  }

  /** randLatency: 0 without a latency setting, otherwise the draw, which
      is added to allDelay; None is the panic. */
  function RandLatency(st: LatencyState, latency: Uint32, draw: int): (r: Option<(LatencyState, int)>)
    requires DelayDraw(latency, draw)
    ensures r.None? <==> DelayPanics(latency)
    ensures latency == 0 ==> r == Some((st, 0))
    ensures r.Some? ==> 0 <= r.value.1 <= MaxDelay(latency)
    ensures r.Some? ==> r.value.0 == st.(allDelay := st.allDelay + r.value.1)
  {
    if latency > 0 then
      if WrapInt32(latency) <= 0 then None
      else Some((st.(allDelay := st.allDelay + draw), draw))
    else Some((st, 0))
  }

  /** extend: the datagram joins the end of the queue, due `now` plus the
      drawn delay. */
  function Extend(st: LatencyState, latency: Uint32, isSvr: bool, msg: seq<Byte>, now: int, draw: int): (r: Option<LatencyState>)
    requires DelayDraw(latency, draw)
    ensures r.None? <==> DelayPanics(latency)
    ensures r.Some? ==> var d := r.value.allDelay - st.allDelay;
                        0 <= d <= MaxDelay(latency) &&
                        r.value.msgs == st.msgs + [LatencyMsg(isSvr, now + d, msg)] &&
                        r.value.lost == st.lost && r.value.packets == st.packets
  {
    match RandLatency(st, latency, draw)
    case None => None
    case Some((s, d)) => Some(s.(msgs := s.msgs + [LatencyMsg(isSvr, now + d, msg)]))
  }

  /** RecvFromCli (isSvr) and RecvFromSvr (!isSvr): count the packet, and
      queue it unless it is lost. */
  function Receive(st: LatencyState, loss: Uint32, latency: Uint32, isSvr: bool, msg: seq<Byte>,
                   now: int, lossDraw: int, delayDraw: int): (r: Option<LatencyState>)
    requires LossDraw(lossDraw) && DelayDraw(latency, delayDraw)
    ensures r.None? <==> !IsLoss(st, loss, lossDraw).1 && DelayPanics(latency)
    ensures r.Some? ==> r.value.packets == st.packets + 1
    ensures IsLoss(st, loss, lossDraw).1 ==> r == Some(st.(packets := st.packets + 1, lost := st.lost + 1))
    ensures r.Some? && !IsLoss(st, loss, lossDraw).1 ==>
              |r.value.msgs| == |st.msgs| + 1 && r.value.msgs[..|st.msgs|] == st.msgs &&
              r.value.msgs[|st.msgs|].isSvr == isSvr && r.value.msgs[|st.msgs|].msg == msg &&
              now <= r.value.msgs[|st.msgs|].at <= now + MaxDelay(latency)
  {
    var (s, lostIt) := IsLoss(st, loss, lossDraw);
    if lostIt then Some(s) else Extend(s, latency, isSvr, msg, now, delayDraw)
  }

  /** Receiving keeps the counters consistent. */
  lemma ReceiveKeepsInv(st: LatencyState, loss: Uint32, latency: Uint32, isSvr: bool, msg: seq<Byte>,
                        now: int, lossDraw: int, delayDraw: int)
    requires LossDraw(lossDraw) && DelayDraw(latency, delayDraw)
    requires LatencyInv(st, latency) && Receive(st, loss, latency, isSvr, msg, now, lossDraw, delayDraw).Some?
    ensures LatencyInv(Receive(st, loss, latency, isSvr, msg, now, lossDraw, delayDraw).value, latency)
  {
    var r := Receive(st, loss, latency, isSvr, msg, now, lossDraw, delayDraw).value;
    var m := MaxDelay(latency);
    if !IsLoss(st, loss, lossDraw).1 {
      assert (st.packets + 1 - st.lost) * m == (st.packets - st.lost) * m + m;
    }
  }

  /** The messages a tick keeps: those not yet due, in queue order. */
  function Kept(msgs: seq<LatencyMsg>, now: int): (r: seq<LatencyMsg>)
    ensures |r| <= |msgs|
    ensures forall i :: 0 <= i < |r| ==> r[i].at > now && r[i] in msgs
  {
    if msgs == [] then []
    else
      var last := msgs[|msgs| - 1];
      Kept(msgs[..|msgs| - 1], now) + (if last.at > now then [last] else [])
  }

  /** The payloads a tick hands to one side: due messages in that
      direction, in queue order. */
  function Delivered(msgs: seq<LatencyMsg>, now: int, toSvr: bool): (r: seq<seq<Byte>>)
    ensures |r| <= |msgs|
  {
    if msgs == [] then []
    else
      var last := msgs[|msgs| - 1];
      Delivered(msgs[..|msgs| - 1], now, toSvr) + (if last.at <= now && last.isSvr == toSvr then [last.msg] else [])
  }

  /** Every queued message is either kept or delivered to exactly one side. */
  lemma {:induction false} TickConserves(msgs: seq<LatencyMsg>, now: int)
    ensures |Kept(msgs, now)| + |Delivered(msgs, now, true)| + |Delivered(msgs, now, false)| == |msgs|
  {
    if msgs != [] {
      TickConserves(msgs[..|msgs| - 1], now);
    }
  }

  /** A message that is kept is one that is not due: ticking again later
      is ticking once at the later time, so nothing is delivered twice and
      the queue order is never changed. */
  lemma {:induction false} KeptLater(msgs: seq<LatencyMsg>, t1: int, t2: int)
    requires t1 <= t2
    ensures Kept(Kept(msgs, t1), t2) == Kept(msgs, t2)
  {
    if msgs != [] {
      var init, last := msgs[..|msgs| - 1], msgs[|msgs| - 1];
      KeptLater(init, t1, t2);
      var k := Kept(init, t1);
      if last.at > t1 {
        assert Kept(msgs, t1) == k + [last];
        assert (k + [last])[..|k|] == k;
      } else {
        assert Kept(msgs, t1) == k;
      }
    }
  }

  /** Once every delivery time has passed the queue is empty. */
  lemma {:induction false} AllDue(msgs: seq<LatencyMsg>, now: int)
    requires forall i :: 0 <= i < |msgs| ==> msgs[i].at <= now
    ensures Kept(msgs, now) == []
  {
    if msgs != [] {
      AllDue(msgs[..|msgs| - 1], now);
    }
  }

  /** With no loss and no latency, a datagram received at `now` into an
      empty queue goes out, unchanged and alone, to its side at the next
      tick. */
  lemma PassThrough(loss: Uint32, isSvr: bool, msg: seq<Byte>, now: int, tick: int, lossDraw: int)
    requires loss == 0 && LossDraw(lossDraw) && now <= tick
    ensures var r := Receive(Initial(), loss, 0, isSvr, msg, now, lossDraw, 0);
            r.Some? && Kept(r.value.msgs, tick) == [] &&
            Delivered(r.value.msgs, tick, isSvr) == [msg] && Delivered(r.value.msgs, tick, !isSvr) == []
  {
    var r := Receive(Initial(), loss, 0, isSvr, msg, now, lossDraw, 0);
    assert r.value.msgs == [LatencyMsg(isSvr, now, msg)];
  }

  /** Close's average delay: allDelay as uint64 over packets - lost as
      uint32, 0 when nothing was transferred. */
  function CloseAverage(st: LatencyState): (a: nat)
    ensures WrapUint32(st.packets - st.lost) == 0 ==> a == 0
  {
    var transfer := WrapUint32(st.packets - st.lost);
    if transfer != 0 then WrapUint64(st.allDelay) / transfer else 0
  }

  lemma DivAtMost(a: nat, n: nat, m: nat)
    requires n > 0 && a <= n * m
    ensures a / n <= m
  {
  }

  /** The reported average never exceeds the largest delay that could be
      drawn (while the counters stay below 2^32 and the sum below 2^63). */
  lemma AverageAtMostMaxDelay(st: LatencyState, latency: Uint32)
    requires LatencyInv(st, latency)
    requires st.packets < 0x1_0000_0000 && st.allDelay < 0x8000_0000_0000_0000
    ensures CloseAverage(st) <= MaxDelay(latency)
  {
    var transfer := st.packets - st.lost;
    if transfer != 0 {
      DivAtMost(st.allDelay, transfer, MaxDelay(latency));
    }
  }

  /** The loop of tickLoop over a queue, with the presence of each
      callback. */
  method TickQueue(queue: seq<LatencyMsg>, now: int, svr: bool, cli: bool)
    returns (keep: seq<LatencyMsg>, toSvr: seq<seq<Byte>>, toCli: seq<seq<Byte>>)
    ensures keep == Kept(queue, now)
    ensures toSvr == if svr then Delivered(queue, now, true) else []
    ensures toCli == if cli then Delivered(queue, now, false) else []
  {
    keep, toSvr, toCli := [], [], [];
    var i := 0;
    while i < |queue|
      invariant 0 <= i <= |queue|
      invariant keep == Kept(queue[..i], now)
      invariant toSvr == if svr then Delivered(queue[..i], now, true) else []
      invariant toCli == if cli then Delivered(queue[..i], now, false) else []
    {
      assert queue[..i + 1][..i] == queue[..i];
      var m := queue[i];
      if m.at > now {
        keep := keep + [m];
      } else if m.isSvr && svr {
        toSvr := toSvr + [m.msg];
      } else if !m.isSvr && cli {
        toCli := toCli + [m.msg];
      }
      i := i + 1;
    }
    assert queue[..i] == queue;
  }

  /** InitArg: the two registration requests as synchronous handlers,
      the two receive requests as asynchronous ones, tickLoop as the only
      ticker, every 5 ms. The handlers are given in their state-passing
      form. */
  function InitArg<S(!new)>(registerSendToCli: SyncHandler<S>, registerSendToSvr: SyncHandler<S>,
                            recvFromCli: AsyncHandler<S>, recvFromSvr: AsyncHandler<S>,
                            tickLoop: TickHandler<S>): ActorHandlerArgs<S>
  {
    ActorHandlerArgs(
      [SyncHandlerWrap(TypeTag("*xlatency.RegisterSendToCliReq"), registerSendToCli),
       SyncHandlerWrap(TypeTag("*xlatency.RegisterSendToSvrReq"), registerSendToSvr)],
      [AsyncHandlerWrap(TypeTag("*xlatency.RecvFromCliReq"), recvFromCli),
       AsyncHandlerWrap(TypeTag("*xlatency.RecvFromSvrReq"), recvFromSvr)],
      [tickLoop], TickerDuration)
  }

  /** The actor runtime accepts InitArg: no request type is registered
      twice, the ticker is tickLoop and the interval stays 5 ms. */
  lemma InitArgAccepted<S(!new)>(registerSendToCli: SyncHandler<S>, registerSendToSvr: SyncHandler<S>,
                                 recvFromCli: AsyncHandler<S>, recvFromSvr: AsyncHandler<S>,
                                 tickLoop: TickHandler<S>)
    ensures var r := NewActorHandler(InitArg(registerSendToCli, registerSendToSvr, recvFromCli, recvFromSvr, tickLoop));
            r.Ok? && r.value.tickFns == [tickLoop] && r.value.tickerDuration == TickerDuration
  {
    var arg := InitArg(registerSendToCli, registerSendToSvr, recvFromCli, recvFromSvr, tickLoop);
    assert Tags(arg.syncs) == [TypeTag("*xlatency.RegisterSendToCliReq"), TypeTag("*xlatency.RegisterSendToSvrReq")];
    assert Tags(arg.asyncs) == [TypeTag("*xlatency.RecvFromCliReq"), TypeTag("*xlatency.RecvFromSvrReq")];
  }

  /** LatencyActor: the queue, its counters and the registered callbacks,
      of which only their presence is kept (what they do with a datagram
      is the caller's). */
  class LatencyActor {
    const name: string
    const mode: int
    const loss: Uint32
    const latency: Uint32
    var msgs: seq<LatencyMsg>
    var lost: nat
    var packets: nat
    var allDelay: int
    var hasSendToCli: bool
    var hasSendToSvr: bool

    function Snapshot(): LatencyState
      reads this
    {
      LatencyState(msgs, lost, packets, allDelay)
    }

    predicate Valid()
      reads this
    {
      LatencyInv(Snapshot(), latency)
    }

    /** NewLatencyActor (registering the actor is the actor runtime's). */
    constructor (name: string, mode: int, loss: Uint32, latency: Uint32)
      ensures this.name == name && this.mode == mode && this.loss == loss && this.latency == latency
      ensures Snapshot() == Initial() && !hasSendToCli && !hasSendToSvr && Valid()
    {
      this.name, this.mode, this.loss, this.latency := name, mode, loss, latency;
      msgs, lost, packets, allDelay := [], 0, 0, 0;
      hasSendToCli, hasSendToSvr := false, false;
    }

    /** RegisterSendToSvr / RegisterSendToCli: store the callback (nil or
        not); a later registration replaces an earlier one. */
    method RegisterSendToSvr(present: bool)
      modifies this
      ensures hasSendToSvr == present && hasSendToCli == old(hasSendToCli) && Snapshot() == old(Snapshot())
    {
      hasSendToSvr := present;
    }

    method RegisterSendToCli(present: bool)
      modifies this
      ensures hasSendToCli == present && hasSendToSvr == old(hasSendToSvr) && Snapshot() == old(Snapshot())
    {
      hasSendToCli := present;
    }

    /** RecvFromCli (isSvr true) and RecvFromSvr (isSvr false); `panicked`
        is the randLatency panic, after which the actor is gone. */
    method Recv(isSvr: bool, msg: seq<Byte>, now: int, lossDraw: int, delayDraw: int) returns (panicked: bool)
      requires LossDraw(lossDraw) && DelayDraw(latency, delayDraw)
      modifies this
      ensures var r := Receive(old(Snapshot()), loss, latency, isSvr, msg, now, lossDraw, delayDraw);
              panicked == r.None? && (r.Some? ==> Snapshot() == r.value)
      ensures !panicked && old(Valid()) ==> Valid()
      ensures hasSendToCli == old(hasSendToCli) && hasSendToSvr == old(hasSendToSvr)
    {
      ghost var st := Snapshot();
      packets := packets + 1;
      if lossDraw < WrapInt32(loss) {
        lost := lost + 1;
        panicked := false;
        return;
      }
      var rl := 0;
      if latency > 0 {
        if WrapInt32(latency) <= 0 {
          return true;
        }
        rl := delayDraw;
        allDelay := allDelay + rl;
      }
      msgs := msgs + [LatencyMsg(isSvr, now + rl, msg)];
      panicked := false;
      if old(Valid()) {
        ReceiveKeepsInv(st, loss, latency, isSvr, msg, now, lossDraw, delayDraw);
      }
    }

    /** tickLoop: rebuild the queue from the messages not yet due and hand
        each due one to its side's callback, if one is registered. */
    method TickLoop(now: int) returns (toSvr: seq<seq<Byte>>, toCli: seq<seq<Byte>>)
      modifies this
      ensures msgs == Kept(old(msgs), now)
      ensures toSvr == if hasSendToSvr then Delivered(old(msgs), now, true) else []
      ensures toCli == if hasSendToCli then Delivered(old(msgs), now, false) else []
      ensures lost == old(lost) && packets == old(packets) && allDelay == old(allDelay)
      ensures hasSendToCli == old(hasSendToCli) && hasSendToSvr == old(hasSendToSvr)
      ensures old(Valid()) ==> Valid()
    {
      var keep;
      keep, toSvr, toCli := TickQueue(msgs, now, hasSendToSvr, hasSendToCli);
      msgs := keep;
    }

    /** Close: the average delay it reports. */
    method Close() returns (averageDelay: nat)
      ensures averageDelay == CloseAverage(Snapshot())
    {
      var transfer := WrapUint32(packets - lost);
      averageDelay := 0;
      if transfer != 0 {
        averageDelay := WrapUint64(allDelay) / transfer;
      }
    }
  }
}
