/** The write loop shared by pkg/xnet/websocket.go and pkg/xnet/udp_socket.go:
    it blocks on its queue and the close channel until it sees the close
    channel, then polls the queue and writes whatever is left, ending on the
    first empty poll. The queue carries Go references or slices, so an entry
    may be nil (None), and taking nil ends the loop. */
module XNetDrain {
  import opened Wrappers
  import opened XNetCommon

  /** How the write loop has ended, if it has. */
  datatype WriterEnd = Running | Drained | NilStop | FrameFailed

  /** The queue entries the given items were written from. */
  function Queued<T>(items: seq<T>): (r: seq<Option<T>>)
    ensures |r| == |items|
  {
    seq(|items|, i requires 0 <= i < |items| => Some(items[i]))
  }

  lemma QueuedAppend<T>(items: seq<T>, more: seq<T>)
    ensures Queued(items + more) == Queued(items) + Queued(more)
  {
    var l, r := Queued(items + more), Queued(items) + Queued(more);
    assert |l| == |r|;
    forall i | 0 <= i < |l| ensures l[i] == r[i] {
      if i < |items| {
        assert (items + more)[i] == items[i];
      } else {
        assert (items + more)[i] == more[i - |items|];
      }
    }
  }

  /** The result of one pass: whether the close channel has been seen, what
      is left queued, the item written (at most one) and how the loop ended. */
  datatype DrainPass<T> = DrainPass(sawClose: bool, queue: seq<Option<T>>, sent: seq<T>, end: WriterEnd)

  /** Handling the entry the pass took: nil ends the loop, anything else is
      written, and a failed write (`!ok`) ends the loop. */
  function DrainDeliver<T>(sawClose: bool, msg: Option<T>, rest: seq<Option<T>>, ok: bool): (p: DrainPass<T>)
    ensures p.sawClose == sawClose && p.queue == rest
    ensures p.end == NilStop <==> msg == None
    ensures p.end == FrameFailed <==> msg.Some? && !ok
    ensures p.end == Running <==> msg.Some? && ok
    ensures p.end == Running ==> p.sent == [msg.value]
    ensures p.end != Running ==> p.sent == []
  {
    match msg
    case None => DrainPass(sawClose, rest, [], NilStop)
    case Some(d) => if ok then DrainPass(sawClose, rest, [d], Running) else DrainPass(sawClose, rest, [], FrameFailed)
  }

  /** One pass of the write loop. Until the close channel is seen it blocks
      on the queue and the close channel (`preferClose` is the pick when both
      are ready); once seen, it polls the queue and an empty poll ends the
      loop. */
  function DrainWriterPass<T>(sawClose: bool, queue: seq<Option<T>>, closed: bool, preferClose: bool, ok: bool): (p: DrainPass<T>)
    ensures p.end == Drained <==> sawClose && queue == []
    ensures |p.queue| <= |queue|
    ensures p.sawClose <==> sawClose || (closed && (queue == [] || preferClose))
    ensures p.end == Running || p.end == Drained ==> Queued(p.sent) + p.queue == queue
    ensures sawClose && p.end == Running ==> |p.sent| == 1
  {
    if !sawClose then
      var w := SelectWake(|queue| > 0, closed, preferClose);
      if w == Blocked then DrainPass(false, queue, [], Running)
      else if w == TookClose then DrainPass(true, queue, [], Running)
      else
        var p := DrainDeliver(false, queue[0], queue[1..], ok);
        assert p.end == Running ==> Queued(p.sent) + p.queue == [queue[0]] + queue[1..];
        p
    else if queue == [] then DrainPass(true, [], [], Drained)
    else
      var p := DrainDeliver(true, queue[0], queue[1..], ok);
      assert p.end == Running ==> Queued(p.sent) + p.queue == [queue[0]] + queue[1..];
      p
  }

  /** The other ways a pass goes: nil or a failed write ends the loop and
      consumes the head; an idle loop blocks; after the close channel, a
      successful write takes exactly the head. */
  lemma DrainWriterPassCases<T>(sawClose: bool, queue: seq<Option<T>>, closed: bool, preferClose: bool, ok: bool)
    ensures var p := DrainWriterPass(sawClose, queue, closed, preferClose, ok);
            (p.end == NilStop ==> queue != [] && queue[0] == None && p.queue == queue[1..]) &&
            (p.end == FrameFailed ==> !ok && queue != [] && queue[0].Some? && p.queue == queue[1..]) &&
            (!sawClose && !closed && queue == [] ==> p == DrainPass(false, [], [], Running)) &&
            (sawClose && ok && queue != [] && queue[0].Some? ==> p == DrainPass(true, queue[1..], [queue[0].value], Running))
  {
  }

  /** Once the close channel is seen, a pass over a queue free of nil with a
      successful write takes exactly the head, and an empty poll ends the
      loop. */
  lemma DrainWritesHead<T>(queue: seq<Option<T>>)
    requires None !in queue
    ensures var p := DrainWriterPass(true, queue, true, true, true);
            if queue == [] then p.end == Drained
            else p.end == Running && p.queue == queue[1..] && Queued(p.sent) == [queue[0]]
  {
    if queue != [] {
      assert queue[0] in queue;
    }
  }

  /** What the loop writes after the close channel when every write
      succeeds: passes repeat until one ends the loop. */
  datatype DrainRun<T> = DrainRun(sent: seq<T>, end: WriterEnd)

  function DrainAfterClose<T>(queue: seq<Option<T>>): (r: DrainRun<T>)
    ensures r.end != Running
    decreases |queue|
  {
    var p := DrainWriterPass(true, queue, true, true, true);
    if p.end != Running then DrainRun(p.sent, p.end)
    else
      var r := DrainAfterClose(p.queue);
      DrainRun(p.sent + r.sent, r.end)
  }

  /** Once the close channel is seen, a queue free of nil drains completely
      when every write succeeds: every queued message is written, in order,
      and the loop ends on the empty poll. */
  lemma {:induction false} DrainWritesAll<T>(queue: seq<Option<T>>)
    requires None !in queue
    ensures Queued(DrainAfterClose(queue).sent) == queue
    ensures DrainAfterClose(queue).end == Drained
    decreases |queue|
  {
    DrainWritesHead(queue);
    if queue != [] {
      var p := DrainWriterPass(true, queue, true, true, true);
      assert forall x :: x in queue[1..] ==> x in queue;
      DrainWritesAll(queue[1..]);
      QueuedAppend(p.sent, DrainAfterClose(queue[1..]).sent);
    }
  }
}
