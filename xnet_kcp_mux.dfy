/** pkg/xnet/kcp_mux.go: the optional in-band protocol a KCP session runs
    before and after its payload traffic. Each frame starts with one flag
    byte; a control frame (flag non-zero) carries a 4-byte little-endian
    int32 state and drives a three-way handshake and a four-way teardown
    whose state names follow the TCP state diagram of section 3.2 of
    RFC 793. Data frames reach the user's handler only once established. */
module XNetKcpMux {
  import opened Wrappers
  import opened Bytes
  import opened Decimal
  import opened XNetCommon

  const SynSent: Int32 := -2
  const Listen: Int32 := -1
  const SynRcvd: Int32 := 0
  const Established: Int32 := 1
  const FinWait1: Int32 := 2
  const CloseWait: Int32 := 3
  const FinWait2: Int32 := 4
  const TimeWait: Int32 := 5
  const LastAck: Int32 := 6

  /** binary.Size of the one-field header and exchange structs. */
  const HeaderSize: nat := 1
  const ExchangeSize: nat := 4
  /** What every accepted control frame consumes. */
  const ControlFrameSize: nat := HeaderSize + ExchangeSize

  /** The nine states, in lifecycle order. */
  const States: seq<Int32> := [SynSent, Listen, SynRcvd, Established, FinWait1, CloseWait, FinWait2, TimeWait, LastAck]

  /** kmsString: the state's name, or "unknown-" and its decimal value. */
  function KmsString(kms: Int32): (s: string)
    ensures kms !in States ==> s == "unknown-" + IntToString(kms)
    ensures kms in States ==> |s| > 0 && s[0] != 'u'
  {
    if kms == SynSent then "syn-sent"
    else if kms == Listen then "listen"
    else if kms == SynRcvd then "syn-rcvd"
    else if kms == Established then "established"
    else if kms == FinWait1 then "fin-wait1"
    else if kms == FinWait2 then "fin-wait2"
    else if kms == TimeWait then "time-wait"
    else if kms == CloseWait then "close-wait"
    else if kms == LastAck then "last-ack"
    else "unknown-" + IntToString(kms)
  }

  /** Different states never render alike, so a logged name identifies the
      state, known or not. */
  lemma KmsStringInjective(a: Int32, b: Int32)
    requires KmsString(a) == KmsString(b)
    ensures a == b
  {
    if a !in States && b !in States {
      var sa, sb := IntToString(a), IntToString(b);
      assert "unknown-" + sa == "unknown-" + sb;
      assert sa == ("unknown-" + sa)[8..];
      assert sb == ("unknown-" + sb)[8..];
      ParseIntToString(a);
      ParseIntToString(b);
    }
  }

  /** packMsg: with the inline protocol off the payload goes out as is;
      otherwise one flag byte (1 for control, 0 for data) precedes it. */
  function PackMsg(isInline: bool, inline: bool, payload: seq<Byte>): (msg: seq<Byte>)
    ensures !isInline ==> msg == payload
    ensures isInline ==> |msg| == HeaderSize + |payload| && msg[HeaderSize..] == payload
    ensures isInline ==> (msg[0] != 0 <==> inline)
  {
    if isInline then [if inline then 1 else 0] + payload else payload
  }

  /** The frame sendInline hands to the socket: a control header and the
      state as a little-endian int32. */
  function ControlFrame(state: Int32): (f: seq<Byte>)
    ensures |f| == ControlFrameSize && f[0] != 0
    ensures DecodeInt32(f[HeaderSize..ControlFrameSize]) == state
  {
    Int32RoundTrip(state);
    var f := PackMsg(true, true, EncodeInt32(state));
    assert f[HeaderSize..ControlFrameSize] == EncodeInt32(state);
    f
  }

  /** Why onMsg returned an error, if it did. */
  datatype MuxError = NoError | Eof | NotEstablished(state: Int32) | InlineInvalid(received: Int32, current: Int32) | HandlerError

  /** onMsg's (int, error) pair; (0, NoError) is "need more". */
  datatype MuxReply = MuxReply(count: nat, err: MuxError)

  /** A handler's result passed through unchanged. */
  function Passthrough(h: Handled): (r: MuxReply)
    ensures r.count == h.count && (r.err == HandlerError <==> h.failed) && (r.err == NoError <==> !h.failed)
  {
    MuxReply(h.count, if h.failed then HandlerError else NoError)
  }

  /** A data frame's handler result: a non-zero count also covers the flag
      byte, a zero count stays zero. */
  function DataReply(h: Handled): (r: MuxReply)
    ensures h.count == 0 ==> r.count == 0
    ensures h.count != 0 ==> r.count == h.count + HeaderSize
    ensures r.err == Passthrough(h).err
  {
    MuxReply(if h.count != 0 then h.count + HeaderSize else 0, if h.failed then HandlerError else NoError)
  }

  /** The (received, current) pairs the protocol accepts. */
  const Accepted: set<(Int32, Int32)> :=
    {(SynSent, Listen), (SynRcvd, SynSent), (Established, SynRcvd),
     (FinWait1, Established), (TimeWait, LastAck), (CloseWait, FinWait1), (LastAck, FinWait2)}

  /** Position in the lifecycle: the protocol never moves backwards. */
  function Rank(s: Int32): nat
  {
    if s == SynSent || s == Listen then 0
    else if s == SynRcvd then 1
    else if s == Established then 2
    else if s == FinWait1 then 3
    else if s == CloseWait || s == FinWait2 then 4
    else 5
  }

  /** The effect of one control frame: the state left, the states announced
      with sendInline in order, whether initCh / closeCh is signalled, and
      the reply. */
  datatype Step = Step(next: Int32, replies: seq<Int32>, init: bool, close: bool, reply: MuxReply)

  /** inlineProtocol's decision for a received state in the current one. */
  function Inline(received: Int32, cur: Int32): (s: Step)
    ensures (received, cur) in Accepted <==> s.reply.count == ControlFrameSize
    ensures (received, cur) !in Accepted ==> s == Step(cur, [], false, false, MuxReply(0, InlineInvalid(received, cur)))
    ensures s.reply.err == Eof <==> (received, cur) in {(TimeWait, LastAck), (LastAck, FinWait2)}
    ensures s.init <==> s.next == Established && (cur == SynSent || cur == SynRcvd)
    ensures s.close <==> s.next == TimeWait && cur == FinWait2
    ensures cur in States ==> s.next in States && Rank(cur) <= Rank(s.next)
    ensures s.replies != [] ==> s.replies[|s.replies| - 1] == s.next
  {
    var ok := MuxReply(ControlFrameSize, NoError);
    if received == SynSent && cur == Listen then Step(SynRcvd, [SynRcvd], false, false, ok)
    else if received == SynRcvd && cur == SynSent then Step(Established, [Established], true, false, ok)
    else if received == Established && cur == SynRcvd then Step(Established, [], true, false, ok)
    else if received == FinWait1 && cur == Established then Step(LastAck, [CloseWait, LastAck], false, false, ok)
    else if received == TimeWait && cur == LastAck then Step(LastAck, [], false, false, MuxReply(ControlFrameSize, Eof))
    else if received == CloseWait && cur == FinWait1 then Step(FinWait2, [], false, false, ok)
    else if received == LastAck && cur == FinWait2 then Step(TimeWait, [TimeWait], false, true, MuxReply(ControlFrameSize, Eof))
    else Step(cur, [], false, false, MuxReply(0, InlineInvalid(received, cur)))
  }

  /** Everything about a mux that onMsg, init and close change: the state,
      every state announced with sendInline, and how many times initCh and
      closeCh have been signalled and how many of those signals were taken. */
  datatype Mux = Mux(state: Int32, sent: seq<Int32>, initSignals: nat, initTaken: nat, closeSignals: nat, closeTaken: nat)

  /** newKCPMux: Listen on the accepting side, SynSent on the dialling side. */
  function NewMux(isListen: bool): (m: Mux)
    ensures m.state == (if isListen then Listen else SynSent)
    ensures m.sent == [] && m.initSignals == 0 && m.closeSignals == 0 && m.initTaken == 0 && m.closeTaken == 0
  {
    Mux(if isListen then Listen else SynSent, [], 0, 0, 0, 0)
  }

  /** Applying a control step to the mux. */
  function Apply(m: Mux, s: Step): Mux
  {
    Mux(s.next, m.sent + s.replies, m.initSignals + (if s.init then 1 else 0), m.initTaken,
        m.closeSignals + (if s.close then 1 else 0), m.closeTaken)
  }

  /** onMsg, with the short control prefix treated as "need more". */
  function MuxOnMsg(m: Mux, isInline: bool, h: Handler, msg: seq<Byte>): (r: (Mux, MuxReply))
    ensures !isInline ==> r == (m, Passthrough(h(msg)))
    ensures isInline && |msg| < ControlFrameSize && (msg == [] || msg[0] != 0) ==> r == (m, MuxReply(0, NoError))
    ensures isInline && msg != [] && msg[0] == 0 && m.state == Established ==> r == (m, DataReply(h(msg[HeaderSize..])))
    ensures isInline && msg != [] && msg[0] == 0 && m.state != Established ==> r == (m, MuxReply(0, NotEstablished(m.state)))
    ensures isInline && |msg| >= ControlFrameSize && msg[0] != 0 ==>
              var s := Inline(DecodeInt32(msg[HeaderSize..ControlFrameSize]), m.state);
              r == (Apply(m, s), s.reply)
  {
    if !isInline then (m, Passthrough(h(msg)))
    else if |msg| < HeaderSize then (m, MuxReply(0, NoError))
    else if msg[0] == 0 then
      if m.state == Established then (m, DataReply(h(msg[HeaderSize..])))
      else (m, MuxReply(0, NotEstablished(m.state)))
    else if |msg| < ControlFrameSize then (m, MuxReply(0, NoError))
    else
      var s := Inline(DecodeInt32(msg[HeaderSize..ControlFrameSize]), m.state);
      (Apply(m, s), s.reply)
  }

  /** The mux is itself an OnHandlerOnce: given a handler that never claims
      more than it is given, neither does the mux. */
  lemma MuxKeepsFramingContract(m: Mux, isInline: bool, h: Handler, msg: seq<Byte>)
    requires FramingContract(h)
    ensures MuxOnMsg(m, isInline, h, msg).1.count <= |msg|
  {
    if isInline && msg != [] && msg[0] == 0 && m.state == Established {
      assert h(msg[HeaderSize..]).count <= |msg[HeaderSize..]|;
    } else if !isInline {
      assert h(msg).count <= |msg|;
    }
  }

  /** A packed data frame reaches the handler as the original payload once
      established; before that it is refused. */
  lemma DataFrameRoundTrip(m: Mux, h: Handler, payload: seq<Byte>)
    ensures m.state == Established ==> MuxOnMsg(m, true, h, PackMsg(true, false, payload)) == (m, DataReply(h(payload)))
    ensures m.state != Established ==> MuxOnMsg(m, true, h, PackMsg(true, false, payload)).1 == MuxReply(0, NotEstablished(m.state))
  {
    var f := PackMsg(true, false, payload);
    assert f[HeaderSize..] == payload;
  }

  /** A control frame announcing `state` is decoded back to that state. */
  lemma ControlFrameStep(m: Mux, h: Handler, state: Int32)
    ensures MuxOnMsg(m, true, h, ControlFrame(state)) == (Receive(m, state), Inline(state, m.state).reply)
  {
  }

  /** A mux receiving a control frame that announces `state`. */
  function Receive(m: Mux, state: Int32): Mux
  {
    Apply(m, Inline(state, m.state))
  }

  /** What the invariant keeps: the state is one of the nine, initCh (a
      channel of capacity 1) is signalled at most once and only from the
      handshake's end, closeCh likewise only on entering TimeWait, and a
      signal is taken only after it was sent. So neither channel send can
      block the read loop. */
  ghost predicate MuxInv(m: Mux)
  {
    m.state in States &&
    m.initTaken <= m.initSignals <= 1 &&
    m.closeTaken <= m.closeSignals <= 1 &&
    (Rank(m.state) < Rank(Established) ==> m.initSignals == 0) &&
    (m.closeSignals == 1 ==> m.state == TimeWait)
  }

  lemma NewMuxInv(isListen: bool)
    ensures MuxInv(NewMux(isListen))
  {
  }

  /** Every onMsg keeps the invariant. */
  lemma OnMsgKeepsInv(m: Mux, isInline: bool, h: Handler, msg: seq<Byte>)
    requires MuxInv(m)
    ensures MuxInv(MuxOnMsg(m, isInline, h, msg).0)
  {
    if isInline && |msg| >= ControlFrameSize && msg[0] != 0 {
      var s := Inline(DecodeInt32(msg[HeaderSize..ControlFrameSize]), m.state);
      assert s.init ==> Rank(m.state) < Rank(Established);
      assert s.close ==> m.state == FinWait2;
    }
  }

  /** The three-way handshake: a dialling and a listening mux, each
      receiving the other's frames one at a time and in order
      (ControlFrameStep makes each Receive an onMsg of the frame), both
      reach Established with initCh signalled once. */
  lemma {:induction false} Handshake()
    ensures
      var c0 := SendSyn(NewMux(false), true);
      var s1 := Receive(NewMux(true), c0.sent[0]);
      var c1 := Receive(c0, s1.sent[0]);
      var s2 := Receive(s1, c1.sent[1]);
      c1 == Mux(Established, [SynSent, Established], 1, 0, 0, 0) &&
      s2 == Mux(Established, [SynRcvd], 1, 0, 0, 0)
  {
    var c0 := SendSyn(NewMux(false), true);
    assert c0 == Mux(SynSent, [SynSent], 0, 0, 0, 0);
    var s1 := Receive(NewMux(true), SynSent);
    assert s1 == Mux(SynRcvd, [SynRcvd], 0, 0, 0, 0);
    var c1 := Receive(c0, SynRcvd);
    assert c1 == Mux(Established, [SynSent, Established], 1, 0, 0, 0);
  }

  /** A teardown started by one side of an established pair: the
      initiator announces FinWait1, CloseWait and LastAck come back, and
      the initiator ends in TimeWait with closeCh signalled and io.EOF; its
      TimeWait leaves the passive side in LastAck with io.EOF. */
  lemma {:induction false} Teardown(c: Mux, s: Mux)
    requires c.state == Established && s.state == Established
    ensures
      var c1 := StartClose(c, true);
      var s1 := Receive(s, c1.sent[|c1.sent| - 1]);
      var c2 := Receive(c1, s1.sent[|s1.sent| - 2]);
      var c3 := Receive(c2, s1.sent[|s1.sent| - 1]);
      var s2 := Receive(s1, c3.sent[|c3.sent| - 1]);
      s1.sent == s.sent + [CloseWait, LastAck] && c3.sent == c.sent + [FinWait1, TimeWait] &&
      c3.state == TimeWait && c3.closeSignals == c.closeSignals + 1 &&
      Inline(LastAck, c2.state).reply == MuxReply(ControlFrameSize, Eof) &&
      s2.state == LastAck && s2.closeSignals == s.closeSignals &&
      Inline(TimeWait, s1.state).reply == MuxReply(ControlFrameSize, Eof)
  {
    var c1 := StartClose(c, true);
    assert c1.state == FinWait1 && c1.sent == c.sent + [FinWait1];
    var s1 := Receive(s, FinWait1);
    assert s1.state == LastAck && s1.sent == s.sent + [CloseWait, LastAck];
    var c2 := Receive(c1, CloseWait);
    assert c2.state == FinWait2 && c2.sent + [] == c1.sent;
  }

  /** A teardown both sides start at once is not handled: each side's
      FinWait1 frame meets a FinWait1 state and is refused. */
  lemma SimultaneousCloseRefused(m: Mux, h: Handler)
    requires m.state == FinWait1
    ensures MuxOnMsg(m, true, h, ControlFrame(FinWait1)) == (m, MuxReply(0, InlineInvalid(FinWait1, FinWait1)))
  {
    ControlFrameStep(m, h, FinWait1);
    assert m.sent + [] == m.sent;
  }

  /** init's first half: only a dialling mux still in SynSent announces
      SynSent. */
  function SendSyn(m: Mux, isInline: bool): (r: Mux)
    ensures isInline && m.state == SynSent ==> r == m.(sent := m.sent + [SynSent])
    ensures !(isInline && m.state == SynSent) ==> r == m
  {
    if isInline && m.state == SynSent then m.(sent := m.sent + [SynSent]) else m
  }

  /** close's first half: only an established mux enters FinWait1 and
      announces it. */
  function StartClose(m: Mux, isInline: bool): (r: Mux)
    ensures isInline && m.state == Established ==> r == m.(state := FinWait1, sent := m.sent + [FinWait1])
    ensures !(isInline && m.state == Established) ==> r == m
  {
    if isInline && m.state == Established then m.(state := FinWait1, sent := m.sent + [FinWait1]) else m
  }

  /** How the wait on initCh / closeCh ends: the signal, the ticker, or
      still waiting (neither is ready yet). */
  datatype Wait = Signalled | TimedOut | Waiting

  /** The select of init and close: a pending signal is taken, else the
      ticker firing (`timedOut`) ends the wait, else it goes on. A pending
      signal wins because the ticker only fires after the timeout. */
  function AwaitSignal(signals: nat, taken: nat, timedOut: bool): (w: Wait)
    ensures w == Signalled <==> taken < signals
    ensures w == TimedOut <==> taken >= signals && timedOut
  {
    if taken < signals then Signalled else if timedOut then TimedOut else Waiting
  }

  /** As written, a control frame's state is read from msg[1:5] without a
      length check. Go slices up to the backing array's capacity, so with
      1 to 4 bytes the state comes from `stale` bytes past the message's
      end (None: the slice is out of range and Go panics). */
  function OnMsgAsWritten(m: Mux, h: Handler, msg: seq<Byte>, stale: seq<Byte>): (r: Option<(Mux, MuxReply)>)
    requires msg != [] && msg[0] != 0
    ensures |msg| >= ControlFrameSize ==> r == Some(MuxOnMsg(m, true, h, msg))
    ensures |msg| + |stale| < ControlFrameSize ==> r == None
  {
    var backing := msg + stale;
    if |backing| < ControlFrameSize then None
    else
      assert |msg| >= ControlFrameSize ==> backing[HeaderSize..ControlFrameSize] == msg[HeaderSize..ControlFrameSize];
      var s := Inline(DecodeInt32(backing[HeaderSize..ControlFrameSize]), m.state);
      Some((Apply(m, s), s.reply))
  }

  /** The input that shows it: a one-byte control prefix either panics or,
      with a stale SynSent behind it in the buffer, is taken as a whole
      frame by a listening mux, which then claims 5 of the 1 byte it was
      given; the corrected onMsg waits for more. */
  lemma ShortControlPrefix(h: Handler)
    ensures OnMsgAsWritten(NewMux(true), h, [1], []) == None
    ensures var r := OnMsgAsWritten(NewMux(true), h, [1], EncodeInt32(SynSent));
            r.Some? && r.value.1.count == ControlFrameSize > |[1]| && r.value.0.state == SynRcvd
    ensures MuxOnMsg(NewMux(true), true, h, [1]) == (NewMux(true), MuxReply(0, NoError))
  {
    var backing := [1] + EncodeInt32(SynSent);
    assert backing[HeaderSize..ControlFrameSize] == EncodeInt32(SynSent);
    Int32RoundTrip(SynSent);
  }

  class KcpMux {
    const isInline: bool
    const isListen: bool
    const handler: Handler
    var state: Int32
    /** Every state announced with sendInline, in order. */
    var sent: seq<Int32>
    /** Sends on initCh / closeCh, and receives from them. */
    var initSignals: nat
    var initTaken: nat
    var closeSignals: nat
    var closeTaken: nat

    function Snapshot(): Mux
      reads this
    {
      Mux(state, sent, initSignals, initTaken, closeSignals, closeTaken)
    }

    ghost predicate Valid()
      reads this
    {
      MuxInv(Snapshot())
    }

    /** newKCPMux. */
    constructor (handler: Handler, isInline: bool, isListen: bool)
      ensures Valid()
      ensures this.handler == handler && this.isInline == isInline && this.isListen == isListen
      ensures Snapshot() == NewMux(isListen)
    {
      this.handler := handler;
      this.isInline := isInline;
      this.isListen := isListen;
      state := if isListen then Listen else SynSent;
      sent := [];
      initSignals, initTaken, closeSignals, closeTaken := 0, 0, 0, 0;
      NewMuxInv(isListen);
    }

    /** sendInline: the state is framed and handed to the socket; a failed
        send is only logged. */
    method SendInline(s: Int32)
      modifies this
      ensures sent == old(sent) + [s]
      ensures state == old(state) && initSignals == old(initSignals) && closeSignals == old(closeSignals)
      ensures initTaken == old(initTaken) && closeTaken == old(closeTaken)
    {
      sent := sent + [s];
    }

    /** inlineProtocol: the state is stored and announced step by step. */
    method InlineProtocol(received: Int32) returns (r: MuxReply)
      modifies this
      ensures Snapshot() == Apply(old(Snapshot()), Inline(received, old(state)))
      ensures r == Inline(received, old(state)).reply
    {
      if received == SynSent && state == Listen {
        state := SynRcvd;
        SendInline(SynRcvd);
        r := MuxReply(ControlFrameSize, NoError);
      } else if received == SynRcvd && state == SynSent {
        state := Established;
        SendInline(Established);
        initSignals := initSignals + 1;
        r := MuxReply(ControlFrameSize, NoError);
      } else if received == Established && state == SynRcvd {
        state := Established;
        initSignals := initSignals + 1;
        r := MuxReply(ControlFrameSize, NoError);
      } else if received == FinWait1 && state == Established {
        state := CloseWait;
        SendInline(CloseWait);
        state := LastAck;
        SendInline(LastAck);
        r := MuxReply(ControlFrameSize, NoError);
      } else if received == TimeWait && state == LastAck {
        r := MuxReply(ControlFrameSize, Eof);
      } else if received == CloseWait && state == FinWait1 {
        state := FinWait2;
        r := MuxReply(ControlFrameSize, NoError);
      } else if received == LastAck && state == FinWait2 {
        state := TimeWait;
        SendInline(TimeWait);
        closeSignals := closeSignals + 1;
        r := MuxReply(ControlFrameSize, Eof);
      } else {
        r := MuxReply(0, InlineInvalid(received, state));
      }
    }

    /** onMsg, with a short control prefix waiting for more bytes. */
    method OnMsg(msg: seq<Byte>) returns (r: MuxReply)
      requires Valid()
      modifies this
      ensures Valid()
      ensures (Snapshot(), r) == MuxOnMsg(old(Snapshot()), isInline, handler, msg)
    {
      OnMsgKeepsInv(Snapshot(), isInline, handler, msg);
      if !isInline {
        r := Passthrough(handler(msg));
      } else if |msg| < HeaderSize {
        r := MuxReply(0, NoError);
      } else if msg[0] == 0 {
        if state == Established {
          r := DataReply(handler(msg[HeaderSize..]));
        } else {
          r := MuxReply(0, NotEstablished(state));
        }
      } else if |msg| < ControlFrameSize {
        r := MuxReply(0, NoError);
      } else {
        r := InlineProtocol(DecodeInt32(msg[HeaderSize..ControlFrameSize]));
      }
    }

    /** init's first half: announce SynSent when dialling. */
    method Init()
      requires Valid()
      modifies this
      ensures Valid()
      ensures Snapshot() == SendSyn(old(Snapshot()), isInline)
    {
      if isInline && state == SynSent {
        SendInline(SynSent);
      }
    }

    /** init's wait: with the inline protocol off init returns at once;
        otherwise a pending initCh signal is taken, else the ticker ends it
        with a timeout error. */
    method AwaitInit(timedOut: bool) returns (w: Wait)
      requires Valid()
      modifies this
      ensures Valid()
      ensures !isInline ==> w == Signalled && Snapshot() == old(Snapshot())
      ensures isInline ==> w == AwaitSignal(old(initSignals), old(initTaken), timedOut)
      ensures isInline && w == Signalled ==> initTaken == old(initTaken) + 1 && Rank(state) >= Rank(Established)
      ensures !(isInline && w == Signalled) ==> Snapshot() == old(Snapshot())
      ensures state == old(state) && sent == old(sent) && initSignals == old(initSignals)
      ensures closeSignals == old(closeSignals) && closeTaken == old(closeTaken)
    {
      if !isInline {
        return Signalled;
      }
      w := AwaitSignal(initSignals, initTaken, timedOut);
      if w == Signalled {
        initTaken := initTaken + 1;
      }
    }

    /** close's first half: an established mux enters FinWait1 and
        announces it; any other state only logs. Returns whether close
        then waits on closeCh. */
    method Close() returns (waits: bool)
      requires Valid()
      modifies this
      ensures Valid()
      ensures waits <==> isInline && old(state) == Established
      ensures Snapshot() == StartClose(old(Snapshot()), isInline)
    {
      waits := isInline && state == Established;
      if waits {
        state := FinWait1;
        SendInline(FinWait1);
      }
    }

    /** close's wait: a pending closeCh signal is taken, else the ticker
        ends it, logging a timeout. */
    method AwaitClose(timedOut: bool) returns (w: Wait)
      requires Valid()
      modifies this
      ensures Valid()
      ensures w == AwaitSignal(old(closeSignals), old(closeTaken), timedOut)
      ensures w == Signalled ==> closeTaken == old(closeTaken) + 1 && state == TimeWait
      ensures w != Signalled ==> closeTaken == old(closeTaken)
      ensures state == old(state) && sent == old(sent) && initSignals == old(initSignals)
      ensures initTaken == old(initTaken) && closeSignals == old(closeSignals)
    {
      w := AwaitSignal(closeSignals, closeTaken, timedOut);
      if w == Signalled {
        closeTaken := closeTaken + 1;
      }
    }
  }
}
