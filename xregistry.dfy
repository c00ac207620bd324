/** pkg/xregistry: the server-side dispatch of xmsg frames. A table maps
    each command number to a handler; HandleWarp turns a handler on a typed
    request into one on payload bytes with the fixed-size little-endian
    Unmarshal; State.SendMsg marshals, packs and sends a reply. */
module XRegistry {
  import opened Wrappers
  import opened Bytes
  import opened XNetCommon
  import XMsgCodec

  /** The field types encoding/binary writes with a fixed size. */
  datatype Kind = KInt32 | KInt64 | KUint8 | KBool

  /** One field of a fixed-size value. */
  datatype Field = FInt32(i32: Int32) | FInt64(i64: Int64) | FUint8(u8: Byte) | FBool(b: bool)

  type Layout = seq<Kind>

  function KindOf(f: Field): Kind
  {
    match f
    case FInt32(_) => KInt32
    case FInt64(_) => KInt64
    case FUint8(_) => KUint8
    case FBool(_) => KBool
  }

  function LayoutOf(fields: seq<Field>): (l: Layout)
    ensures |l| == |fields|
  {
    if fields == [] then [] else [KindOf(fields[0])] + LayoutOf(fields[1..])
  }

  function KindSize(k: Kind): nat
  {
    match k
    case KInt32 => 4
    case KInt64 => 8
    case KUint8 => 1
    case KBool => 1
  }

  /** binary.Size of a value with this layout. */
  function LayoutSize(l: Layout): nat
  {
    if l == [] then 0 else KindSize(l[0]) + LayoutSize(l[1..])
  }

  function EncodeField(f: Field): (s: seq<Byte>)
    ensures |s| == KindSize(KindOf(f))
  {
    match f
    case FInt32(x) => EncodeInt32(x)
    case FInt64(x) => EncodeInt64(x)
    case FUint8(x) => [x]
    case FBool(x) => [if x then 1 else 0]
  }

  /** binary.Read of one field: a bool is any non-zero byte. */
  function DecodeField(s: seq<Byte>, k: Kind): (f: Field)
    requires |s| == KindSize(k)
    ensures KindOf(f) == k
  {
    match k
    case KInt32 => FInt32(DecodeInt32(s))
    case KInt64 => FInt64(DecodeInt64(s))
    case KUint8 => FUint8(s[0])
    case KBool => FBool(s[0] != 0)
  }

  lemma FieldRoundTrip(f: Field)
    ensures DecodeField(EncodeField(f), KindOf(f)) == f
  {
    match f
    case FInt32(x) => Int32RoundTrip(x);
    case FInt64(x) => Int64RoundTrip(x);
    case FUint8(_) =>
    case FBool(_) =>
  }

  /** The fields, in order, each little-endian. */
  function EncodeFields(fields: seq<Field>): (s: seq<Byte>)
    ensures |s| == LayoutSize(LayoutOf(fields))
  {
    if fields == [] then [] else EncodeField(fields[0]) + EncodeFields(fields[1..])
  }

  /** The fields of a layout read from the front of the bytes. */
  function DecodeFields(s: seq<Byte>, l: Layout): (fields: seq<Field>)
    requires |s| >= LayoutSize(l)
    ensures LayoutOf(fields) == l
  {
    if l == [] then []
    else
      var n := KindSize(l[0]);
      [DecodeField(s[..n], l[0])] + DecodeFields(s[n..], l[1..])
  }

  /** What Marshal is given: a value binary.Write can size, or one it
      cannot (a string, a map, a platform-sized int). */
  datatype Data = Fixed(fields: seq<Field>) | Variable

  /** Marshal: binary.Write into a fresh buffer. */
  function Marshal(d: Data): (r: Result<seq<Byte>>)
    ensures r.Ok? <==> d.Fixed?
    ensures r.Ok? ==> |r.value| == LayoutSize(LayoutOf(d.fields))
  {
    match d
    case Fixed(fields) => Ok(EncodeFields(fields))
    case Variable => Err("binary.Write: invalid type")
  }

  /** Unmarshal: binary.Read into a value of the given layout. Too few
      bytes is an error (io.EOF or io.ErrUnexpectedEOF); bytes past the
      value are ignored. */
  function Unmarshal(msg: seq<Byte>, l: Layout): (r: Result<seq<Field>>)
    ensures r.Ok? <==> |msg| >= LayoutSize(l)
    ensures r.Ok? ==> LayoutOf(r.value) == l
  {
    if |msg| < LayoutSize(l) then Err("unexpected EOF") else Ok(DecodeFields(msg, l))
  }

  /** Reading a layout off a field's bytes followed by more. */
  lemma DecodeFieldsStep(head: seq<Byte>, tail: seq<Byte>, k: Kind, l: Layout)
    requires |head| == KindSize(k) && |tail| >= LayoutSize(l)
    ensures DecodeFields(head + tail, [k] + l) == [DecodeField(head, k)] + DecodeFields(tail, l)
  {
    var s := head + tail;
    assert ([k] + l)[0] == k && ([k] + l)[1..] == l;
    assert s[..|head|] == head && s[|head|..] == tail;
  }

  lemma {:induction false} DecodeEncodeFields(fields: seq<Field>, rest: seq<Byte>)
    ensures |EncodeFields(fields) + rest| >= LayoutSize(LayoutOf(fields))
    ensures DecodeFields(EncodeFields(fields) + rest, LayoutOf(fields)) == fields
  {
    if fields != [] {
      var f := fields[0];
      var tail := EncodeFields(fields[1..]) + rest;
      assert EncodeFields(fields) + rest == EncodeField(f) + tail;
      assert LayoutOf(fields) == [KindOf(f)] + LayoutOf(fields[1..]);
      DecodeEncodeFields(fields[1..], rest);
      DecodeFieldsStep(EncodeField(f), tail, KindOf(f), LayoutOf(fields[1..]));
      FieldRoundTrip(f);
      assert fields == [f] + fields[1..];
    }
  }

  /** Unmarshal(Marshal(x)) gives x back, whatever follows the encoding. */
  lemma MarshalRoundTrip(fields: seq<Field>, rest: seq<Byte>)
    ensures Unmarshal(Marshal(Fixed(fields)).value + rest, LayoutOf(fields)) == Ok(fields)
  {
    DecodeEncodeFields(fields, rest);
  }

  /** The errors the dispatch can return. */
  datatype RegError = NoHandler(cmd: Int32) | UnmarshalFailed(msg: string) | HandlerFailed

  /** What a handler call does: the packets it handed to the socket's
      SendMsg, in order, and the error it returned. */
  datatype Reply = Reply(sent: seq<seq<Byte>>, err: Option<RegError>)

  /** A HandleFunc, with the connection's State fixed. */
  type HandleFunc = seq<Byte> -> Reply

  /** The connection state: the socket replies go to (a tag here). */
  datatype State = State(sock: nat)

  /** OnConnect: the state of a new connection holds its socket. */
  function OnConnect(sock: nat): (s: State)
    ensures s.sock == sock
  {
    State(sock)
  }

  /** OnMsg: the handler registered for the frame's command gets the
      payload; an unknown command is an error. */
  function OnMsg(handlers: map<Int32, HandleFunc>, args: XMsgCodec.MsgArgs): (r: Reply)
    ensures args.header.cmd !in handlers ==> r == Reply([], Some(NoHandler(args.header.cmd)))
    ensures args.header.cmd in handlers ==> r == handlers[args.header.cmd](args.payload)
  {
    if args.header.cmd in handlers then handlers[args.header.cmd](args.payload)
    else Reply([], Some(NoHandler(args.header.cmd)))
  }

  /** The callback ParseMsgWarp is given: the dispatch's error, if any. */
  function OnMsgCallback(handlers: map<Int32, HandleFunc>): XMsgCodec.Callback
  {
    args => OnMsg(handlers, args).err.Some?
  }

  /** HandleWarp: the request is unmarshalled first and a failure is
      returned without calling the handler. */
  function HandleWarp<M>(unmarshal: seq<Byte> -> Result<M>, fn: M -> Reply): (h: HandleFunc)
    ensures forall msg :: unmarshal(msg).Err? ==> h(msg) == Reply([], Some(UnmarshalFailed(unmarshal(msg).msg)))
    ensures forall msg :: unmarshal(msg).Ok? ==> h(msg) == fn(unmarshal(msg).value)
  {
    msg => match unmarshal(msg)
           case Err(e) => Reply([], Some(UnmarshalFailed(e)))
           case Ok(req) => fn(req)
  }

  /** State.SendMsg: the packets handed to the socket. A marshal failure
      sends nothing (it is only logged); otherwise one xmsg frame with Seq
      and Flag 0 goes out, and a send failure is only logged. */
  function SendMsg(cmd: Int32, data: Data): (sent: seq<seq<Byte>>)
    ensures |sent| <= 1 && (sent != [] <==> data.Fixed?)
    ensures data.Fixed? ==> sent == [XMsgCodec.PackMsg(XMsgCodec.PackMsgArgs(0, cmd, 0, Marshal(data).value))]
  {
    match Marshal(data)
    case Err(_) => []
    case Ok(payload) => [XMsgCodec.PackMsg(XMsgCodec.PackMsgArgs(0, cmd, 0, payload))]
  }

  /** A sent reply parses back to the command and the marshalled data. */
  lemma SendMsgParses(cmd: Int32, fields: seq<Field>)
    requires LayoutSize(LayoutOf(fields)) <= XMsgCodec.MaxInt32
    ensures var p := XMsgCodec.Parse(SendMsg(cmd, Fixed(fields))[0]);
            p.Frame? && p.header.cmd == cmd && p.header.seqNo == 0 && p.header.flag == 0 &&
            Unmarshal(p.payload, LayoutOf(fields)) == Ok(fields)
  {
    var a := XMsgCodec.PackMsgArgs(0, cmd, 0, EncodeFields(fields));
    XMsgCodec.PackParse(a, []);
    assert XMsgCodec.PackMsg(a) + [] == XMsgCodec.PackMsg(a);
    MarshalRoundTrip(fields, []);
    assert EncodeFields(fields) + [] == EncodeFields(fields);
  }

  const CmdEcho: Int32 := 1

  datatype EchoReq = EchoReq(num: Int32)
  datatype EchoResp = EchoResp(num: Int32)

  /** binary.Read into an EchoReq / EchoResp: one int32. */
  function UnmarshalNum(msg: seq<Byte>): (r: Result<Int32>)
    ensures r.Ok? <==> |msg| >= 4
  {
    match Unmarshal(msg, [KInt32])
    case Err(e) => Err(e)
    case Ok(v) => assert LayoutOf(v) == [KInt32]; Ok(v[0].i32)
  }

  function UnmarshalEchoReq(msg: seq<Byte>): Result<EchoReq>
  {
    match UnmarshalNum(msg)
    case Err(e) => Err(e)
    case Ok(n) => Ok(EchoReq(n))
  }

  /** Echo: reply EchoResp with the same number under CmdEcho; never an
      error. */
  function Echo(req: EchoReq): (r: Reply)
    ensures r.err == None && r.sent == SendMsg(CmdEcho, Fixed([FInt32(req.num)]))
  {
    Reply(SendMsg(CmdEcho, Fixed([FInt32(req.num)])), None)
  }

  function EchoHandler(): HandleFunc
  {
    HandleWarp(UnmarshalEchoReq, Echo)
  }

  /** The command table (the package-level `handlers`). */
  class Registry {
    var handlers: map<Int32, HandleFunc>

    constructor ()
      ensures handlers == map[]
    {
      handlers := map[];
    }

    /** Register: a command registered twice panics (the table is left as
        it was); otherwise the handler is added. */
    method Register(cmd: Int32, fn: HandleFunc) returns (panicked: bool)
      modifies this
      ensures panicked <==> cmd in old(handlers)
      ensures panicked ==> handlers == old(handlers)
      ensures !panicked ==> handlers == old(handlers)[cmd := fn]
    {
      panicked := cmd in handlers;
      if !panicked {
        handlers := handlers[cmd := fn];
      }
    }

    /** handler_echo.go's init: register Echo under CmdEcho. */
    method InitEcho() returns (panicked: bool)
      modifies this
      ensures panicked <==> CmdEcho in old(handlers)
      ensures !panicked ==> handlers == old(handlers)[CmdEcho := EchoHandler()]
      ensures CmdEcho in handlers
    {
      panicked := Register(CmdEcho, EchoHandler());
    }
  }

  /** End to end: a client's packed EchoReq{n}, framed and dispatched by a
      table holding Echo, is consumed whole and answered by one frame under
      CmdEcho whose payload unmarshals to n. */
  lemma EchoEndToEnd(handlers: map<Int32, HandleFunc>, n: Int32, rest: seq<Byte>)
    requires CmdEcho in handlers && handlers[CmdEcho] == EchoHandler()
    ensures var req := XMsgCodec.PackMsg(XMsgCodec.PackMsgArgs(0, CmdEcho, 0, Marshal(Fixed([FInt32(n)])).value));
            var p := XMsgCodec.Parse(req + rest);
            XMsgCodec.OnMsgOnce(OnMsgCallback(handlers), req + rest) == Handled(|req|, false) &&
            p.Frame? &&
            var r := OnMsg(handlers, XMsgCodec.MsgArgs(p.header, p.payload));
            r.err == None && |r.sent| == 1 &&
            var q := XMsgCodec.Parse(r.sent[0]);
            q.Frame? && q.header.cmd == CmdEcho && UnmarshalNum(q.payload) == Ok(n)
  {
    var fields := [FInt32(n)];
    assert LayoutOf(fields) == [KInt32];
    var a := XMsgCodec.PackMsgArgs(0, CmdEcho, 0, EncodeFields(fields));
    XMsgCodec.PackParse(a, rest);
    MarshalRoundTrip(fields, []);
    assert EncodeFields(fields) + [] == EncodeFields(fields);
    SendMsgParses(CmdEcho, fields);
  }
}
