/** pkg/xmsg: the application framing every stream transport carries. A
    message is a 16-byte header (Seq, Cmd, Flag, Len, each a little-endian
    int32) followed by Len payload bytes. */
module XMsgCodec {
  import opened Wrappers
  import opened Bytes
  import opened XNetCommon
  import XNetStream

  const HeaderSize: nat := 16
  const MaxInt32: nat := 0x7FFF_FFFF

  datatype Header = Header(seqNo: Int32, cmd: Int32, flag: Int32, len: Int32)

  /** binary.Write of a Header. */
  function EncodeHeader(h: Header): (s: seq<Byte>)
    ensures |s| == HeaderSize
  {
    EncodeInt32(h.seqNo) + EncodeInt32(h.cmd) + EncodeInt32(h.flag) + EncodeInt32(h.len)
  }

  /** binary.Read of a Header from the first 16 bytes. */
  function DecodeHeader(s: seq<Byte>): Header
    requires |s| >= HeaderSize
  {
    Header(DecodeInt32(s[0..4]), DecodeInt32(s[4..8]), DecodeInt32(s[8..12]), DecodeInt32(s[12..16]))
  }

  lemma HeaderRoundTrip(h: Header, rest: seq<Byte>)
    ensures DecodeHeader(EncodeHeader(h) + rest) == h
  {
    var s := EncodeHeader(h) + rest;
    assert s[0..4] == EncodeInt32(h.seqNo);
    assert s[4..8] == EncodeInt32(h.cmd);
    assert s[8..12] == EncodeInt32(h.flag);
    assert s[12..16] == EncodeInt32(h.len);
    Int32RoundTrip(h.seqNo);
    Int32RoundTrip(h.cmd);
    Int32RoundTrip(h.flag);
    Int32RoundTrip(h.len);
  }

  /** Every 16 bytes are the encoding of the header they decode to. */
  lemma HeaderSurjective(s: seq<Byte>)
    requires |s| >= HeaderSize
    ensures EncodeHeader(DecodeHeader(s)) == s[..HeaderSize]
  {
    Int32Surjective(s[0..4]);
    Int32Surjective(s[4..8]);
    Int32Surjective(s[8..12]);
    Int32Surjective(s[12..16]);
    assert s[..HeaderSize] == s[0..4] + s[4..8] + s[8..12] + s[12..16];
  }

  /** What the callback of ParseMsgWarp receives (the connection state is
      passed through untouched and is not modelled). */
  datatype MsgArgs = MsgArgs(header: Header, payload: seq<Byte>)

  /** The wrapped callback; true means it returned an error. */
  type Callback = MsgArgs -> bool

  /** What ParseMsgWarp finds at the front of the buffer. */
  datatype Parsed = NeedMore | Frame(header: Header, payload: seq<Byte>) | NegativeLen(header: Header)

  /** The parse with a negative Len rejected. */
  function Parse(msg: seq<Byte>): (p: Parsed)
    ensures |msg| < HeaderSize ==> p == NeedMore
    ensures p.Frame? ==> 0 <= p.header.len && |p.payload| == p.header.len &&
                         HeaderSize + |p.payload| <= |msg| && p.payload == msg[HeaderSize..HeaderSize + |p.payload|]
    ensures |msg| >= HeaderSize ==> (p.NegativeLen? <==> DecodeHeader(msg).len < 0)
    ensures p.NeedMore? <==> |msg| < HeaderSize || (0 <= DecodeHeader(msg).len && |msg| < HeaderSize + DecodeHeader(msg).len)
  {
    if |msg| < HeaderSize then NeedMore
    else
      var h := DecodeHeader(msg);
      if h.len < 0 then NegativeLen(h)
      else if |msg| < HeaderSize + h.len then NeedMore
      else Frame(h, msg[HeaderSize..HeaderSize + h.len])
  }

  /** One call of the handler ParseMsgWarp returns: "need more" as (0, nil);
      a whole frame goes to the callback and HeaderSize + Len bytes are
      consumed whether or not the callback fails; a negative Len is an error. */
  function OnMsgOnce(fn: Callback, msg: seq<Byte>): (r: Handled)
    ensures r.count <= |msg|
    ensures r.count > 0 <==> Parse(msg).Frame?
  {
    match Parse(msg)
    case NeedMore => Handled(0, false)
    case Frame(h, p) => Handled(HeaderSize + |p|, fn(MsgArgs(h, p)))
    case NegativeLen(_) => Handled(0, true)
  }

  /** ParseMsgWarp: the framing handler for a callback. */
  function ParseMsgWarp(fn: Callback): (h: Handler)
    ensures FramingContract(h)
  {
    msg => OnMsgOnce(fn, msg)
  }

  datatype PackMsgArgs = PackMsgArgs(seqNo: Int32, cmd: Int32, flag: Int32, payload: seq<Byte>)

  /** PackMsg: the header, with Len the payload length converted to int32,
      then the payload. */
  function PackMsg(a: PackMsgArgs): (msg: seq<Byte>)
    ensures |msg| == HeaderSize + |a.payload|
    ensures msg[HeaderSize..] == a.payload
  {
    EncodeHeader(Header(a.seqNo, a.cmd, a.flag, WrapInt32(|a.payload|))) + a.payload
  }

  /** Parsing a packed message, whatever follows it, gives back its header
      fields and payload, and the handler consumes exactly the packed bytes. */
  lemma PackParse(a: PackMsgArgs, rest: seq<Byte>)
    requires |a.payload| <= MaxInt32
    ensures Parse(PackMsg(a) + rest) == Frame(Header(a.seqNo, a.cmd, a.flag, |a.payload|), a.payload)
    ensures forall fn: Callback :: OnMsgOnce(fn, PackMsg(a) + rest).count == |PackMsg(a)|
  {
    var h := Header(a.seqNo, a.cmd, a.flag, |a.payload|);
    assert WrapInt32(|a.payload|) == |a.payload|;
    assert PackMsg(a) + rest == EncodeHeader(h) + (a.payload + rest);
    HeaderRoundTrip(h, a.payload + rest);
    var m := PackMsg(a) + rest;
    assert m[HeaderSize..HeaderSize + |a.payload|] == a.payload;
  }

  /** Conversely a parsed frame is exactly the packing of what it carries. */
  lemma ParsePack(msg: seq<Byte>)
    requires Parse(msg).Frame?
    ensures var p := Parse(msg);
            PackMsg(PackMsgArgs(p.header.seqNo, p.header.cmd, p.header.flag, p.payload)) == msg[..HeaderSize + |p.payload|]
  {
    var p := Parse(msg);
    HeaderSurjective(msg);
    assert WrapInt32(|p.payload|) == p.header.len;
    assert msg[..HeaderSize + |p.payload|] == msg[..HeaderSize] + p.payload;
  }

  /** The header is read from the first 16 bytes alone. */
  lemma DecodeHeaderPrefix(s: seq<Byte>, t: seq<Byte>)
    requires |s| >= HeaderSize && |t| >= HeaderSize && s[..HeaderSize] == t[..HeaderSize]
    ensures DecodeHeader(s) == DecodeHeader(t)
  {
    assert s[0..4] == s[..HeaderSize][0..4] && t[0..4] == t[..HeaderSize][0..4];
    assert s[4..8] == s[..HeaderSize][4..8] && t[4..8] == t[..HeaderSize][4..8];
    assert s[8..12] == s[..HeaderSize][8..12] && t[8..12] == t[..HeaderSize][8..12];
    assert s[12..16] == s[..HeaderSize][12..16] && t[12..16] == t[..HeaderSize][12..16];
  }

  /** Any proper prefix of a packed message is "need more". */
  lemma PrefixNeedsMore(a: PackMsgArgs, k: nat)
    requires |a.payload| <= MaxInt32 && k < |PackMsg(a)|
    ensures Parse(PackMsg(a)[..k]) == NeedMore
  {
    if k >= HeaderSize {
      var m := PackMsg(a);
      var h := Header(a.seqNo, a.cmd, a.flag, |a.payload|);
      assert WrapInt32(|a.payload|) == |a.payload|;
      HeaderRoundTrip(h, a.payload);
      assert m[..k][..HeaderSize] == m[..HeaderSize];
      DecodeHeaderPrefix(m[..k], m);
    }
  }

  /** The parse as written: a negative Len passes the length check and the
      slice msg[16:16+Len] has its end before its start, so Go panics
      (None). */
  function ParseAsWritten(msg: seq<Byte>): (p: Option<Parsed>)
    ensures p.None? <==> Parse(msg).NegativeLen?
    ensures p.Some? ==> p.value == Parse(msg)
  {
    if |msg| < HeaderSize then Some(NeedMore)
    else
      var h := DecodeHeader(msg);
      if |msg| < HeaderSize + h.len then Some(NeedMore)
      else if HeaderSize + h.len < HeaderSize then None
      else Some(Frame(h, msg[HeaderSize..HeaderSize + h.len]))
  }

  /** The input that shows it: a lone header announcing Len = -1 makes the
      parser as written panic, while the corrected one reports an error and
      consumes nothing. */
  lemma NegativeLenPanics(fn: Callback)
    ensures ParseAsWritten(EncodeHeader(Header(0, 0, 0, -1))) == None
    ensures OnMsgOnce(fn, EncodeHeader(Header(0, 0, 0, -1))) == Handled(0, true)
  {
    HeaderRoundTrip(Header(0, 0, 0, -1), []);
    assert EncodeHeader(Header(0, 0, 0, -1)) + [] == EncodeHeader(Header(0, 0, 0, -1));
  }

  /** The bytes of a sequence of packed messages. */
  function PackAll(msgs: seq<PackMsgArgs>): (s: seq<seq<Byte>>)
    ensures |s| == |msgs|
  {
    if msgs == [] then [] else [PackMsg(msgs[0])] + PackAll(msgs[1..])
  }

  /** A stream read loop fed the concatenation of packed messages (and a
      callback that never fails) cuts it back into exactly those messages. */
  lemma {:induction false} ReframePacked(fn: Callback, msgs: seq<PackMsgArgs>)
    requires forall a :: !fn(a)
    requires forall i :: 0 <= i < |msgs| ==> |msgs[i].payload| <= MaxInt32
    ensures XNetStream.Reframe(ParseMsgWarp(fn), Concat(PackAll(msgs))) ==
            XNetStream.Reframed(PackAll(msgs), [], XNetStream.NeedMore)
  {
    var h := ParseMsgWarp(fn);
    if msgs == [] {
      assert Parse([]) == NeedMore;
    } else {
      var head := PackMsg(msgs[0]);
      var tail := Concat(PackAll(msgs[1..]));
      assert Concat(PackAll(msgs)) == head + tail;
      PackParse(msgs[0], tail);
      assert h(head + tail) == Handled(|head|, false);
      assert (head + tail)[..|head|] == head;
      assert (head + tail)[|head|..] == tail;
      ReframePacked(fn, msgs[1..]);
    }
  }
}
