/** pkg/xlatency/codec.go: an 8-byte header in front of a message. The
    header struct's only field, `now`, is unexported; encoding/binary
    writes such a field but cannot set it when reading, because reflection
    refuses to assign a field reached through an unexported name. */
module XLatencyCodec {
  import opened Wrappers
  import opened Bytes

  const HeaderSize: nat := 8

  /** latencyData: the decoded header time and the rest of the message. */
  datatype LatencyData = LatencyData(now: Int64, msg: seq<Byte>)

  /** pack: the header stamped with `now`, then the message. The code is
      the same as the tunnel codec's pack (TunCodec.Pack); the two packages
      each keep their own copy. */
  function Pack(msg: seq<Byte>, now: Int64): (r: seq<Byte>)
    ensures |r| == HeaderSize + |msg|
  {
    EncodeInt64(now) + msg
  }

  /** unpack as it evidently should behave: too short is an error, else
      the header time and the rest. */
  function Unpack(msg: seq<Byte>): (r: Result<LatencyData>)
    ensures r.Ok? <==> |msg| >= HeaderSize
    ensures r.Ok? ==> HeaderSize + |r.value.msg| == |msg|
  {
    if |msg| < HeaderSize then Err("msg not enough")
    else Ok(LatencyData(DecodeInt64(msg[..HeaderSize]), msg[HeaderSize..]))
  }

  /** unpack as written: once the length check passes, binary.Read into
      the struct with the unexported field panics (None). */
  function UnpackAsWritten(msg: seq<Byte>): (r: Option<Result<LatencyData>>)
    ensures |msg| < HeaderSize ==> r == Some(Unpack(msg))
    ensures |msg| >= HeaderSize ==> r == None
  {
    if |msg| < HeaderSize then Some(Err("msg not enough")) else None
  }

  /** The input that shows it: every packed message makes unpack as
      written panic, while the corrected unpack gives back the message and
      the time. */
  lemma PackedMessageBreaksUnpack(msg: seq<Byte>, now: Int64)
    ensures UnpackAsWritten(Pack(msg, now)) == None
    ensures Unpack(Pack(msg, now)) == Ok(LatencyData(now, msg))
  {
    var r := Pack(msg, now);
    assert r[..HeaderSize] == EncodeInt64(now) && r[HeaderSize..] == msg;
    Int64RoundTrip(now);
  }

  /** Conversely a message that unpacks is the packing of what it holds. */
  lemma PackUnpack(msg: seq<Byte>)
    requires Unpack(msg).Ok?
    ensures Pack(Unpack(msg).value.msg, Unpack(msg).value.now) == msg
  {
    Int64Surjective(msg[..HeaderSize]);
    assert msg == msg[..HeaderSize] + msg[HeaderSize..];
  }
}
