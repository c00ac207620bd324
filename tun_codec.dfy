/** cmd/udp_tun/internal/handlers/codec.go: the optional 8-byte header the
    tunnel puts in front of each datagram, the sender's clock in Unix
    milliseconds as a little-endian int64. */
module TunCodec {
  import opened Wrappers
  import opened Bytes

  const HeaderSize: nat := 8

  /** pack: the header stamped with `now`, then the message. */
  function Pack(msg: seq<Byte>, now: Int64): (r: seq<Byte>)
    ensures |r| == HeaderSize + |msg|
  {
    EncodeInt64(now) + msg
  }

  /** The timestamp a message's header carries. */
  function HeaderTime(msg: seq<Byte>): Int64
    requires |msg| >= HeaderSize
  {
    DecodeInt64(msg[..HeaderSize])
  }

  /** unpack: a message shorter than the header is an error; otherwise the
      header is dropped and the rest returned. */
  function Unpack(msg: seq<Byte>): (r: Result<seq<Byte>>)
    ensures r.Ok? <==> |msg| >= HeaderSize
    ensures r.Ok? ==> HeaderSize + |r.value| == |msg|
  {
    if |msg| < HeaderSize then Err("msg not enough") else Ok(msg[HeaderSize..])
  }

  /** The delay unpack logs: the receiver's clock minus the header's. */
  function Delay(msg: seq<Byte>, now: Int64): int
    requires |msg| >= HeaderSize
  {
    now - HeaderTime(msg)
  }

  /** unpack(pack(m)) is m, and the header carries the packing time. */
  lemma UnpackPack(msg: seq<Byte>, now: Int64)
    ensures Unpack(Pack(msg, now)) == Ok(msg)
    ensures HeaderTime(Pack(msg, now)) == now
  {
    var r := Pack(msg, now);
    assert r[..HeaderSize] == EncodeInt64(now) && r[HeaderSize..] == msg;
    Int64RoundTrip(now);
  }

  /** Conversely a message that unpacks is the packing of its payload at
      its header's time. */
  lemma PackUnpack(msg: seq<Byte>)
    requires Unpack(msg).Ok?
    ensures Pack(Unpack(msg).value, HeaderTime(msg)) == msg
  {
    Int64Surjective(msg[..HeaderSize]);
    assert msg == msg[..HeaderSize] + msg[HeaderSize..];
  }
}
