/** Fixed-width integers and the little-endian byte layout that
    Go's encoding/binary produces for them. */
module Bytes {

  type Byte = x: int | 0 <= x < 0x100
  type Int8 = x: int | -0x80 <= x < 0x80
  type Int32 = x: int | -0x8000_0000 <= x < 0x8000_0000
  type Int64 = x: int | -0x8000_0000_0000_0000 <= x < 0x8000_0000_0000_0000
  type Uint8 = x: int | 0 <= x < 0x100
  type Uint32 = x: int | 0 <= x < 0x1_0000_0000
  type Uint64 = x: int | 0 <= x < 0x1_0000_0000_0000_0000

  const MaxInt64: int := 0x7FFF_FFFF_FFFF_FFFF
  const MinInt64: int := -0x8000_0000_0000_0000

  /** 256 to the power n: the number of distinct n-byte values. */
  function Pow256(n: nat): (p: nat)
    ensures p >= 1
  {
    if n == 0 then 1 else 256 * Pow256(n - 1)
  }

  /** Unsigned little-endian encoding of v in exactly n bytes. */
  function EncodeLE(v: nat, n: nat): (s: seq<Byte>)
    requires v < Pow256(n)
    ensures |s| == n
  {
    if n == 0 then [] else [v % 256] + EncodeLE(v / 256, n - 1)
  }

  /** Unsigned little-endian value of a byte string. */
  function DecodeLE(s: seq<Byte>): (v: nat)
    ensures v < Pow256(|s|)
  {
    if s == [] then 0 else s[0] + 256 * DecodeLE(s[1..])
  }

  lemma {:induction false} DecodeEncodeLE(v: nat, n: nat)
    requires v < Pow256(n)
    ensures DecodeLE(EncodeLE(v, n)) == v
  {
    if n > 0 {
      DecodeEncodeLE(v / 256, n - 1);
      assert EncodeLE(v, n)[1..] == EncodeLE(v / 256, n - 1);
    }
  }

  lemma {:induction false} EncodeDecodeLE(s: seq<Byte>)
    ensures EncodeLE(DecodeLE(s), |s|) == s
  {
    if s != [] {
      EncodeDecodeLE(s[1..]);
      var v := DecodeLE(s);
      assert v % 256 == s[0] && v / 256 == DecodeLE(s[1..]);
    }
  }

  /** A positive power of 256 is even, so it splits into two halves. */
  lemma Pow256Even(n: nat)
    requires 0 < n
    ensures Pow256(n) == 2 * (Pow256(n) / 2)
  {
    assert Pow256(n) == 2 * (128 * Pow256(n - 1));
  }

  /** Two's-complement reading of an n-byte unsigned value (n > 0). */
  function ToSigned(u: nat, n: nat): (x: int)
    requires 0 < n && u < Pow256(n)
    ensures -(Pow256(n) / 2) <= x < Pow256(n) / 2
  {
    Pow256Even(n);
    if u < Pow256(n) / 2 then u else u - Pow256(n)
  }

  /** Two's-complement bit pattern of a signed n-byte value. */
  function ToUnsigned(x: int, n: nat): (u: nat)
    requires 0 < n && -(Pow256(n) / 2) <= x < Pow256(n) / 2
    ensures u < Pow256(n)
    ensures ToSigned(u, n) == x
  {
    if x < 0 then x + Pow256(n) else x
  }

  function EncodeInt32(x: Int32): (s: seq<Byte>)
    ensures |s| == 4
  {
    assert Pow256(4) == 0x1_0000_0000;
    EncodeLE(ToUnsigned(x, 4), 4)
  }

  function DecodeInt32(s: seq<Byte>): (x: Int32)
    requires |s| == 4
  {
    assert Pow256(4) == 0x1_0000_0000;
    ToSigned(DecodeLE(s), 4)
  }

  function EncodeInt64(x: Int64): (s: seq<Byte>)
    ensures |s| == 8
  {
    assert Pow256(8) == 0x1_0000_0000_0000_0000;
    EncodeLE(ToUnsigned(x, 8), 8)
  }

  function DecodeInt64(s: seq<Byte>): (x: Int64)
    requires |s| == 8
  {
    assert Pow256(8) == 0x1_0000_0000_0000_0000;
    ToSigned(DecodeLE(s), 8)
  }

  lemma Int32RoundTrip(x: Int32)
    ensures DecodeInt32(EncodeInt32(x)) == x
  {
    assert Pow256(4) == 0x1_0000_0000;
    DecodeEncodeLE(ToUnsigned(x, 4), 4);
  }

  lemma Int64RoundTrip(x: Int64)
    ensures DecodeInt64(EncodeInt64(x)) == x
  {
    assert Pow256(8) == 0x1_0000_0000_0000_0000;
    DecodeEncodeLE(ToUnsigned(x, 8), 8);
  }

  /** Every 4-byte string is the encoding of the int32 it decodes to. */
  lemma Int32Surjective(s: seq<Byte>)
    requires |s| == 4
    ensures EncodeInt32(DecodeInt32(s)) == s
  {
    assert Pow256(4) == 0x1_0000_0000;
    EncodeDecodeLE(s);
  }

  /** Every 8-byte string is the encoding of the int64 it decodes to. */
  lemma Int64Surjective(s: seq<Byte>)
    requires |s| == 8
    ensures EncodeInt64(DecodeInt64(s)) == s
  {
    assert Pow256(8) == 0x1_0000_0000_0000_0000;
    EncodeDecodeLE(s);
  }

  /** Go's conversion of an arbitrary integer to int32 / int64 / uint32 / uint64:
      keep the low bits and reinterpret them. */
  function WrapInt32(x: int): (r: Int32)
    ensures x == r + (x - r) / 0x1_0000_0000 * 0x1_0000_0000
    ensures (x - r) % 0x1_0000_0000 == 0
  {
    var u := x % 0x1_0000_0000;
    if u < 0x8000_0000 then u else u - 0x1_0000_0000
  }

  function WrapInt64(x: int): (r: Int64)
    ensures (x - r) % 0x1_0000_0000_0000_0000 == 0
  {
    var u := x % 0x1_0000_0000_0000_0000;
    if u < 0x8000_0000_0000_0000 then u else u - 0x1_0000_0000_0000_0000
  }

  function WrapUint32(x: int): (r: Uint32)
    ensures (x - r) % 0x1_0000_0000 == 0
  {
    x % 0x1_0000_0000
  }

  function WrapUint64(x: int): (r: Uint64)
    ensures (x - r) % 0x1_0000_0000_0000_0000 == 0
  {
    x % 0x1_0000_0000_0000_0000
  }

  /** Concatenation of a sequence of byte strings, in order. */
  function Concat(parts: seq<seq<Byte>>): (s: seq<Byte>)
  {
    if parts == [] then [] else parts[0] + Concat(parts[1..])
  }

  lemma {:induction false} ConcatAppend(a: seq<seq<Byte>>, b: seq<seq<Byte>>)
    ensures Concat(a + b) == Concat(a) + Concat(b)
  {
    if a != [] {
      assert (a + b)[1..] == a[1..] + b;
      ConcatAppend(a[1..], b);
    } else {
      assert a + b == b;
    }
  }

  lemma ConcatSingle(p: seq<Byte>)
    ensures Concat([p]) == p
  {
    assert [p][1..] == [];
  }
}
