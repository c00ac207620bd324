/** cmd/udp_tun/internal/handlers/snmp.go: per-connection tunnel traffic
    counters, kept in a table by connection id, and a running total that
    absorbs each connection's counters when the connection closes. */
module TunSnmp {
  import opened Bytes
  import opened XCommonMath

  /** singleTunSnmpClone: the counters of one entry as values. */
  datatype Counters = Counters(inBytes: nat, inPackets: nat, inLatencys: seq<Int64>,
                               outBytes: nat, outPackets: nat)

  function Zero(): Counters {
    Counters(0, 0, [], 0, 0)
  }

  /** One delay is recorded per inbound packet. */
  predicate CountersInv(c: Counters) {
    |c.inLatencys| == c.inPackets
  }

  /** The sum of a list of delays. */
  function Sum(s: seq<Int64>): int {
    if s == [] then 0 else Sum(s[..|s| - 1]) + s[|s| - 1]
  }

  /** recv: one more inbound packet of `len` bytes, seen with `delay`. */
  function Received(c: Counters, len: nat, delay: Int64): (r: Counters)
    ensures CountersInv(c) ==> CountersInv(r)
    ensures r.inPackets == c.inPackets + 1 && r.inBytes == c.inBytes + len
    ensures Sum(r.inLatencys) == Sum(c.inLatencys) + delay
    ensures r.outBytes == c.outBytes && r.outPackets == c.outPackets
  {
    assert (c.inLatencys + [delay])[..|c.inLatencys|] == c.inLatencys;
    c.(inBytes := c.inBytes + len, inPackets := c.inPackets + 1, inLatencys := c.inLatencys + [delay])
  }

  /** send: one more outbound packet of `len` bytes. */
  function Sent(c: Counters, len: nat): (r: Counters)
    ensures CountersInv(c) ==> CountersInv(r)
    ensures r.outPackets == c.outPackets + 1 && r.outBytes == c.outBytes + len
    ensures r.(outBytes := c.outBytes, outPackets := c.outPackets) == c
  {
    c.(outBytes := c.outBytes + len, outPackets := c.outPackets + 1)
  }

  /** add: every counter summed, the delay lists concatenated. */
  function Merge(a: Counters, b: Counters): (r: Counters)
    ensures CountersInv(a) && CountersInv(b) ==> CountersInv(r)
    ensures a == Zero() ==> r == b
    ensures b == Zero() ==> r == a
  {
    Counters(a.inBytes + b.inBytes, a.inPackets + b.inPackets, a.inLatencys + b.inLatencys,
             a.outBytes + b.outBytes, a.outPackets + b.outPackets)
  }

  lemma {:induction false} SumConcat(a: seq<Int64>, b: seq<Int64>)
    ensures Sum(a + b) == Sum(a) + Sum(b)
    decreases |b|
  {
    if b == [] {
      assert a + b == a;
    } else {
      var b' := b[..|b| - 1];
      assert (a + b)[..|a + b| - 1] == a + b';
      SumConcat(a, b');
    }
  }

  /** Merging adds up the total delay as well as the counters. */
  lemma MergeSums(a: Counters, b: Counters)
    ensures Sum(Merge(a, b).inLatencys) == Sum(a.inLatencys) + Sum(b.inLatencys)
  {
    SumConcat(a.inLatencys, b.inLatencys);
  }

  /** Merging the entries one after the other into the total is merging
      them together first: the total does not depend on how closes are
      grouped. */
  lemma MergeAssociative(a: Counters, b: Counters, c: Counters)
    ensures Merge(Merge(a, b), c) == Merge(a, Merge(b, c))
  {
    assert (a.inLatencys + b.inLatencys) + c.inLatencys == a.inLatencys + (b.inLatencys + c.inLatencys);
  }

  /** The average display shows: the summed delays divided, truncating as
      Go does, by the packet count, and 0 when there are no packets. */
  function AverageDelay(c: Counters): (a: int)
    ensures c.inPackets == 0 ==> a == 0
  {
    if c.inPackets != 0 then TruncDiv(Sum(c.inLatencys), c.inPackets) else 0
  }

  lemma {:induction false} SumBounds(s: seq<Int64>, lo: int, hi: int)
    requires forall i :: 0 <= i < |s| ==> lo <= s[i] <= hi
    ensures |s| * lo <= Sum(s) <= |s| * hi
  {
    if s != [] {
      SumBounds(s[..|s| - 1], lo, hi);
      assert |s| * lo == (|s| - 1) * lo + lo;
      assert |s| * hi == (|s| - 1) * hi + hi;
    }
  }

  lemma MulCancel(n: int, x: int, y: int)
    requires n > 0 && n * x < n * (y + 1)
    ensures x <= y
  {
  }

  /** The displayed average lies between the smallest and the largest
      recorded delay. */
  lemma AverageBetween(c: Counters, lo: int, hi: int)
    requires CountersInv(c) && c.inPackets > 0
    requires forall i :: 0 <= i < |c.inLatencys| ==> lo <= c.inLatencys[i] <= hi
    ensures lo <= AverageDelay(c) <= hi
  {
    var n, s := c.inPackets, Sum(c.inLatencys);
    SumBounds(c.inLatencys, lo, hi);
    TruncDivSpec(s, n);
    var q, r := TruncDiv(s, n), TruncRem(s, n);
    assert s == n * q + r && -n < r < n;
    if s >= 0 {
      assert 0 <= r;
      MulCancel(n, q, hi);
      MulCancel(n, lo, q);
    } else {
      assert r <= 0;
      MulCancel(n, q, hi);
      MulCancel(n, lo, q);
    }
  }

  /** singleTunSnmp: the counters of one connection. */
  class SingleTunSnmp {
    const id: string
    var inBytes: nat
    var inPackets: nat
    var inLatencys: seq<Int64>
    var outBytes: nat
    var outPackets: nat

    function Snapshot(): Counters
      reads this
    {
      Counters(inBytes, inPackets, inLatencys, outBytes, outPackets)
    }

    predicate Valid()
      reads this
    {
      CountersInv(Snapshot())
    }

    constructor (id: string)
      ensures this.id == id && Snapshot() == Zero() && Valid()
    {
      this.id := id;
      inBytes, inPackets, inLatencys, outBytes, outPackets := 0, 0, [], 0, 0;
    }

    /** clone: a copy of every counter and of the delay list. */
    method Clone() returns (c: Counters)
      ensures c == Snapshot()
    {
      c := Counters(inBytes, inPackets, inLatencys, outBytes, outPackets);
    }

    method Recv(len: nat, delay: Int64)
      modifies this
      ensures Snapshot() == Received(old(Snapshot()), len, delay)
      ensures old(Valid()) ==> Valid()
    {
      inBytes := inBytes + len;
      inPackets := inPackets + 1;
      inLatencys := inLatencys + [delay];
    }

    method Send(len: nat)
      modifies this
      ensures Snapshot() == Sent(old(Snapshot()), len)
      ensures old(Valid()) ==> Valid()
    {
      outBytes := outBytes + len;
      outPackets := outPackets + 1;
    }

    method Add(c: Counters)
      modifies this
      ensures Snapshot() == Merge(old(Snapshot()), c)
      ensures old(Valid()) && CountersInv(c) ==> Valid()
    {
      inBytes := inBytes + c.inBytes;
      inPackets := inPackets + c.inPackets;
      inLatencys := inLatencys + c.inLatencys;
      outBytes := outBytes + c.outBytes;
      outPackets := outPackets + c.outPackets;
    }

    /** The average display computes, summing the delays in a loop. */
    method Display() returns (average: int)
      ensures average == AverageDelay(Snapshot())
    {
      var allDelay: int := 0;
      var i := 0;
      while i < |inLatencys|
        invariant 0 <= i <= |inLatencys|
        invariant allDelay == Sum(inLatencys[..i])
      {
        assert inLatencys[..i + 1][..i] == inLatencys[..i];
        allDelay := allDelay + inLatencys[i];
        i := i + 1;
      }
      assert inLatencys[..i] == inLatencys;
      average := 0;
      if inPackets != 0 {
        average := TruncDiv(allDelay, inPackets);
      }
    }
  }

  /** tunSnmp: the running total and the table of live entries. */
  class TunSnmp {
    const total: SingleTunSnmp
    var snmps: map<string, SingleTunSnmp>

    /** Every entry is filed under its own id. */
    predicate Valid()
      reads this
    {
      forall k :: k in snmps ==> snmps[k].id == k
    }

    constructor ()
      ensures fresh(total) && total.id == "total" && total.Snapshot() == Zero()
      ensures snmps == map[] && Valid()
    {
      total := new SingleTunSnmp("total");
      snmps := map[];
    }

    /** getSingleTunSnmp: the entry already filed under `id`, or a fresh
        zeroed one filed under it. */
    method GetSingleTunSnmp(id: string) returns (sts: SingleTunSnmp)
      requires Valid()
      modifies this
      ensures Valid() && sts.id == id
      ensures id in old(snmps) ==> sts == old(snmps)[id] && snmps == old(snmps)
      ensures id !in old(snmps) ==> fresh(sts) && sts.Snapshot() == Zero() && snmps == old(snmps)[id := sts]
    {
      if id in snmps {
        return snmps[id];
      }
      sts := new SingleTunSnmp(id);
      snmps := snmps[id := sts];
    }

    /** close: the entry's counters are added to the total, and its id,
        and only its id, leaves the table. */
    method Close(sts: SingleTunSnmp)
      modifies total, this
      ensures total.Snapshot() == Merge(old(total.Snapshot()), old(sts.Snapshot()))
      ensures snmps == old(snmps) - {sts.id}
      ensures old(Valid()) ==> Valid()
    {
      var c := sts.Clone();
      total.Add(c);
      snmps := snmps - {sts.id};
    }
  }
}
