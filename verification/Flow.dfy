/** Packets, flows, and what `packet_processing` does to one flow. */
module Flow {
  const TWO_TO_16: int := 0x1_0000
  const TWO_TO_32: int := 0x1_0000_0000
  const TWO_TO_64: int := 0x1_0000_0000_0000_0000

  /** The value an unsigned integer with `m` values takes for `x`. Written as a recursion, it stays a number to the
      verifier where nothing about it is needed; WrapsAreModulo says what it is. */
  function Wrap(x: int, m: int): (r: int)
    requires m > 0
    ensures 0 <= r < m
    decreases if x < 0 then -x else x
  {
    if x < 0 then
      if x + m >= 0 then x + m else Wrap(x + m, m)
    else if x < m then x
    else Wrap(x - m, m)
  }

  lemma WrapStep(x: int, m: int)
    requires m > 0
    ensures Wrap(x + m, m) == Wrap(x, m)
  {
  }

  lemma {:induction false} WrapSum(a: int, b: int, m: int)
    requires m > 0
    ensures Wrap(Wrap(a, m) + b, m) == Wrap(a + b, m)
    decreases if a < 0 then -a else a
  {
    if a < 0 {
      WrapStep(a, m);
      WrapStep(a + b, m);
      if a + m < 0 {
        WrapSum(a + m, b, m);
      }
    } else if a >= m {
      WrapStep(a - m, m);
      WrapStep(a - m + b, m);
      WrapSum(a - m, b, m);
    }
  }

  /** Wrapping takes off a multiple of `m`. */
  lemma {:induction false} WrapIs(x: int, m: int) returns (k: int)
    requires m > 0
    ensures x == k * m + Wrap(x, m)
    decreases if x < 0 then -x else x
  {
    if x < 0 && x + m < 0 {
      k := WrapIs(x + m, m);
      k := k - 1;
    } else if x < 0 {
      k := -1;
    } else if x >= m {
      k := WrapIs(x - m, m);
      k := k + 1;
    } else {
      k := 0;
    }
  }

  // Unsigned integers of 16, 32 and 64 bits.
  function Wrap16(x: int): int { Wrap(x, TWO_TO_16) }
  function Wrap32(x: int): int { Wrap(x, TWO_TO_32) }
  function Wrap64(x: int): int { Wrap(x, TWO_TO_64) }

  lemma WrapsAreModulo(x: int)
    ensures Wrap16(x) == x % TWO_TO_16
    ensures Wrap32(x) == x % TWO_TO_32
    ensures Wrap64(x) == x % TWO_TO_64
  {
    var k16 := WrapIs(x, TWO_TO_16);
    var k32 := WrapIs(x, TWO_TO_32);
    var k64 := WrapIs(x, TWO_TO_64);
  }

  /** `sizeof(struct ndpi_ethhdr)` */
  const ETHERNET_HEADER: int := 14

  /** Ticks a second: microseconds. */
  const RESOLUTION: int := 1_000_000

  const IA_MAX: int := 10_000_000

  /** A captured packet: its header's time and 32-bit length, and the fields of its Ethernet and IP headers in host
      order. The ports are the four bytes behind the IP header. */
  datatype Packet = Packet(
    sec: nat, usec: nat, len: nat,
    etherType: nat, version: nat, ihl: nat, totLen: nat, fragOff: nat, protocol: nat,
    srcIp: nat, dstIp: nat, l4Source: nat, l4Dest: nat)

  datatype FlowKey = FlowKey(srcIp: int, srcPort: int, dstIp: int, dstPort: int, protocol: int)

  /** `header->len - ip_offset` and `header->len`, as 16-bit parameters. */
  function IpSize(p: Packet): int { Wrap16(p.len - ETHERNET_HEADER) }
  function RawSize(p: Packet): int { Wrap16(p.len) }

  /** A packet that is counted in a flow. */
  predicate Accepted(p: Packet) {
    && p.etherType == 8 && p.version == 4
    && IpSize(p) >= 20
    && p.ihl * 4 <= IpSize(p) && p.totLen <= IpSize(p) && p.fragOff % 0x2000 == 0
  }

  function KeyOf(p: Packet): FlowKey {
    var l4Length := Wrap16(p.totLen - p.ihl * 4);
    if (p.protocol == 6 && l4Length >= 20) || (p.protocol == 17 && l4Length >= 8) then
      FlowKey(p.srcIp, p.l4Source, p.dstIp, p.l4Dest, p.protocol)
    else FlowKey(p.srcIp, 0, p.dstIp, 0, p.protocol)
  }

  // ----- node_cmp -----

  function Compare(a: int, b: int): int {
    if a < b then -1 else if a > b then 1 else 0
  }

  function NodeCmp(a: FlowKey, b: FlowKey): int {
    if a.srcIp != b.srcIp then Compare(a.srcIp, b.srcIp)
    else if a.srcPort != b.srcPort then Compare(a.srcPort, b.srcPort)
    else if a.dstIp != b.dstIp then Compare(a.dstIp, b.dstIp)
    else if a.dstPort != b.dstPort then Compare(a.dstPort, b.dstPort)
    else Compare(a.protocol, b.protocol)
  }

  /** `node_cmp` is a total order that takes two flows for the same exactly when their 5-tuples are. */
  lemma NodeCmpOrders(a: FlowKey, b: FlowKey, c: FlowKey)
    ensures NodeCmp(a, b) == 0 <==> a == b
    ensures NodeCmp(a, b) == -NodeCmp(b, a)
    ensures NodeCmp(a, b) < 0 && NodeCmp(b, c) < 0 ==> NodeCmp(a, c) < 0
  {
  }

  // ----- One flow -----

  /** Seconds and microseconds, both of 32 bits. */
  datatype Stamp = Stamp(sec: int, usec: int) {
    predicate InRange() { 0 <= sec < TWO_TO_32 && 0 <= usec < TWO_TO_32 }
  }

  function StampOf(p: Packet): Stamp { Stamp(Wrap32(p.sec), Wrap32(p.usec)) }

  function Micros(t: Stamp): int { t.sec * RESOLUTION + t.usec }

  /** The features of a flow. The sums of inter-arrival times are kept exactly; the program keeps them in a double. */
  datatype FlowRecord = FlowRecord(
    first: Stamp, last: Stamp, packets: int, bytes: int,
    dIaTime: int, minIaTime: int, maxIaTime: int,
    minPktLen: int, maxPktLen: int, firstPacket: bool)

  /** `get_inter_arrival_time`: an unsigned 64-bit difference. */
  function InterArrival(last: Stamp, next: Stamp): int {
    Wrap64(Micros(next) - Micros(last))
  }

  /** What `get_ndpi_flow` puts into a new flow. */
  function NewRecord(p: Packet): FlowRecord {
    FlowRecord(StampOf(p), StampOf(p), 0, 0, 0, IA_MAX, 0, p.len, p.len, true)
  }

  /** What `packet_processing` does to the packet's flow. */
  function Account(r: FlowRecord, p: Packet): FlowRecord {
    var ia := InterArrival(r.last, StampOf(p));
    FlowRecord(
      r.first, StampOf(p), Wrap16(r.packets + 1), Wrap16(r.bytes + RawSize(p)),
      r.dIaTime + ia,
      if !r.firstPacket && ia < r.minIaTime then ia else r.minIaTime,
      if !r.firstPacket && ia > r.maxIaTime then ia else r.maxIaTime,
      if RawSize(p) < r.minPktLen then RawSize(p) else r.minPktLen,
      if RawSize(p) > r.maxPktLen then RawSize(p) else r.maxPktLen,
      false)
  }

  // ----- A flow offline -----

  function TotalBytes(g: seq<Packet>): int {
    if g == [] then 0 else TotalBytes(g[..|g| - 1]) + RawSize(g[|g| - 1])
  }

  /** The inter-arrival times of the packets from the second on, summed up. */
  function TotalInterArrival(g: seq<Packet>): int {
    if |g| <= 1 then 0
    else TotalInterArrival(g[..|g| - 1]) + InterArrival(StampOf(g[|g| - 2]), StampOf(g[|g| - 1]))
  }

  function Gap(g: seq<Packet>, i: nat): int
    requires 0 < i < |g|
  {
    InterArrival(StampOf(g[i - 1]), StampOf(g[i]))
  }

  predicate IsLeast(x: int, bound: int, values: seq<int>) {
    && x <= bound && (forall i :: 0 <= i < |values| ==> x <= values[i])
    && (x == bound || x in values)
  }

  predicate IsGreatest(x: int, bound: int, values: seq<int>) {
    && x >= bound && (forall i :: 0 <= i < |values| ==> x >= values[i])
    && (x == bound || x in values)
  }

  function Sizes(g: seq<Packet>): seq<int> { seq(|g|, i requires 0 <= i < |g| => RawSize(g[i])) }

  function Gaps(g: seq<Packet>): seq<int> {
    if g == [] then [] else seq(|g| - 1, i requires 0 <= i < |g| - 1 => Gap(g, i + 1))
  }

  /** The record of a flow is what the flow's packets amount to: counters modulo 2^16, times of the first and last
      packet, extremes. The first packet's length enters the length extremes untruncated, as a bound. */
  predicate Summarizes(r: FlowRecord, g: seq<Packet>)
    requires g != []
  {
    && r.first == StampOf(g[0]) && r.last == StampOf(g[|g| - 1])
    && r.packets == Wrap16(|g|) && r.bytes == Wrap16(TotalBytes(g))
    && r.dIaTime == TotalInterArrival(g)
    && IsLeast(r.minIaTime, IA_MAX, Gaps(g)) && IsGreatest(r.maxIaTime, 0, Gaps(g))
    && IsLeast(r.minPktLen, g[0].len, Sizes(g)) && IsGreatest(r.maxPktLen, g[0].len, Sizes(g))
    && !r.firstPacket
  }

  lemma SummarizesFirst(p: Packet)
    ensures Summarizes(Account(NewRecord(p), p), [p])
  {
    assert Sizes([p]) == [RawSize(p)];
    assert TotalBytes([p]) == TotalBytes([]) + RawSize(p) by { assert [p][..0] == []; }
    assert RawSize(p) <= p.len;
  }

  lemma ExtremesNext(x: int, y: int, bound: int, values: seq<int>)
    ensures IsLeast(x, bound, values) ==> IsLeast(if y < x then y else x, bound, values + [y])
    ensures IsGreatest(x, bound, values) ==> IsGreatest(if y > x then y else x, bound, values + [y])
  {
    assert y == (values + [y])[|values|];
    assert forall i :: 0 <= i < |values| ==> (values + [y])[i] == values[i];
    assert x in values ==> x in values + [y];
  }

  lemma SizesAndGaps(g: seq<Packet>, p: Packet)
    requires g != []
    ensures Sizes(g + [p]) == Sizes(g) + [RawSize(p)]
    ensures Gaps(g + [p]) == Gaps(g) + [InterArrival(StampOf(g[|g| - 1]), StampOf(p))]
  {
  }

  lemma TotalsNext(g: seq<Packet>, p: Packet)
    requires g != []
    ensures Wrap16(Wrap16(|g|) + 1) == Wrap16(|g + [p]|)
    ensures Wrap16(Wrap16(TotalBytes(g)) + RawSize(p)) == Wrap16(TotalBytes(g + [p]))
    ensures TotalInterArrival(g + [p]) == TotalInterArrival(g) + InterArrival(StampOf(g[|g| - 1]), StampOf(p))
  {
    assert (g + [p])[..|g|] == g;
    WrapSum(|g|, 1, TWO_TO_16);
    WrapSum(TotalBytes(g), RawSize(p), TWO_TO_16);
  }

  lemma SummarizesNext(r: FlowRecord, g: seq<Packet>, p: Packet)
    requires g != [] && Summarizes(r, g)
    ensures Summarizes(Account(r, p), g + [p])
  {
    var ia := InterArrival(r.last, StampOf(p));
    SizesAndGaps(g, p);
    TotalsNext(g, p);
    ExtremesNext(r.minIaTime, ia, IA_MAX, Gaps(g));
    ExtremesNext(r.maxIaTime, ia, 0, Gaps(g));
    ExtremesNext(r.minPktLen, RawSize(p), g[0].len, Sizes(g));
    ExtremesNext(r.maxPktLen, RawSize(p), g[0].len, Sizes(g));
  }

  // ----- The times of a flow -----

  /** How often a packet's time is before its predecessor's. */
  function Regressions(g: seq<Packet>): nat {
    if |g| <= 1 then 0
    else Regressions(g[..|g| - 1])
         + if At(g[|g| - 1]) < At(g[|g| - 2]) then 1 else 0
  }

  function At(p: Packet): int { Micros(StampOf(p)) }

  predicate InOrder(g: seq<Packet>) {
    forall i :: 0 < i < |g| ==> At(g[i - 1]) <= At(g[i])
  }

  lemma GapIs(last: Stamp, next: Stamp)
    requires last.InRange() && next.InRange()
    ensures InterArrival(last, next)
         == Micros(next) - Micros(last) + if Micros(next) < Micros(last) then TWO_TO_64 else 0
  {
    assert Micros(last) < TWO_TO_64 && Micros(next) < TWO_TO_64;
  }

  lemma {:induction false} Telescopes(g: seq<Packet>)
    requires g != []
    ensures TotalInterArrival(g) == At(g[|g| - 1]) - At(g[0]) + TWO_TO_64 * Regressions(g)
  {
    if |g| > 1 {
      Telescopes(g[..|g| - 1]);
      GapIs(StampOf(g[|g| - 2]), StampOf(g[|g| - 1]));
    }
  }

  lemma {:induction false} NoRegressions(g: seq<Packet>)
    ensures Regressions(g) == 0 <==> InOrder(g)
  {
    if |g| > 1 {
      var h := g[..|g| - 1];
      NoRegressions(h);
      assert InOrder(h) && At(g[|g| - 2]) <= At(g[|g| - 1]) ==> InOrder(g);
      assert InOrder(g) ==> InOrder(h) && At(g[|g| - 2]) <= At(g[|g| - 1]) by {
        if InOrder(g) {
          forall i | 0 < i < |h|
            ensures At(h[i - 1]) <= At(h[i])
          {
            assert At(g[i - 1]) <= At(g[i]);
          }
        }
      }
    }
  }

  /** The inter-arrival times telescope, up to 2^64 for each step back in time. So the sum is the time from the first
      packet to the last exactly when no packet is before its predecessor. */
  lemma InterArrivalsTelescope(g: seq<Packet>)
    requires g != []
    ensures TotalInterArrival(g) == At(g[|g| - 1]) - At(g[0]) + TWO_TO_64 * Regressions(g)
    ensures TotalInterArrival(g) == At(g[|g| - 1]) - At(g[0]) <==> InOrder(g)
  {
    Telescopes(g);
    NoRegressions(g);
  }

  /** `printFlow` computes a time in microseconds in 32-bit arithmetic. */
  function PrintedMicros(t: Stamp): int {
    Wrap32(Wrap32(t.sec * RESOLUTION) + t.usec / (1_000_000 / RESOLUTION))
  }

  lemma PrintedMicrosWraps(t: Stamp)
    ensures PrintedMicros(t) == Micros(t) % TWO_TO_32
  {
    WrapSum(t.sec * RESOLUTION, t.usec, TWO_TO_32);
    WrapsAreModulo(Micros(t));
  }

  /** The duration it prints is the true one modulo 2^32 microseconds, and is the true one exactly when both times lie
      in the same window of 2^32 microseconds. */
  lemma PrintedDuration(first: Stamp, last: Stamp)
    ensures exists k: int :: PrintedMicros(last) - PrintedMicros(first) == Micros(last) - Micros(first) + TWO_TO_32 * k
    ensures PrintedMicros(last) - PrintedMicros(first) == Micros(last) - Micros(first)
       <==> Micros(last) / TWO_TO_32 == Micros(first) / TWO_TO_32
  {
    PrintedMicrosWraps(first);
    PrintedMicrosWraps(last);
    var k := Micros(first) / TWO_TO_32 - Micros(last) / TWO_TO_32;
    assert PrintedMicros(last) - PrintedMicros(first) == Micros(last) - Micros(first) + TWO_TO_32 * k;
  }
}
