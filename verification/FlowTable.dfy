/** The table of flows, a search tree updated packet by packet, against grouping the packets by 5-tuple offline. */
module FlowTable {
  import opened Flow
  import opened Wrappers

  const MAX_NDPI_FLOWS: nat := 20_000_000

  // ----- The table as a value -----

  /** `exited` says that the flow limit was hit and the program has ended. */
  datatype Table = Table(
    flows: map<FlowKey, FlowRecord>, rawPackets: int, ipPackets: int, totalBytes: int, exited: bool)

  const EMPTY: Table := Table(map[], 0, 0, 0, false)

  /** `pcap_packet_callback` on one packet. */
  function Process(t: Table, p: Packet): Table {
    if t.exited then t
    else
      var u := t.(rawPackets := Wrap64(t.rawPackets + 1));
      var k := KeyOf(p);
      if !Accepted(p) then u
      else if k !in t.flows && |t.flows| == MAX_NDPI_FLOWS then u.(exited := true)
      else
        var r := if k in t.flows then t.flows[k] else NewRecord(p);
        Counted(u, k, Account(r, p), RawSize(p))
  }

  /** The flow's new record is put into the table and the packet is counted. */
  function Counted(t: Table, k: FlowKey, r: FlowRecord, size: int): Table {
    t.(flows := t.flows[k := r], ipPackets := Wrap64(t.ipPackets + 1), totalBytes := Wrap64(t.totalBytes + size))
  }

  function ProcessAll(packets: seq<Packet>): Table {
    if packets == [] then EMPTY else Process(ProcessAll(packets[..|packets| - 1]), packets[|packets| - 1])
  }

  // ----- Grouping offline -----

  function Group(packets: seq<Packet>, k: FlowKey): seq<Packet> {
    if packets == [] then []
    else
      var before, p := Group(packets[..|packets| - 1], k), packets[|packets| - 1];
      if Accepted(p) && KeyOf(p) == k then before + [p] else before
  }

  function AcceptedPackets(packets: seq<Packet>): seq<Packet> {
    if packets == [] then []
    else
      var before, p := AcceptedPackets(packets[..|packets| - 1]), packets[|packets| - 1];
      if Accepted(p) then before + [p] else before
  }

  function Keys(packets: seq<Packet>): set<FlowKey> {
    set p | p in packets && Accepted(p) :: KeyOf(p)
  }

  lemma KeysOfLast(packets: seq<Packet>)
    requires packets != []
    ensures var p := packets[|packets| - 1];
            Keys(packets) == Keys(packets[..|packets| - 1]) + if Accepted(p) then {KeyOf(p)} else {}
  {
    var before, p := packets[..|packets| - 1], packets[|packets| - 1];
    assert packets == before + [p];
  }

  lemma {:induction false} GroupOfKey(packets: seq<Packet>, k: FlowKey)
    ensures Group(packets, k) != [] <==> k in Keys(packets)
  {
    if packets != [] {
      GroupOfKey(packets[..|packets| - 1], k);
      KeysOfLast(packets);
    }
  }

  predicate CountersAreTotals(t: Table, packets: seq<Packet>) {
    && t.rawPackets == Wrap64(|packets|)
    && t.ipPackets == Wrap64(|AcceptedPackets(packets)|)
    && t.totalBytes == Wrap64(TotalBytes(AcceptedPackets(packets)))
  }

  predicate FlowsAreGroups(t: Table, packets: seq<Packet>) {
    && t.flows.Keys == Keys(packets)
    && forall k :: k in t.flows ==> Group(packets, k) != [] && Summarizes(t.flows[k], Group(packets, k))
  }

  predicate IsGroupBy(t: Table, packets: seq<Packet>) {
    FlowsAreGroups(t, packets) && CountersAreTotals(t, packets)
  }

  lemma CountersRefine(t: Table, before: seq<Packet>, p: Packet)
    requires !t.exited && CountersAreTotals(t, before) && !Process(t, p).exited
    ensures CountersAreTotals(Process(t, p), before + [p])
  {
    var accepted := AcceptedPackets(before);
    assert (before + [p])[..|before|] == before;
    WrapSum(|before|, 1, TWO_TO_64);
    WrapSum(|accepted|, 1, TWO_TO_64);
    WrapSum(TotalBytes(accepted), RawSize(p), TWO_TO_64);
    if Accepted(p) {
      assert AcceptedPackets(before + [p]) == accepted + [p];
      assert (accepted + [p])[..|accepted|] == accepted;
    }
  }

  lemma GroupOfLast(before: seq<Packet>, p: Packet, k: FlowKey)
    ensures Group(before + [p], k)
         == if Accepted(p) && KeyOf(p) == k then Group(before, k) + [p] else Group(before, k)
  {
    assert (before + [p])[..|before|] == before;
  }

  lemma FlowRefines(t: Table, before: seq<Packet>, p: Packet, k: FlowKey)
    requires !t.exited && FlowsAreGroups(t, before) && k in Process(t, p).flows && !Process(t, p).exited
    ensures Group(before + [p], k) != [] && Summarizes(Process(t, p).flows[k], Group(before + [p], k))
  {
    GroupOfLast(before, p, k);
    if Accepted(p) && k == KeyOf(p) {
      if k in t.flows {
        SummarizesNext(t.flows[k], Group(before, k), p);
      } else {
        GroupOfKey(before, k);
        SummarizesFirst(p);
      }
    }
  }

  lemma KeysRefine(t: Table, before: seq<Packet>, p: Packet)
    requires !t.exited && t.flows.Keys == Keys(before) && !Process(t, p).exited
    ensures Process(t, p).flows.Keys == Keys(before + [p])
  {
    KeysOfLast(before + [p]);
    assert (before + [p])[..|before|] == before;
  }

  lemma FlowsRefine(t: Table, before: seq<Packet>, p: Packet)
    requires !t.exited && FlowsAreGroups(t, before) && !Process(t, p).exited
    ensures FlowsAreGroups(Process(t, p), before + [p])
  {
    KeysRefine(t, before, p);
    forall k | k in Process(t, p).flows
      ensures Group(before + [p], k) != [] && Summarizes(Process(t, p).flows[k], Group(before + [p], k))
    {
      FlowRefines(t, before, p, k);
    }
  }

  /** The table refines the group-by: as long as the limit is not hit it holds one record for each 5-tuple of the
      accepted packets, and that record is what the tuple's packets amount to. */
  lemma {:induction false} TableIsGroupBy(packets: seq<Packet>)
    requires !ProcessAll(packets).exited
    ensures IsGroupBy(ProcessAll(packets), packets)
  {
    if packets != [] {
      TableIsGroupBy(packets[..|packets| - 1]);
      var before, p := packets[..|packets| - 1], packets[|packets| - 1];
      assert packets == before + [p];
      FlowsRefine(ProcessAll(before), before, p);
      CountersRefine(ProcessAll(before), before, p);
    }
  }

  /** The limit is hit exactly when there are more 5-tuples than it allows. */
  lemma {:induction false} ExitsAtLimit(packets: seq<Packet>)
    ensures ProcessAll(packets).exited <==> |Keys(packets)| > MAX_NDPI_FLOWS
  {
    if packets != [] {
      var before, p := packets[..|packets| - 1], packets[|packets| - 1];
      ExitsAtLimit(before);
      KeysOfLast(packets);
      KeysGrow(Keys(before), Keys(packets));
      if !ProcessAll(before).exited {
        TableIsGroupBy(before);
        ExitsAtStep(ProcessAll(before), p, Keys(before), Keys(packets));
      }
    }
  }

  lemma ExitsAtStep(t: Table, p: Packet, keys: set<FlowKey>, keys': set<FlowKey>)
    requires !t.exited && t.flows.Keys == keys && keys' == keys + if Accepted(p) then {KeyOf(p)} else {}
    requires |keys| <= MAX_NDPI_FLOWS
    ensures Process(t, p).exited <==> |keys'| > MAX_NDPI_FLOWS
  {
    assert |t.flows| == |keys|;
    assert KeyOf(p) in keys || !Accepted(p) ==> keys' == keys;
  }

  lemma KeysGrow(a: set<FlowKey>, b: set<FlowKey>)
    requires a <= b
    ensures |a| <= |b|
  {
    assert b == a + (b - a);
  }

  // ----- From the fields of the packets -----

  /** The IP header's length field and its total length fit their 4 and 16 bits. */
  predicate FieldsFit(p: Packet) { p.ihl < 16 && p.totLen < 0x1_0000 }

  /** An IPv4 packet, not a later fragment, of which the bytes behind the Ethernet header, counted in 16 bits, hold
      an IP header and the total length it states. */
  predicate IsCounted(p: Packet) {
    var size := (p.len - 14) % 0x1_0000;
    p.etherType == 8 && p.version == 4 && size >= 20 && size >= 4 * p.ihl && size >= p.totLen && p.fragOff % 0x2000 == 0
  }

  /** A TCP or UDP header fits behind the IP header. A total length below the header's own wraps, and counts as long. */
  predicate HasPorts(p: Packet) {
    var behind := p.totLen - 4 * p.ihl;
    || (p.protocol == 6 && !(0 <= behind < 20))
    || (p.protocol == 17 && !(0 <= behind < 8))
  }

  /** The 5-tuple as the packet's bytes give it. */
  function Tuple(p: Packet): FlowKey {
    if HasPorts(p) then FlowKey(p.srcIp, p.l4Source, p.dstIp, p.l4Dest, p.protocol)
    else FlowKey(p.srcIp, 0, p.dstIp, 0, p.protocol)
  }

  lemma FieldsGive(p: Packet)
    requires FieldsFit(p)
    ensures Accepted(p) <==> IsCounted(p)
    ensures KeyOf(p) == Tuple(p)
    ensures RawSize(p) == p.len % 0x1_0000
    ensures StampOf(p) == Stamp(p.sec % 0x1_0000_0000, p.usec % 0x1_0000_0000)
  {
    WrapsAreModulo(p.len - ETHERNET_HEADER);
    WrapsAreModulo(p.len);
    WrapsAreModulo(p.sec);
    WrapsAreModulo(p.usec);
    WrapsAreModulo(p.totLen - p.ihl * 4);
  }

  /** A capture of one packet: one flow with its 5-tuple, or none. */
  lemma OnePacket(p: Packet)
    requires FieldsFit(p)
    ensures var size, time := p.len % 0x1_0000, Stamp(p.sec % 0x1_0000_0000, p.usec % 0x1_0000_0000);
            ProcessAll([p])
            == if IsCounted(p) then
                 Table(map[Tuple(p) := FlowRecord(time, time, 1, size, 0, 10_000_000, 0, size, p.len, false)],
                       1, 1, size, false)
               else Table(map[], 1, 0, 0, false)
  {
    FieldsGive(p);
    assert [p][..0] == [];
    assert ProcessAll([p]) == Process(EMPTY, p);
    assert InterArrival(StampOf(p), StampOf(p)) == 0;
  }

  /** The flows of a capture, as long as there are not too many, are the 5-tuples of its packets. */
  lemma FlowsAreTuples(packets: seq<Packet>)
    requires forall p <- packets :: FieldsFit(p)
    ensures !ProcessAll(packets).exited ==>
              ProcessAll(packets).flows.Keys == set p | p in packets && IsCounted(p) :: Tuple(p)
    ensures ProcessAll(packets).exited <==> |set p | p in packets && IsCounted(p) :: Tuple(p)| > 20_000_000
  {
    forall p | p in packets
      ensures (Accepted(p) <==> IsCounted(p)) && KeyOf(p) == Tuple(p)
    {
      FieldsGive(p);
    }
    assert Keys(packets) == set p | p in packets && IsCounted(p) :: Tuple(p);
    ExitsAtLimit(packets);
    if !ProcessAll(packets).exited {
      TableIsGroupBy(packets);
    }
  }

  /** Two packets are in one flow exactly when addresses and protocol agree, and the ports where both have some. */
  lemma TwoPackets(p: Packet, q: Packet)
    requires FieldsFit(p) && FieldsFit(q) && IsCounted(p) && IsCounted(q)
    ensures |ProcessAll([p, q]).flows| == if Tuple(p) == Tuple(q) then 1 else 2
    ensures HasPorts(p) && HasPorts(q) ==>
              (Tuple(p) == Tuple(q) <==>
                 p.srcIp == q.srcIp && p.dstIp == q.dstIp && p.protocol == q.protocol
                 && p.l4Source == q.l4Source && p.l4Dest == q.l4Dest)
    ensures Tuple(p) == Tuple(q) ==>
              var r := ProcessAll([p, q]).flows;
              Tuple(p) in r && r[Tuple(p)].packets == 2 && r[Tuple(p)].bytes == (p.len + q.len) % 0x1_0000
  {
    FlowsAreTuples([p, q]);
    assert (set x | x in [p, q] && IsCounted(x) :: Tuple(x)) == {Tuple(p), Tuple(q)};
    if Tuple(p) == Tuple(q) {
      SecondPacket(p, q);
    }
  }

  lemma SecondPacket(p: Packet, q: Packet)
    requires FieldsFit(p) && FieldsFit(q) && IsCounted(p) && IsCounted(q) && Tuple(p) == Tuple(q)
    ensures var r := ProcessAll([p, q]).flows;
            Tuple(p) in r && r[Tuple(p)].packets == 2 && r[Tuple(p)].bytes == (p.len + q.len) % 0x1_0000
  {
    OnePacket(p);
    FieldsGive(q);
    assert [p, q][..1] == [p];
    Recounted(ProcessAll([p]), q);
    SumWraps(p.len, q.len);
  }

  /** A packet of a flow that is there. */
  lemma Recounted(t: Table, p: Packet)
    requires !t.exited && Accepted(p) && KeyOf(p) in t.flows
    ensures Process(t, p).flows == t.flows[KeyOf(p) := Account(t.flows[KeyOf(p)], p)]
  {
  }

  lemma SumWraps(a: nat, b: nat)
    ensures Wrap16(a % 0x1_0000 + b % 0x1_0000) == (a + b) % 0x1_0000
  {
    WrapsAreModulo(a);
    WrapsAreModulo(b);
    WrapsAreModulo(a + b);
    WrapSum(a, Wrap16(b), TWO_TO_16);
    WrapSum(b, a, TWO_TO_16);
  }

  // ----- The search tree -----

  /** A flow in memory. The 5-tuple is set once. */
  class NdpiFlow {
    const key: FlowKey
    var record: FlowRecord

    constructor (key: FlowKey, record: FlowRecord)
      ensures this.key == key && this.record == record
    {
      this.key := key;
      this.record := record;
    }
  }

  datatype Tree = Leaf | Node(left: Tree, flow: NdpiFlow, right: Tree)

  /** `ndpi_tfind` with `node_cmp` */
  function TFind(t: Tree, k: FlowKey): (found: Option<NdpiFlow>)
    ensures found.Some? ==> found.value.key == k
  {
    match t
    case Leaf => None
    case Node(left, flow, right) =>
      var c := NodeCmp(k, flow.key);
      if c == 0 then Some(flow) else if c < 0 then TFind(left, k) else TFind(right, k)
  }

  /** `ndpi_tsearch` with `node_cmp` */
  function TSearch(t: Tree, flow: NdpiFlow): Tree {
    match t
    case Leaf => Node(Leaf, flow, Leaf)
    case Node(left, other, right) =>
      var c := NodeCmp(flow.key, other.key);
      if c == 0 then t
      else if c < 0 then Node(TSearch(left, flow), other, right)
      else Node(left, other, TSearch(right, flow))
  }

  /** An insertion changes what a search finds for the new flow's 5-tuple only, and there only if it found nothing. */
  lemma {:induction false} TSearchInserts(t: Tree, flow: NdpiFlow, k: FlowKey)
    ensures TFind(TSearch(t, flow), k)
         == if k == flow.key && TFind(t, k) == None then Some(flow) else TFind(t, k)
  {
    if t.Node? {
      TSearchInserts(t.left, flow, k);
      TSearchInserts(t.right, flow, k);
    }
  }

  // ----- The capture program's state -----

  /** A packet that is not counted. */
  lemma ProcessSkips(t: Table, p: Packet)
    requires !t.exited && !(Accepted(p) && (KeyOf(p) in t.flows || |t.flows| != MAX_NDPI_FLOWS))
    ensures Process(t, p) == Table(t.flows, Wrap64(t.rawPackets + 1), t.ipPackets, t.totalBytes, Accepted(p))
  {
  }

  /** The table with the packet's flow in it, before the packet is counted. */
  predicate Prepared(t: Table, p: Packet, u: Table) {
    && (KeyOf(p) in t.flows || |t.flows| != MAX_NDPI_FLOWS)
    && u == t.(rawPackets := Wrap64(t.rawPackets + 1),
               flows := t.flows[KeyOf(p) := if KeyOf(p) in t.flows then t.flows[KeyOf(p)] else NewRecord(p)])
  }

  /** A packet that is counted. */
  lemma ProcessCounts(t: Table, p: Packet, u: Table)
    requires !t.exited && Accepted(p) && Prepared(t, p, u)
    ensures KeyOf(p) in u.flows
    ensures Process(t, p)
         == Table(u.flows[KeyOf(p) := Account(u.flows[KeyOf(p)], p)], u.rawPackets,
                  Wrap64(u.ipPackets + 1), Wrap64(u.totalBytes + RawSize(p)), false)
  {
    var r := if KeyOf(p) in t.flows then t.flows[KeyOf(p)] else NewRecord(p);
    assert u.flows[KeyOf(p) := Account(r, p)] == t.flows[KeyOf(p) := Account(r, p)];
  }

  class Capture {
    var root: Tree
    var flowCount: nat
    var rawPackets: int
    var ipPackets: int
    var totalBytes: int

    /** The program has called `exit`. */
    var exited: bool

    /** The flows in the tree, and their records by 5-tuple. */
    ghost var flows: set<NdpiFlow>
    ghost var records: map<FlowKey, FlowRecord>

    ghost predicate Valid()
      reads `root, `flowCount, `flows, `records, flows
    {
      && flowCount == |records|
      && (forall k :: k in records <==> TFind(root, k).Some?)
      && (forall k :: k in records ==>
            TFind(root, k).value in flows && TFind(root, k).value.record == records[k])
    }

    ghost function Abstraction(): Table
      reads this
    {
      Table(records, rawPackets, ipPackets, totalBytes, exited)
    }

    constructor ()
      ensures Valid() && Abstraction() == EMPTY && flows == {}
    {
      root, flowCount, flows, records := Leaf, 0, {}, map[];
      rawPackets, ipPackets, totalBytes, exited := 0, 0, 0, false;
    }

    /** The creation of a flow in `get_ndpi_flow`. */
    method Insert(k: FlowKey, r: FlowRecord) returns (flow: NdpiFlow)
      requires Valid() && k !in records
      modifies `root, `flowCount, `flows, `records
      ensures Valid() && fresh(flow) && flow.key == k && flow.record == r
      ensures TFind(root, k) == Some(flow)
      ensures records == old(records)[k := r] && flows == old(flows) + {flow}
    {
      flow := new NdpiFlow(k, r);
      forall j {
        TSearchInserts(root, flow, j);
      }
      root := TSearch(root, flow);
      flowCount, flows, records := flowCount + 1, flows + {flow}, records[k := r];
    }

    /** `get_ndpi_flow`: the packet's flow, a new one if need be; null when the packet is not counted or the program
        ends. */
    method GetNdpiFlow(p: Packet) returns (flow: NdpiFlow?)
      requires Valid() && !exited
      modifies `root, `flowCount, `exited, `flows, `records
      ensures Valid() && fresh(flows - old(flows))
      ensures exited == (Accepted(p) && KeyOf(p) !in old(records) && |old(records)| == MAX_NDPI_FLOWS)
      ensures flow == null <==> exited || !Accepted(p)
      ensures flow == null ==> records == old(records)
      ensures flow != null ==>
                && TFind(root, KeyOf(p)) == Some(flow)
                && flow.record == (if KeyOf(p) in old(records) then old(records)[KeyOf(p)] else NewRecord(p))
                && records == old(records)[KeyOf(p) := flow.record]
    {
      if !Accepted(p) { return null; }
      match TFind(root, KeyOf(p))
      case Some(found) =>
        return found;
      case None =>
        if flowCount == MAX_NDPI_FLOWS {
          exited := true;
          return null;
        }
        flow := Insert(KeyOf(p), NewRecord(p));
    }

    method SetRecord(flow: NdpiFlow, r: FlowRecord)
      requires Valid() && TFind(root, flow.key) == Some(flow)
      modifies `records, flow
      ensures Valid() && records == old(records)[flow.key := r]
    {
      flow.record := r;
      records := records[flow.key := r];
      assert forall k :: k in records && k != flow.key ==> TFind(root, k).value != flow;
    }

    /** The rest of `packet_processing`, for a packet that is counted. */
    method CountIn(flow: NdpiFlow, r: FlowRecord, size: int)
      requires Valid() && TFind(root, flow.key) == Some(flow)
      modifies `ipPackets, `totalBytes, `records, flow
      ensures Valid() && records == old(records)[flow.key := r]
      ensures ipPackets == Wrap64(old(ipPackets) + 1) && totalBytes == Wrap64(old(totalBytes) + size)
    {
      SetRecord(flow, r);
      ipPackets := Wrap64(ipPackets + 1);
      totalBytes := Wrap64(totalBytes + size);
    }

    /** `packet_processing`, once the flow is there. */
    method CountPacket(flow: NdpiFlow, p: Packet, ghost t: Table)
      requires Valid() && TFind(root, KeyOf(p)) == Some(flow)
      requires !t.exited && Accepted(p) && Prepared(t, p, Abstraction()) && flow.record == records[KeyOf(p)]
      modifies `ipPackets, `totalBytes, `records, flow
      ensures Valid() && Abstraction() == Process(t, p)
    {
      ProcessCounts(t, p, Abstraction());
      CountIn(flow, Account(flow.record, p), RawSize(p));
    }

    /** `packet_processing` */
    method PacketProcessing(p: Packet)
      requires Valid() && !exited
      modifies this, flows
      ensures Valid() && Abstraction() == Process(old(Abstraction()), p)
      ensures fresh(flows - old(flows))
    {
      ghost var t := Abstraction();
      rawPackets := Wrap64(rawPackets + 1);
      var flow := GetNdpiFlow(p);
      if flow == null {
        ProcessSkips(t, p);
      } else {
        CountPacket(flow, p, t);
      }
    }

    /** `pcap_packet_callback`; after `exit` there are no more packets. */
    method PacketCallback(p: Packet)
      requires Valid()
      modifies this, flows
      ensures Valid() && Abstraction() == Process(old(Abstraction()), p)
      ensures fresh(flows - old(flows))
    {
      if !exited {
        PacketProcessing(p);
      }
    }

    /** A whole capture. */
    method PcapLoop(packets: seq<Packet>)
      requires Valid() && Abstraction() == EMPTY
      modifies this, flows
      ensures Valid() && Abstraction() == ProcessAll(packets)
    {
      for i := 0 to |packets|
        invariant Valid() && Abstraction() == ProcessAll(packets[..i])
        invariant fresh(flows - old(flows))
      {
        ghost var before := flows;
        PacketCallback(packets[i]);
        assert packets[..i + 1][..i] == packets[..i];
        assert flows - old(flows) <= (before - old(flows)) + (flows - before);
      }
      assert packets[..|packets|] == packets;
    }
  }
}
