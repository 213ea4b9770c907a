/**
 * What a flow should show, stated over the whole list of packets of its conversation: counts are
 * lengths, histograms are multiplicities, the history is a suffix. Nothing here is incremental
 * bookkeeping; class Flow is proved to keep its fields equal to these definitions.
 */
module Conversations {
  import opened Base
  import opened Text
  import opened Packet
  import opened FlowKeys
  import Dns

  /** A packet event with the clock reading processEvent takes for it. */
  datatype Stamped = Stamped(evt: PacketEvent, now: Time)

  type Conversation = seq<Stamped>

  // ----------------------------------------------------------------- counters

  function Bytes(c: Conversation): nat {
    if c == [] then 0 else Bytes(Front(c)) + Last(c).evt.len
  }

  /** The packets of c that travel in the given direction relative to the first packet. */
  function Travelling(first: Stamped, c: Conversation, d: Direction): Conversation {
    if c == [] then []
    else Travelling(first, Front(c), d) + (if DirectionOf(first, Last(c)) == d then [Last(c)] else [])
  }

  function DirectionOf(first: Stamped, e: Stamped): Direction {
    if SameDirection(e.evt, first.evt) then Forward else Reverse
  }

  datatype Counters = Counters(
    packetCount: uint64,
    byteCount: uint64,
    forwardPackets: uint64,
    forwardBytes: uint64,
    reversePackets: uint64,
    reverseBytes: uint64,
    firstPacketTime: Time,
    lastPacketTime: Time)

  function CountersOf(first: Stamped, c: Conversation): Counters {
    var fwd, rev := Travelling(first, c, Forward), Travelling(first, c, Reverse);
    Counters(U64(|c|), U64(Bytes(c)), U64(|fwd|), U64(Bytes(fwd)), U64(|rev|), U64(Bytes(rev)),
             first.now, if c == [] then ZERO_TIME else Last(c).now)
  }

  // -------------------------------------------------------------------- ports

  /** Multiplicities as a Go map of uint64 counters: absent keys read as zero. */
  function Histogram<T>(s: seq<T>): map<T, uint64> {
    map x | x in s :: U64(multiset(s)[x])
  }

  function CountOf<T>(m: map<T, uint64>, x: T): uint64 {
    if x in m then m[x] else 0
  }

  function SrcPorts(c: Conversation): seq<Port> {
    seq(|c|, i requires 0 <= i < |c| => c[i].evt.sport)
  }

  function DstPorts(c: Conversation): seq<Port> {
    seq(|c|, i requires 0 <= i < |c| => c[i].evt.dport)
  }

  /** The running top port: it changes only when another port's counter overtakes it. */
  function TopPort(ps: seq<Port>): Port {
    if ps == [] then 0
    else
      var top := TopPort(Front(ps));
      if U64(multiset(ps)[Last(ps)]) > U64(multiset(ps)[top]) then Last(ps) else top
  }

  datatype PortUse = PortUse(ports: map<Port, uint64>, top: Port)

  function PortUseOf(ps: seq<Port>): PortUse {
    PortUse(Histogram(ps), TopPort(ps))
  }

  // ---------------------------------------------------------------------- DNS

  function QueryOf(r: Dns.DNSResponse, q: Dns.DNSQuestion, now: Time): DNSQuery {
    DNSQuery(now, q.name, Dns.GetQueryType(q.qtype), r.isResponse, Dns.GetResponseCode(r.responseCode), Forward)
  }

  /** The log entries of one packet: UDP, destination port 53, a payload that parses. */
  function QueriesOf(e: Stamped): seq<DNSQuery> {
    if e.evt.protocol == UDP && e.evt.dport == 53 && |e.evt.payload| > 0 then
      match Dns.Parse(e.evt.payload)
      case None => []
      case Some(r) => seq(|r.questions|, i requires 0 <= i < |r.questions| => QueryOf(r, r.questions[i], e.now))
    else []
  }

  function Queries(c: Conversation): seq<DNSQuery> {
    if c == [] then [] else Queries(Front(c)) + QueriesOf(Last(c))
  }

  function Names(qs: seq<DNSQuery>): seq<Domain> {
    seq(|qs|, i requires 0 <= i < |qs| => qs[i].domain)
  }

  predicate Failed(q: DNSQuery) {
    q.isResponse && q.responseCode != "NoError" && q.responseCode != ""
  }

  function Failures(qs: seq<DNSQuery>): seq<DNSQuery> {
    if qs == [] then [] else Failures(Front(qs)) + (if Failed(Last(qs)) then [Last(qs)] else [])
  }

  function LastQueryTime(c: Conversation): Time {
    if c == [] then ZERO_TIME
    else if QueriesOf(Last(c)) != [] then Last(c).now
    else LastQueryTime(Front(c))
  }

  datatype DnsTally = DnsTally(queries: seq<DNSQuery>, names: map<Domain, uint64>, failures: uint64, lastQuery: Time)

  function DnsTallyOf(c: Conversation): DnsTally {
    var qs := Queries(c);
    DnsTally(qs, Histogram(Names(qs)), U64(|Failures(qs)|), LastQueryTime(c))
  }

  // ------------------------------------------------------------------ history

  function RecordOf(first: Stamped, e: Stamped): PacketRecord {
    PacketRecord(e.now, IPFromUint32(e.evt.saddr), e.evt.sport, IPFromUint32(e.evt.daddr), e.evt.dport,
                 e.evt.len, DirectionOf(first, e), e.evt.protocol,
                 if QueriesOf(e) == [] then None else Some(Last(QueriesOf(e))))
  }

  function Records(first: Stamped, c: Conversation): seq<PacketRecord> {
    seq(|c|, i requires 0 <= i < |c| => RecordOf(first, c[i]))
  }

  // ---------------------------------------------------------------------- TCP

  const MAX_STATE_CHANGES: nat := 100

  /** State after n TCP packets; the counter the code tests wraps, so the cycle restarts at 2^64. */
  function StageAfter(n: nat): FlowState {
    if n == 0 then New
    else if U64(n) == 1 then Syn
    else if U64(n) == 2 then SynAck
    else Established
  }

  /** The transition made by the n-th packet. */
  function ChangeAt(n: nat, now: Time): TCPStateChange
    requires n > 0
  {
    var before, after := StageAfter(n - 1), StageAfter(n);
    TCPStateChange(now, before, after,
                   StateName(before) + " -> " + StateName(after) + " (packet " + Decimal(U64(n)) + ")")
  }

  function Changes(c: Conversation): seq<TCPStateChange> {
    if c == [] then []
    else Changes(Front(c)) + (if StageAfter(|c| - 1) != StageAfter(|c|) then [ChangeAt(|c|, Last(c).now)] else [])
  }

  function FirstN<T>(s: seq<T>, n: nat): seq<T> {
    if |s| <= n then s else s[..n]
  }

  datatype TcpLife = TcpLife(tcpFlags: uint8, state: FlowState, stateChanges: seq<TCPStateChange>)

  function TcpLifeOf(first: Stamped, c: Conversation): TcpLife {
    if first.evt.protocol == TCP && c != [] then TcpLife(TCP, StageAfter(|c|), FirstN(Changes(c), MAX_STATE_CHANGES))
    else TcpLife(0, New, [])
  }

  // ----------------------------------------------------------- the whole flow

  datatype FlowView = FlowView(
    srcIP: IPv4,
    dstIP: IPv4,
    protocol: string,
    counters: Counters,
    src: PortUse,
    dst: PortUse,
    history: seq<PacketRecord>,
    tcp: TcpLife,
    dns: DnsTally)

  function Summarize(first: Stamped, c: Conversation, capacity: nat): FlowView {
    FlowView(IPFromUint32(first.evt.saddr), IPFromUint32(first.evt.daddr), ProtocolName(first.evt.protocol),
             CountersOf(first, c), PortUseOf(SrcPorts(c)), PortUseOf(DstPorts(c)),
             LastN(Records(first, c), capacity), TcpLifeOf(first, c), DnsTallyOf(c))
  }

  /** A non-empty list of packets that all carry the key of the first one. */
  predicate WellFormed(c: Conversation) {
    c != [] && forall e <- c :: FlowKey(e.evt) == FlowKey(c[0].evt)
  }

  // ---------------------------------------------------- one more packet at a time

  lemma HistogramSnoc<T>(s: seq<T>, x: T)
    ensures Histogram(s + [x]) == Histogram(s)[x := U64(CountOf(Histogram(s), x) + 1)]
  {
    U64Add(multiset(s)[x], 1);
    assert x !in s ==> multiset(s)[x] == 0;
  }

  lemma HistogramKeys<T>(s: seq<T>, x: T)
    ensures x in Histogram(s) <==> x in s
  {
  }

  lemma HistogramAppendAt<T>(s: seq<T>, t: seq<T>, x: T)
    requires x in s + t
    ensures Histogram(s + t)[x] == U64(CountOf(Histogram(s), x) + CountOf(Histogram(t), x))
    ensures x !in t ==> Histogram(s + t)[x] == CountOf(Histogram(s), x)
  {
    var m, n := multiset(s)[x], multiset(t)[x];
    assert x !in s ==> m == 0;
    assert x !in t ==> n == 0;
    U64Add(m, n);
    U64Add(n, U64(m));
  }

  /** Adding the counters of t to those of s, key by key, gives the histogram of both. */
  lemma HistogramAppend<T>(s: seq<T>, t: seq<T>, m: map<T, uint64>)
    requires m.Keys == Histogram(s).Keys + Histogram(t).Keys
    requires forall x <- m ::
               m[x] == if x in Histogram(t) then U64(CountOf(Histogram(s), x) + Histogram(t)[x]) else Histogram(s)[x]
    ensures m == Histogram(s + t)
  {
    hide Histogram, U64;
    forall x | x in m.Keys
      ensures x in Histogram(s + t).Keys && m[x] == Histogram(s + t)[x]
    {
      HistogramKeys(s, x);
      HistogramKeys(t, x);
      HistogramKeys(s + t, x);
      HistogramAppendAt(s, t, x);
    }
    forall x | x in Histogram(s + t).Keys
      ensures x in m.Keys
    {
      HistogramKeys(s, x);
      HistogramKeys(t, x);
      HistogramKeys(s + t, x);
    }
    assert m.Keys == Histogram(s + t).Keys;
  }

  lemma DnsSnoc(c: Conversation, e: Stamped)
    ensures Queries(c + [e]) == Queries(c) + QueriesOf(e)
    ensures LastQueryTime(c + [e]) == if QueriesOf(e) != [] then e.now else LastQueryTime(c)
    ensures Names(Queries(c + [e])) == Names(Queries(c)) + Names(QueriesOf(e))
  {
    FrontLast(c, e);
  }

  lemma PortUseSnoc(ps: seq<Port>, p: Port)
    ensures var k := PortUseOf(ps);
            var m := k.ports[p := U64(CountOf(k.ports, p) + 1)];
            PortUseOf(ps + [p]) == PortUse(m, if CountOf(m, p) > CountOf(m, k.top) then p else k.top)
  {
    FrontLast(ps, p);
    HistogramSnoc(ps, p);
    var top := TopPort(ps);
    assert top !in ps + [p] ==> multiset(ps + [p])[top] == 0;
  }

  lemma TravellingSnoc(first: Stamped, c: Conversation, e: Stamped, d: Direction)
    ensures Travelling(first, c + [e], d) ==
            if DirectionOf(first, e) == d then Travelling(first, c, d) + [e] else Travelling(first, c, d)
  {
    FrontLast(c, e);
  }

  lemma BytesSnoc(c: Conversation, e: Stamped)
    ensures Bytes(c + [e]) == Bytes(c) + e.evt.len
  {
    FrontLast(c, e);
  }

  lemma CountersSnoc(first: Stamped, c: Conversation, e: Stamped)
    ensures var k := CountersOf(first, c).(packetCount := U64(CountersOf(first, c).packetCount + 1),
                                           byteCount := U64(CountersOf(first, c).byteCount + e.evt.len),
                                           lastPacketTime := e.now);
            CountersOf(first, c + [e]) ==
            if DirectionOf(first, e) == Forward then
              k.(forwardPackets := U64(k.forwardPackets + 1), forwardBytes := U64(k.forwardBytes + e.evt.len))
            else
              k.(reversePackets := U64(k.reversePackets + 1), reverseBytes := U64(k.reverseBytes + e.evt.len))
  {
    hide U64, Travelling, Bytes, DirectionOf;
    var fwd, rev, len := Travelling(first, c, Forward), Travelling(first, c, Reverse), e.evt.len;
    TravellingSnoc(first, c, e, Forward);
    TravellingSnoc(first, c, e, Reverse);
    BytesSnoc(c, e);
    BytesSnoc(fwd, e);
    BytesSnoc(rev, e);
    U64Add(|c|, 1);
    U64Add(Bytes(c), len);
    U64Add(|fwd|, 1);
    U64Add(Bytes(fwd), len);
    U64Add(|rev|, 1);
    U64Add(Bytes(rev), len);
  }

  lemma {:induction false} FailuresAppend(qs: seq<DNSQuery>, more: seq<DNSQuery>)
    ensures Failures(qs + more) == Failures(qs) + Failures(more)
    decreases |more|
  {
    if more == [] {
      assert qs + more == qs;
    } else {
      assert Front(qs + more) == qs + Front(more) && Last(qs + more) == Last(more);
      FailuresAppend(qs, Front(more));
    }
  }

  lemma TcpProtocolIsExclusive(e: PacketEvent, e': PacketEvent)
    requires FlowKey(e) == FlowKey(e')
    ensures e.protocol == TCP <==> e'.protocol == TCP
  {
    FlowKeyEqual(e, e');
    ProtocolNameEqual(e.protocol, e'.protocol);
  }
}
