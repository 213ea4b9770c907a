/**
 * What a flow of the table holds, field by field and in plain numbers, against the packets that
 * arrived under its key since the last eviction (internal/monitor/aggregator.go, processEvent). The
 * statements name no summary, tally or constant of the other modules.
 */
module Facts {
  import opened Base
  import opened Text
  import opened Packet
  import opened FlowKeys
  import opened Conversations
  import opened FlowProperties
  import opened Runs
  import opened RingBuffers
  import opened Flows
  import opened Aggregator
  import DnsGrammar

  /** Go's uint64 wraps at 2^64. */
  lemma WrapsAt(n: nat)
    ensures U64(n) == n % 18446744073709551616
  {
  }

  function Sum(s: seq<nat>): nat {
    if s == [] then 0 else Sum(Front(s)) + Last(s)
  }

  /** c lists the packets that arrived under k since its last eviction, which was before step b. */
  ghost predicate Since(a: FlowAggregator, k: string, b: nat, c: Conversation)
    reads a, a.Repr
  {
    && a.Valid() && k in a.flows
    && SinceEviction(a.run, a.flowTimeout, k, b) && c == ArrivalsOf(a.run[b..], k)
  }

  lemma Behind(a: FlowAggregator, k: string, b: nat, c: Conversation)
    requires Since(a, k, b, c)
    ensures a.flows[k].Valid() && a.flows[k].events == c && c != [] && a.flows[k].first == c[0]
    ensures a.flows[k].packetHistory.capacity == a.packetBufferSize
    ensures WellFormed(c)
  {
    hide Flow.Valid, Live, ArrivalsOf;
    LiveIsSinceEviction(a.run, a.flowTimeout, k, b);
    LiveWellFormed(a.run, a.flowTimeout, k);
    assert a.Shows(a.flows[k], Live(a.run, a.flowTimeout)[k]);
  }

  // ----------------------------------------------------------------- counters

  lemma {:induction false} TravellingSums(first: Stamped, c: Conversation, d: Direction, ones: seq<nat>, lens: seq<nat>)
    requires |ones| == |lens| == |c|
    requires forall i | 0 <= i < |c| :: ones[i] == (if DirectionOf(first, c[i]) == d then 1 else 0)
    requires forall i | 0 <= i < |c| :: lens[i] == (if DirectionOf(first, c[i]) == d then c[i].evt.len else 0)
    ensures |Travelling(first, c, d)| == Sum(ones) && Bytes(Travelling(first, c, d)) == Sum(lens)
    decreases |c|
  {
    hide DirectionOf;
    if c != [] {
      TravellingSums(first, Front(c), d, Front(ones), Front(lens));
      var t := Travelling(first, Front(c), d);
      BytesSnoc(t, Last(c));
      assert t + [] == t;
    }
  }

  lemma {:induction false} BytesSum(c: Conversation, lens: seq<nat>)
    requires |lens| == |c| && forall i | 0 <= i < |c| :: lens[i] == c[i].evt.len
    ensures Bytes(c) == Sum(lens)
    decreases |c|
  {
    if c != [] {
      BytesSum(Front(c), Front(lens));
    }
  }

  lemma CountersExposed(f: Flow)
    requires f.Valid()
    ensures var k := CountersOf(f.first, f.events);
            && f.packetCount == k.packetCount && f.byteCount == k.byteCount
            && f.forwardPackets == k.forwardPackets && f.forwardBytes == k.forwardBytes
            && f.reversePackets == k.reversePackets && f.reverseBytes == k.reverseBytes
            && f.firstPacketTime == k.firstPacketTime && f.lastPacketTime == k.lastPacketTime
  {
    hide CountersOf, PortUseOf, TcpLifeOf, DnsTallyOf, Records, FlowKey;
    assert f.CountersView() == CountersOf(f.first, f.events);
  }

  /** Totals and times. */
  lemma TotalFields(a: FlowAggregator, k: string, b: nat, c: Conversation, bytes: seq<nat>)
    requires Since(a, k, b, c)
    requires |bytes| == |c| && forall i | 0 <= i < |c| :: bytes[i] == c[i].evt.len
    ensures c != []
    ensures a.flows[k].packetCount == U64(|c|) && a.flows[k].byteCount == U64(Sum(bytes))
    ensures a.flows[k].firstPacketTime == c[0].now && a.flows[k].lastPacketTime == c[|c| - 1].now
  {
    Behind(a, k, b, c);
    hide Since, Sum, Bytes, Travelling, U64, Flow.Valid, WellFormed;
    CountersExposed(a.flows[k]);
    BytesSum(c, bytes);
  }

  /** ones and lens hold 1 and the length for the packets with (or without) the first packet's addresses, else 0. */
  lemma DirectionFields(a: FlowAggregator, k: string, b: nat, c: Conversation, forward: bool,
                        ones: seq<nat>, lens: seq<nat>)
    requires Since(a, k, b, c) && |ones| == |lens| == |c|
    requires forall i | 0 <= i < |c| ::
               if (c[i].evt.saddr == c[0].evt.saddr && c[i].evt.daddr == c[0].evt.daddr) == forward then
                 ones[i] == 1 && lens[i] == c[i].evt.len
               else ones[i] == 0 && lens[i] == 0
    ensures (if forward then a.flows[k].forwardPackets else a.flows[k].reversePackets) == U64(Sum(ones))
    ensures (if forward then a.flows[k].forwardBytes else a.flows[k].reverseBytes) == U64(Sum(lens))
  {
    Behind(a, k, b, c);
    hide Since, Sum, Bytes, Travelling, U64, Flow.Valid, WellFormed;
    CountersExposed(a.flows[k]);
    TravellingSums(c[0], c, if forward then Forward else Reverse, ones, lens);
  }

  // -------------------------------------------------------------------- ports

  lemma PortsExposed(f: Flow)
    requires f.Valid()
    ensures f.srcPorts == Histogram(SrcPorts(f.events)) && f.topSrcPort == TopPort(SrcPorts(f.events))
    ensures f.dstPorts == Histogram(DstPorts(f.events)) && f.topDstPort == TopPort(DstPorts(f.events))
  {
    hide CountersOf, TcpLifeOf, DnsTallyOf, Records, FlowKey, Histogram, TopPort, SrcPorts, DstPorts;
    assert f.SrcView() == PortUseOf(SrcPorts(f.events)) && f.DstView() == PortUseOf(DstPorts(f.events));
  }

  /** ps lists the source (or destination) ports of the packets. */
  lemma PortFields(a: FlowAggregator, k: string, b: nat, c: Conversation, src: bool, ps: seq<Port>, p: Port)
    requires Since(a, k, b, c)
    requires |ps| == |c| && forall i | 0 <= i < |c| :: ps[i] == if src then c[i].evt.sport else c[i].evt.dport
    ensures var ports := if src then a.flows[k].srcPorts else a.flows[k].dstPorts;
            (p in ports <==> p in ps) && (p in ports ==> ports[p] == U64(multiset(ps)[p]))
  {
    Behind(a, k, b, c);
    PortsExposed(a.flows[k]);
    PortsListed(c, src, ps);
    hide *;
    HistogramSpelled(ps, p);
  }

  lemma PortsListed(c: Conversation, src: bool, ps: seq<Port>)
    requires |ps| == |c| && forall i | 0 <= i < |c| :: ps[i] == if src then c[i].evt.sport else c[i].evt.dport
    ensures ps == if src then SrcPorts(c) else DstPorts(c)
  {
  }

  lemma HistogramSpelled(ps: seq<Port>, p: Port)
    ensures p in Histogram(ps) <==> p in ps
    ensures p in Histogram(ps) ==> Histogram(ps)[p] == U64(multiset(ps)[p])
  {
  }

  /**
   * Up to 2^64 packets no port's counter exceeds the top port's; before that, the top port is the
   * one that reached the final maximum first, with packet i - 1.
   */
  lemma TopPortField(a: FlowAggregator, k: string, b: nat, c: Conversation, src: bool, ps: seq<Port>)
    requires Since(a, k, b, c)
    requires |ps| == |c| && forall i | 0 <= i < |c| :: ps[i] == if src then c[i].evt.sport else c[i].evt.dport
    ensures var top := if src then a.flows[k].topSrcPort else a.flows[k].topDstPort;
            && (|c| <= 18446744073709551616 ==> forall p: Port :: U64(multiset(ps)[p]) <= U64(multiset(ps)[top]))
            && (|c| < 18446744073709551616 ==> exists i :: ReachedFirst(ps, top, i))
  {
    Behind(a, k, b, c);
    PortsExposed(a.flows[k]);
    PortsListed(c, src, ps);
    hide *;
    TopPortSpelled(ps);
  }

  lemma TopPortSpelled(ps: seq<Port>)
    requires ps != []
    ensures |ps| <= 18446744073709551616 ==> forall p: Port :: U64(multiset(ps)[p]) <= U64(multiset(ps)[TopPort(ps)])
    ensures |ps| < 18446744073709551616 ==> exists i :: ReachedFirst(ps, TopPort(ps), i)
  {
    hide TopPort, U64;
    if |ps| <= 18446744073709551616 {
      TopIsMaximalUpTo2To64(ps);
      assert forall p: Port :: Uses(ps, p) == multiset(ps)[p];
    }
    if |ps| < 18446744073709551616 {
      forall p: Port
        ensures Uses(ps, p) < TWO_64
      {
        UsesBounded(ps, p);
      }
      var i := TopPortIsFirstMaximum(ps);
      assert forall p: Port :: Uses(ps, p) == multiset(ps)[p];
      BelowIsFewer(ps[..i - 1], Uses(ps, TopPort(ps)));
      assert ReachedFirst(ps, TopPort(ps), i);
    }
  }

  ghost predicate ReachedFirst(ps: seq<Port>, top: Port, i: nat) {
    && 0 < i <= |ps| && ps[i - 1] == top
    && (forall p: Port :: multiset(ps)[p] <= multiset(ps)[top])
    && Fewer(ps[..i - 1], multiset(ps)[top])
  }

  /** No port occurs n times. */
  ghost predicate Fewer(ps: seq<Port>, n: nat) {
    forall p: Port :: multiset(ps)[p] < n
  }

  lemma BelowIsFewer(ps: seq<Port>, n: nat)
    requires AllBelow(ps, n)
    ensures Fewer(ps, n)
  {
    forall p: Port
      ensures multiset(ps)[p] < n
    {
      assert Uses(ps, p) < n;
    }
  }

  // -------------------------------------------------------------------- names

  /** The flow's protocol name says which protocol number each of its packets has. */
  lemma ProtocolField(a: FlowAggregator, k: string, b: nat, c: Conversation, e: Stamped)
    requires Since(a, k, b, c) && e in c
    ensures a.flows[k].protocol == "icmp" <==> e.evt.protocol == 1
    ensures a.flows[k].protocol == "igmp" <==> e.evt.protocol == 2
    ensures a.flows[k].protocol == "tcp" <==> e.evt.protocol == 6
    ensures a.flows[k].protocol == "udp" <==> e.evt.protocol == 17
    ensures a.flows[k].protocol == "ipv6" <==> e.evt.protocol == 41
    ensures a.flows[k].protocol == "gre" <==> e.evt.protocol == 47
    ensures a.flows[k].protocol == "esp" <==> e.evt.protocol == 50
    ensures a.flows[k].protocol == "ah" <==> e.evt.protocol == 51
    ensures a.flows[k].protocol == "eigrp" <==> e.evt.protocol == 88
    ensures a.flows[k].protocol == "ospf" <==> e.evt.protocol == 89
    ensures a.flows[k].protocol == "sctp" <==> e.evt.protocol == 132
    ensures a.flows[k].protocol == "other" <==>
            var n := e.evt.protocol;
            n != 1 && n != 2 && n != 6 && n != 17 && n != 41 && n != 47 &&
            n != 50 && n != 51 && n != 88 && n != 89 && n != 132
  {
    Behind(a, k, b, c);
    OneName(a.flows[k], c, e);
    hide *;
    ProtocolNames(e.evt.protocol);
  }

  lemma OneName(f: Flow, c: Conversation, e: Stamped)
    requires f.Valid() && c != [] && f.events == c && f.first == c[0] && WellFormed(c) && e in c
    ensures ProtocolName(e.evt.protocol) == f.protocol
  {
    hide FlowKey, ProtocolName, CountersOf, PortUseOf, TcpLifeOf, DnsTallyOf, Records;
    var i :| 0 <= i < |c| && c[i] == e;
    PacketsMatchFlowAddresses(c, i);
  }

  /** The stored addresses are those of the first packet, most significant byte first. */
  lemma AddressFields(a: FlowAggregator, k: string, b: nat, c: Conversation)
    requires Since(a, k, b, c)
    ensures c != []
    ensures var s, d := c[0].evt.saddr, c[0].evt.daddr;
            && a.flows[k].srcIP[12] as int == s / 16777216 && a.flows[k].srcIP[13] as int == s / 65536 % 256
            && a.flows[k].srcIP[14] as int == s / 256 % 256 && a.flows[k].srcIP[15] as int == s % 256
            && a.flows[k].dstIP[12] as int == d / 16777216 && a.flows[k].dstIP[13] as int == d / 65536 % 256
            && a.flows[k].dstIP[14] as int == d / 256 % 256 && a.flows[k].dstIP[15] as int == d % 256
  {
    Behind(a, k, b, c);
    AddressesExposed(a.flows[k]);
    hide *;
    AddressBytes(c[0].evt.saddr);
    AddressBytes(c[0].evt.daddr);
  }

  lemma AddressesExposed(f: Flow)
    requires f.Valid()
    ensures f.srcIP == IPFromUint32(f.first.evt.saddr) && f.dstIP == IPFromUint32(f.first.evt.daddr)
  {
    hide IPFromUint32, FlowKey, CountersOf, PortUseOf, TcpLifeOf, DnsTallyOf, Records;
  }

  // ---------------------------------------------------------------------- TCP

  lemma TcpExposed(f: Flow)
    requires f.Valid()
    ensures f.tcpFlags == TcpLifeOf(f.first, f.events).tcpFlags
    ensures f.state == TcpLifeOf(f.first, f.events).state
    ensures f.stateChanges == TcpLifeOf(f.first, f.events).stateChanges
  {
    hide CountersOf, PortUseOf, TcpLifeOf, DnsTallyOf, Records, FlowKey;
    assert f.TcpView() == TcpLifeOf(f.first, f.events);
  }

  /** The stage of a TCP flow is decided by its wrapping packet counter; other flows have none. */
  lemma StateFields(a: FlowAggregator, k: string, b: nat, c: Conversation)
    requires Since(a, k, b, c)
    ensures c != []
    ensures c[0].evt.protocol == 6 ==>
              && a.flows[k].tcpFlags == 6
              && a.flows[k].state == if U64(|c|) == 1 then Syn else if U64(|c|) == 2 then SynAck else Established
    ensures c[0].evt.protocol != 6 ==>
              a.flows[k].tcpFlags == 0 && a.flows[k].state == New && a.flows[k].stateChanges == []
  {
    Behind(a, k, b, c);
    hide Since, Flow.Valid, WellFormed, Changes, U64;
    TcpExposed(a.flows[k]);
  }

  /** The packet that makes the i-th transition. */
  lemma {:induction false} ChangesSpelled(c: Conversation, i: nat)
    requires i < |Changes(c)|
    ensures ChangingPacket(i) <= |c| && Changes(c)[i] == ChangeAt(ChangingPacket(i), c[ChangingPacket(i) - 1].now)
    decreases |c|
  {
    hide ChangingPacket, ChangeAt, StageAfter, Transitions;
    var before := Changes(Front(c));
    if i < |before| {
      ChangesSpelled(Front(c), i);
    } else {
      ChangeCount(Front(c));
      TransitionPacket(|c|);
    }
  }

  function ChangingPacket(i: nat): (n: nat)
    ensures n > 0
  {
    i / 3 * 18446744073709551616 + i % 3 + 1
  }

  lemma TransitionPacket(n: nat)
    requires n > 0 && StageAfter(n - 1) != StageAfter(n)
    ensures n == ChangingPacket(Transitions(n - 1))
  {
    var q, r := n / TWO_64, n % TWO_64;
    assert n == q * TWO_64 + r;
    if r == 0 {
      WrapBack(n);
    }
    assert 1 <= r <= 3;
    assert (n - 1) / TWO_64 == q && (n - 1) % TWO_64 == r - 1;
    assert Transitions(n - 1) == 3 * q + r - 1;
  }

  /** Where the counter wraps to zero the stage does not change. */
  lemma WrapBack(n: nat)
    requires n > 0 && n % TWO_64 == 0
    ensures StageAfter(n - 1) == StageAfter(n)
  {
    assert (n - 1) % TWO_64 == TWO_64 - 1;
  }

  /** Transition i, spelled out. */
  lemma ChangeSpelled(i: nat, now: Time)
    ensures ChangeAt(ChangingPacket(i), now) ==
            if i == 0 then TCPStateChange(now, New, Syn, "new -> syn (packet 1)")
            else if i % 3 == 0 then TCPStateChange(now, Established, Syn, "established -> syn (packet 1)")
            else if i % 3 == 1 then TCPStateChange(now, Syn, SynAck, "syn -> syn-ack (packet 2)")
            else TCPStateChange(now, SynAck, Established, "syn-ack -> established (packet 3)")
  {
    StagesSpelled(i);
    var r := i % 3;
    hide U64, StageAfter, ChangingPacket;
    DescriptionSpelled(i == 0, r);
  }

  lemma DescriptionSpelled(start: bool, r: nat)
    requires r < 3 && (start ==> r == 0)
    ensures var before := if start then New else if r == 0 then Established else if r == 1 then Syn else SynAck;
            var after := if r == 0 then Syn else if r == 1 then SynAck else Established;
            StateName(before) + " -> " + StateName(after) + " (packet " + Decimal(r + 1) + ")" ==
            if start then "new -> syn (packet 1)" else if r == 0 then "established -> syn (packet 1)"
            else if r == 1 then "syn -> syn-ack (packet 2)" else "syn-ack -> established (packet 3)"
  {
    assert Decimal(1) == "1" && Decimal(2) == "2" && Decimal(3) == "3";
    if start {
      StartText();
    } else if r == 0 {
      RestartText();
    } else if r == 1 {
      SecondText();
    } else {
      ThirdText();
    }
  }

  lemma StartText()
    ensures "new" + " -> " + "syn" + " (packet " + "1" + ")" == "new -> syn (packet 1)"
  {
    assert "new" + " -> " == "new -> ";
    assert "new -> " + "syn" == "new -> syn";
    assert "new -> syn" + " (packet " == "new -> syn (packet ";
    assert "new -> syn (packet " + "1" == "new -> syn (packet 1";
  }

  lemma RestartText()
    ensures "established" + " -> " + "syn" + " (packet " + "1" + ")" == "established -> syn (packet 1)"
  {
    assert "established" + " -> " == "established -> ";
    assert "established -> " + "syn" == "established -> syn";
    assert "established -> syn" + " (packet " == "established -> syn (packet ";
    assert "established -> syn (packet " + "1" == "established -> syn (packet 1";
  }

  lemma SecondText()
    ensures "syn" + " -> " + "syn-ack" + " (packet " + "2" + ")" == "syn -> syn-ack (packet 2)"
  {
    assert "syn" + " -> " == "syn -> ";
    assert "syn -> " + "syn-ack" == "syn -> syn-ack";
    assert "syn -> syn-ack" + " (packet " == "syn -> syn-ack (packet ";
    assert "syn -> syn-ack (packet " + "2" == "syn -> syn-ack (packet 2";
  }

  lemma ThirdText()
    ensures "syn-ack" + " -> " + "established" + " (packet " + "3" + ")" == "syn-ack -> established (packet 3)"
  {
    assert "syn-ack" + " -> " == "syn-ack -> ";
    assert "syn-ack -> " + "established" == "syn-ack -> established";
    assert "syn-ack -> established" + " (packet " == "syn-ack -> established (packet ";
    assert "syn-ack -> established (packet " + "3" == "syn-ack -> established (packet 3";
  }

  lemma StagesSpelled(i: nat)
    ensures var n := ChangingPacket(i);
            && U64(n) == i % 3 + 1
            && StageAfter(n - 1) == (if i == 0 then New else if i % 3 == 0 then Established
                                     else if i % 3 == 1 then Syn else SynAck)
            && StageAfter(n) == if i % 3 == 0 then Syn else if i % 3 == 1 then SynAck else Established
  {
    var q, r := i / 3, i % 3;
    assert i == 3 * q + r;
    MultipleOf(q, r + 1);
    MultipleOf(q, r);
  }

  lemma MultipleOf(q: nat, r: nat)
    requires r < TWO_64
    ensures U64(q * TWO_64 + r) == r
  {
  }

  /** The change log of a TCP flow: how many entries, and entry i, made by packet ChangingPacket(i). */
  lemma ChangeLogField(a: FlowAggregator, k: string, b: nat, c: Conversation, i: nat)
    requires Since(a, k, b, c) && c != [] && c[0].evt.protocol == 6
    ensures |a.flows[k].stateChanges| == Min(100, Transitions(|c|))
    ensures i < |a.flows[k].stateChanges| ==>
              && ChangingPacket(i) <= |c|
              && var change, now := a.flows[k].stateChanges[i], c[ChangingPacket(i) - 1].now;
              && (i == 0 ==> change == TCPStateChange(now, New, Syn, "new -> syn (packet 1)"))
              && (i > 0 && i % 3 == 0 ==>
                    change == TCPStateChange(now, Established, Syn, "established -> syn (packet 1)"))
              && (i % 3 == 1 ==> change == TCPStateChange(now, Syn, SynAck, "syn -> syn-ack (packet 2)"))
              && (i % 3 == 2 ==>
                    change == TCPStateChange(now, SynAck, Established, "syn-ack -> established (packet 3)"))
  {
    Behind(a, k, b, c);
    TcpExposed(a.flows[k]);
    hide *;
    ChangeLogSpelled(c, i);
    if i < |a.flows[k].stateChanges| {
      ChangeSpelled(i, c[ChangingPacket(i) - 1].now);
    }
  }

  lemma ChangeLogSpelled(c: Conversation, i: nat)
    requires c != [] && c[0].evt.protocol == 6
    ensures var log := TcpLifeOf(c[0], c).stateChanges;
            && |log| == Min(100, Transitions(|c|))
            && (i < |log| ==>
                  ChangingPacket(i) <= |c| && log[i] == ChangeAt(ChangingPacket(i), c[ChangingPacket(i) - 1].now))
  {
    hide Changes, ChangeAt, StageAfter, Transitions, ChangingPacket;
    ChangeCount(c);
    if i < |Changes(c)| {
      ChangesSpelled(c, i);
    }
  }

  // ---------------------------------------------------------------------- DNS

  lemma DnsExposed(f: Flow)
    requires f.Valid()
    ensures f.dnsQueries == Queries(f.events) && f.dnsFailures == U64(TotalFailedQuestions(f.events))
    ensures f.dnsQueryNames == Histogram(Names(Queries(f.events))) && f.dnsLastQuery == LastQueryTime(f.events)
  {
    FailuresByResponseCode(f.events);
    hide CountersOf, PortUseOf, TcpLifeOf, Records, FlowKey, Queries, Failures, LastQueryTime, Histogram, Names,
         TotalFailedQuestions, U64;
    assert f.DnsView() == DnsTallyOf(f.events);
  }

  /** What one packet adds to the log. */
  lemma QueriesSpelled(e: Stamped)
    ensures var r := Dns.Parse(e.evt.payload);
            if e.evt.protocol == 17 && e.evt.dport == 53 && r.Some? then
              && |QueriesOf(e)| == |r.value.questions| > 0
              && forall j | 0 <= j < |r.value.questions| ::
                   var q := r.value.questions[j];
                   QueriesOf(e)[j] == DNSQuery(e.now, q.name, Dns.GetQueryType(q.qtype), r.value.isResponse,
                                               Dns.GetResponseCode(r.value.responseCode), Forward)
            else QueriesOf(e) == []
  {
    if Dns.Parse(e.evt.payload).Some? {
      QuestionsReported(e.evt.payload);
    }
    hide Dns.Parse, Dns.GetQueryType, Dns.GetResponseCode;
  }

  lemma QuestionsReported(p: Octets)
    requires Dns.Parse(p).Some?
    ensures p != [] && Dns.Parse(p).value.questions != []
  {
    DnsGrammar.ByteAccounting(p);
  }

  /** counts[i] is the number of log entries packet i makes. */
  lemma {:induction false} LogLength(c: Conversation, counts: seq<nat>)
    requires |counts| == |c| && forall i | 0 <= i < |c| :: counts[i] == |QueriesOf(c[i])|
    ensures |Queries(c)| == Sum(counts)
    decreases |c|
  {
    hide QueriesOf;
    if c != [] {
      LogLength(Front(c), Front(counts));
    }
  }

  lemma {:induction false} LogSpelled(c: Conversation, counts: seq<nat>, i: nat, j: nat)
    requires |counts| == |c| && forall i | 0 <= i < |c| :: counts[i] == |QueriesOf(c[i])|
    requires i < |c| && j < counts[i]
    ensures Sum(counts[..i]) + j < Sum(counts) == |Queries(c)|
    ensures Queries(c)[Sum(counts[..i]) + j] == QueriesOf(c[i])[j]
    decreases |c|
  {
    hide QueriesOf;
    LogLength(c, counts);
    LogLength(Front(c), Front(counts));
    var n := |c| - 1;
    if i < n {
      assert Front(counts)[..i] == counts[..i];
      LogSpelled(Front(c), Front(counts), i, j);
    } else {
      assert counts[..n] == Front(counts);
    }
  }

  /**
   * The query log of a flow: counts[i] is the number of questions of packet i if that is a UDP
   * packet to port 53 whose payload parses, else 0; its j-th question stands behind all earlier ones.
   */
  lemma QueryLogField(a: FlowAggregator, k: string, b: nat, c: Conversation, counts: seq<nat>, i: nat, j: nat)
    requires Since(a, k, b, c) && |counts| == |c|
    requires forall i | 0 <= i < |c| ::
               var r := Dns.Parse(c[i].evt.payload);
               counts[i] == if c[i].evt.protocol == 17 && c[i].evt.dport == 53 && r.Some? then |r.value.questions|
                            else 0
    ensures |a.flows[k].dnsQueries| == Sum(counts)
    ensures i < |c| && j < counts[i] ==>
              var r, n := Dns.Parse(c[i].evt.payload), Sum(counts[..i]) + j;
              && n < Sum(counts) && r.Some? && j < |r.value.questions|
              && var q := r.value.questions[j];
              a.flows[k].dnsQueries[n] == DNSQuery(c[i].now, q.name, Dns.GetQueryType(q.qtype), r.value.isResponse,
                                                   Dns.GetResponseCode(r.value.responseCode), Forward)
  {
    Behind(a, k, b, c);
    DnsExposed(a.flows[k]);
    hide *;
    QueryLogSpelled(c, counts, i, j);
  }

  lemma QueryLogSpelled(c: Conversation, counts: seq<nat>, i: nat, j: nat)
    requires |counts| == |c|
    requires forall i | 0 <= i < |c| ::
               var r := Dns.Parse(c[i].evt.payload);
               counts[i] == if c[i].evt.protocol == 17 && c[i].evt.dport == 53 && r.Some? then |r.value.questions|
                            else 0
    ensures |Queries(c)| == Sum(counts)
    ensures i < |c| && j < counts[i] ==>
              var r, n := Dns.Parse(c[i].evt.payload), Sum(counts[..i]) + j;
              && n < Sum(counts) && r.Some? && j < |r.value.questions|
              && var q := r.value.questions[j];
              Queries(c)[n] == DNSQuery(c[i].now, q.name, Dns.GetQueryType(q.qtype), r.value.isResponse,
                                        Dns.GetResponseCode(r.value.responseCode), Forward)
  {
    hide *;
    forall i | 0 <= i < |c|
      ensures counts[i] == |QueriesOf(c[i])|
    {
      QueriesSpelled(c[i]);
    }
    LogLength(c, counts);
    if i < |c| && j < counts[i] {
      LogSpelled(c, counts, i, j);
      QueriesSpelled(c[i]);
    }
  }

  lemma {:induction false} FailuresSpelled(c: Conversation, failed: seq<nat>)
    requires |failed| == |c|
    requires forall i | 0 <= i < |c| :: failed[i] == FailedQuestions(c[i])
    ensures TotalFailedQuestions(c) == Sum(failed)
    decreases |c|
  {
    hide FailedQuestions;
    if c != [] {
      FailuresSpelled(Front(c), Front(failed));
    }
  }

  /** failed[i] is the number of questions of packet i if that is a logged response with non-zero RCODE, else 0. */
  lemma FailureField(a: FlowAggregator, k: string, b: nat, c: Conversation, failed: seq<nat>)
    requires Since(a, k, b, c) && |failed| == |c|
    requires forall i | 0 <= i < |c| ::
               var r := Dns.Parse(c[i].evt.payload);
               failed[i] == if c[i].evt.protocol == 17 && c[i].evt.dport == 53 && r.Some?
                               && r.value.isResponse && r.value.responseCode != 0 then |r.value.questions| else 0
    ensures a.flows[k].dnsFailures == U64(Sum(failed))
  {
    Behind(a, k, b, c);
    DnsExposed(a.flows[k]);
    hide *;
    forall i | 0 <= i < |c|
      ensures failed[i] == FailedQuestions(c[i])
    {
      FailedSpelled(c[i]);
    }
    FailuresSpelled(c, failed);
  }

  lemma FailedSpelled(e: Stamped)
    ensures var r := Dns.Parse(e.evt.payload);
            FailedQuestions(e) == if e.evt.protocol == 17 && e.evt.dport == 53 && r.Some?
                                     && r.value.isResponse && r.value.responseCode != 0 then |r.value.questions| else 0
  {
    QueriesSpelled(e);
    hide Dns.Parse, QueriesOf;
  }

  lemma {:induction false} LastQuerySpelled(c: Conversation, i: nat)
    ensures (forall j | 0 <= j < |c| :: QueriesOf(c[j]) == []) ==> LastQueryTime(c) == 0
    ensures i < |c| && QueriesOf(c[i]) != [] && (forall j | i < j < |c| :: QueriesOf(c[j]) == []) ==>
              LastQueryTime(c) == c[i].now
    decreases |c|
  {
    hide QueriesOf;
    if c != [] {
      LastQuerySpelled(Front(c), i);
      assert Last(c) == c[|c| - 1];
    }
  }

  /** The time of the last packet that made log entries; zero while there is none. */
  lemma LastQueryField(a: FlowAggregator, k: string, b: nat, c: Conversation, logged: seq<bool>, i: nat)
    requires Since(a, k, b, c) && |logged| == |c|
    requires forall j | 0 <= j < |c| ::
               logged[j] == (c[j].evt.protocol == 17 && c[j].evt.dport == 53 && Dns.Parse(c[j].evt.payload).Some?)
    ensures (forall j | 0 <= j < |c| :: !logged[j]) ==> a.flows[k].dnsLastQuery == 0
    ensures i < |c| && logged[i] && (forall j | i < j < |c| :: !logged[j]) ==> a.flows[k].dnsLastQuery == c[i].now
  {
    Behind(a, k, b, c);
    DnsExposed(a.flows[k]);
    hide *;
    forall j | 0 <= j < |c|
      ensures logged[j] <==> QueriesOf(c[j]) != []
    {
      QueriesSpelled(c[j]);
    }
    LastQuerySpelled(c, i);
  }

  /** names lists the names asked for in the log. */
  lemma TallyField(a: FlowAggregator, k: string, b: nat, c: Conversation, names: seq<Domain>, d: Domain)
    requires Since(a, k, b, c) && |names| == |a.flows[k].dnsQueries|
    requires forall n | 0 <= n < |names| :: names[n] == a.flows[k].dnsQueries[n].domain
    ensures d in a.flows[k].dnsQueryNames <==> d in names
    ensures d in names ==> a.flows[k].dnsQueryNames[d] == U64(multiset(names)[d])
  {
    Behind(a, k, b, c);
    DnsExposed(a.flows[k]);
    hide *;
    TallySpelled(a.flows[k].dnsQueries, names, d);
  }

  lemma TallySpelled(log: seq<DNSQuery>, names: seq<Domain>, d: Domain)
    requires |names| == |log| && forall n | 0 <= n < |names| :: names[n] == log[n].domain
    ensures d in Histogram(Names(log)) <==> d in names
    ensures d in names ==> Histogram(Names(log))[d] == U64(multiset(names)[d])
  {
    assert names == Names(log);
  }

  // ------------------------------------------------------------------ history

  lemma HistoryExposed(f: Flow)
    requires f.Valid()
    ensures NonNil(f.packetHistory.Window()) == LastN(Records(f.first, f.events), f.packetHistory.capacity)
  {
    hide CountersOf, PortUseOf, DnsTallyOf, TcpLifeOf, RecordOf, FlowKey;
    f.ViewIsSummary();
  }

  lemma RingExposed(f: Flow)
    requires f.Valid()
    ensures f.packetHistory.Valid()
  {
  }

  /** What GetAll returns are records of the last packets, as many as fit, oldest first. */
  lemma HistoryLengthField(a: FlowAggregator, k: string, b: nat, c: Conversation, records: seq<PacketRecord>)
    requires Since(a, k, b, c) && records == NonNil(a.flows[k].packetHistory.Window())
    ensures c != [] && a.flows[k].packetHistory.Valid()
    ensures |records| == Min(|c|, a.packetBufferSize)
    ensures records == LastN(Records(c[0], c), a.packetBufferSize)
  {
    Behind(a, k, b, c);
    RingExposed(a.flows[k]);
    HistoryExposed(a.flows[k]);
    hide *;
    HistorySpelled(c, a.packetBufferSize);
  }

  /** Record i has the stamp, addresses, ports, length and direction of its packet e. */
  lemma HistoryField(a: FlowAggregator, k: string, b: nat, c: Conversation, records: seq<PacketRecord>,
                     i: nat, e: Stamped)
    requires Since(a, k, b, c) && records == NonNil(a.flows[k].packetHistory.Window()) && i < |records| <= |c|
    requires e == c[|c| - |records| + i]
    ensures var r := records[i];
            && r.timestamp == e.now && r.length == e.evt.len && r.tcpFlags == e.evt.protocol
            && r.srcIP == IPFromUint32(e.evt.saddr) && r.srcPort == e.evt.sport
            && r.dstIP == IPFromUint32(e.evt.daddr) && r.dstPort == e.evt.dport
            && (r.direction == Forward <==> e.evt.saddr == c[0].evt.saddr && e.evt.daddr == c[0].evt.daddr)
  {
    RecordIsOf(a, k, b, c, records, i);
    hide *;
    RecordSpelled(c[0], e);
  }

  /** And the last of its DNS queries, if it has any. */
  lemma HistoryQueryField(a: FlowAggregator, k: string, b: nat, c: Conversation, records: seq<PacketRecord>,
                          i: nat, e: Stamped)
    requires Since(a, k, b, c) && records == NonNil(a.flows[k].packetHistory.Window()) && i < |records| <= |c|
    requires e == c[|c| - |records| + i]
    ensures var parsed := Dns.Parse(e.evt.payload);
            if e.evt.protocol == 17 && e.evt.dport == 53 && parsed.Some? then
              && parsed.value.questions != []
              && var q := parsed.value.questions[|parsed.value.questions| - 1];
              records[i].dnsQuery ==
              Some(DNSQuery(e.now, q.name, Dns.GetQueryType(q.qtype), parsed.value.isResponse,
                            Dns.GetResponseCode(parsed.value.responseCode), Forward))
            else records[i].dnsQuery == None
  {
    RecordIsOf(a, k, b, c, records, i);
    hide *;
    RecordSpelled(c[0], e);
  }

  lemma RecordIsOf(a: FlowAggregator, k: string, b: nat, c: Conversation, records: seq<PacketRecord>, i: nat)
    requires Since(a, k, b, c) && records == NonNil(a.flows[k].packetHistory.Window()) && i < |records| <= |c|
    ensures records[i] == RecordOf(c[0], c[|c| - |records| + i])
  {
    HistoryLengthField(a, k, b, c, records);
    hide *;
    HistorySpelled(c, a.packetBufferSize);
  }

  lemma RecordSpelled(first: Stamped, e: Stamped)
    ensures var r := RecordOf(first, e);
            && r.timestamp == e.now && r.length == e.evt.len && r.tcpFlags == e.evt.protocol
            && r.srcIP == IPFromUint32(e.evt.saddr) && r.srcPort == e.evt.sport
            && r.dstIP == IPFromUint32(e.evt.daddr) && r.dstPort == e.evt.dport
            && (r.direction == Forward <==> e.evt.saddr == first.evt.saddr && e.evt.daddr == first.evt.daddr)
            && var parsed := Dns.Parse(e.evt.payload);
            if e.evt.protocol == 17 && e.evt.dport == 53 && parsed.Some? then
              && parsed.value.questions != []
              && var q := parsed.value.questions[|parsed.value.questions| - 1];
              r.dnsQuery == Some(DNSQuery(e.now, q.name, Dns.GetQueryType(q.qtype), parsed.value.isResponse,
                                          Dns.GetResponseCode(parsed.value.responseCode), Forward))
            else r.dnsQuery == None
  {
    QueriesSpelled(e);
    hide IPFromUint32, QueriesOf, Dns.Parse, Dns.GetQueryType, Dns.GetResponseCode;
  }

  lemma HistorySpelled(c: Conversation, capacity: nat)
    requires c != []
    ensures |LastN(Records(c[0], c), capacity)| == Min(|c|, capacity)
    ensures |LastN(Records(c[0], c), capacity)| <= |c|
    ensures var records := LastN(Records(c[0], c), capacity);
            forall i | 0 <= i < |records| :: records[i] == RecordOf(c[0], c[|c| - |records| + i])
  {
    hide RecordOf;
  }
}
