/** internal/model/packet.go, type Flow, with the per-flow part of processEvent. */
module Flows {
  import opened Base
  import opened Text
  import opened Packet
  import opened FlowKeys
  import opened Conversations
  import opened RingBuffers

  /** The records of a flow as the ring buffer stores them (pointers, never nil here). */
  function Stored(rs: seq<PacketRecord>): seq<Option<PacketRecord>> {
    seq(|rs|, i requires 0 <= i < |rs| => Some(rs[i]))
  }

  class Flow {
    const srcIP: IPv4
    const dstIP: IPv4
    const protocol: string

    var srcPorts: map<Port, uint64>
    var dstPorts: map<Port, uint64>
    var topSrcPort: Port
    var topDstPort: Port

    var packetCount: uint64
    var byteCount: uint64
    var lastPacketTime: Time
    var firstPacketTime: Time

    var forwardPackets: uint64
    var forwardBytes: uint64
    var reversePackets: uint64
    var reverseBytes: uint64

    var tcpFlags: uint8
    var state: FlowState
    var packetHistory: RingBuffer<PacketRecord>
    var stateChanges: seq<TCPStateChange>

    var dnsQueries: seq<DNSQuery>
    var dnsQueryNames: map<Domain, uint64>
    var dnsFailures: uint64
    var dnsLastQuery: Time

    /** The packet that created the flow, and every packet absorbed since. */
    ghost const first: Stamped
    ghost var events: Conversation
    ghost var Repr: set<object>

    ghost function CountersView(): Counters
      reads `packetCount, `byteCount, `forwardPackets, `forwardBytes, `reversePackets, `reverseBytes
      reads `firstPacketTime, `lastPacketTime
    {
      Counters(packetCount, byteCount, forwardPackets, forwardBytes, reversePackets, reverseBytes,
               firstPacketTime, lastPacketTime)
    }

    ghost function SrcView(): PortUse
      reads `srcPorts, `topSrcPort
    {
      PortUse(srcPorts, topSrcPort)
    }

    ghost function DstView(): PortUse
      reads `dstPorts, `topDstPort
    {
      PortUse(dstPorts, topDstPort)
    }

    ghost function TcpView(): TcpLife
      reads `tcpFlags, `state, `stateChanges
    {
      TcpLife(tcpFlags, state, stateChanges)
    }

    ghost function DnsView(): DnsTally
      reads `dnsQueries, `dnsQueryNames, `dnsFailures, `dnsLastQuery
    {
      DnsTally(dnsQueries, dnsQueryNames, dnsFailures, dnsLastQuery)
    }

    /** Every field a reader can see; the history is what GetAll returns. */
    ghost function View(): FlowView
      reads this, packetHistory
    {
      FlowView(srcIP, dstIP, protocol, CountersView(), SrcView(), DstView(),
               NonNil(LastN(packetHistory.added, packetHistory.capacity)), TcpView(), DnsView())
    }

    /** The numeric, TCP and DNS fields are those of conversation c. */
    ghost predicate Tallied(c: Conversation)
      reads `packetCount, `byteCount, `forwardPackets, `forwardBytes, `reversePackets, `reverseBytes
      reads `firstPacketTime, `lastPacketTime, `srcPorts, `topSrcPort, `dstPorts, `topDstPort
      reads `tcpFlags, `state, `stateChanges, `dnsQueries, `dnsQueryNames, `dnsFailures, `dnsLastQuery
    {
      && CountersView() == CountersOf(first, c)
      && SrcView() == PortUseOf(SrcPorts(c))
      && DstView() == PortUseOf(DstPorts(c))
      && TcpView() == TcpLifeOf(first, c)
      && DnsView() == DnsTallyOf(c)
    }

    ghost predicate Identified()
    {
      && srcIP == IPFromUint32(first.evt.saddr)
      && dstIP == IPFromUint32(first.evt.daddr)
      && protocol == ProtocolName(first.evt.protocol)
    }

    /** All packets carry the key of the packet that created the flow. */
    ghost predicate OneConversation()
      reads `events
    {
      forall e <- events :: FlowKey(e.evt) == FlowKey(first.evt)
    }

    ghost predicate Valid()
      reads this, Repr
      ensures Valid() ==> this in Repr
    {
      && this in Repr && packetHistory in Repr && packetHistory.Repr <= Repr
      && this !in packetHistory.Repr
      && Repr == {this} + packetHistory.Repr
      && packetHistory.Valid() && packetHistory.capacity > 0
      && Identified()
      && OneConversation()
      && packetHistory.added == Stored(Records(first, events))
      && Tallied(events)
    }

    /** The record literal processEvent builds for an unknown key. */
    constructor (srcIP: IPv4, dstIP: IPv4, protocol: string, now: Time, packetBufferSize: nat, ghost e: Stamped)
      requires packetBufferSize > 0
      requires srcIP == IPFromUint32(e.evt.saddr) && dstIP == IPFromUint32(e.evt.daddr)
      requires protocol == ProtocolName(e.evt.protocol) && now == e.now
      ensures Valid() && fresh(Repr)
      ensures first == e && events == [] && packetHistory.capacity == packetBufferSize
    {
      this.srcIP, this.dstIP, this.protocol := srcIP, dstIP, protocol;
      firstPacketTime, lastPacketTime := now, ZERO_TIME;
      state := New;
      srcPorts, dstPorts, topSrcPort, topDstPort := map[], map[], 0, 0;
      packetCount, byteCount := 0, 0;
      forwardPackets, forwardBytes, reversePackets, reverseBytes := 0, 0, 0, 0;
      tcpFlags, stateChanges := 0, [];
      dnsQueries, dnsQueryNames, dnsFailures, dnsLastQuery := [], map[], 0, ZERO_TIME;
      var ring := new RingBuffer<PacketRecord>(packetBufferSize);
      packetHistory := ring;
      first, events := e, [];
      Repr := {this} + ring.Repr;
    }

    method UpdateCounters(len: uint32, now: Time, isForward: bool, ghost e: Stamped)
      requires CountersView() == CountersOf(first, events)
      requires e.evt.len == len && e.now == now && isForward == (DirectionOf(first, e) == Forward)
      modifies `packetCount, `byteCount, `lastPacketTime, `forwardPackets, `forwardBytes, `reversePackets, `reverseBytes
      ensures CountersView() == CountersOf(first, events + [e])
    {
      hide CountersOf, DirectionOf, U64;
      CountersSnoc(first, events, e);
      lastPacketTime := now;
      packetCount := U64(packetCount + 1);
      byteCount := U64(byteCount + len);
      if isForward {
        forwardPackets := U64(forwardPackets + 1);
        forwardBytes := U64(forwardBytes + len);
      } else {
        reversePackets := U64(reversePackets + 1);
        reverseBytes := U64(reverseBytes + len);
      }
    }

    method UpdatePorts(sport: Port, dport: Port, ghost e: Stamped)
      requires e.evt.sport == sport && e.evt.dport == dport
      requires SrcView() == PortUseOf(SrcPorts(events))
      requires DstView() == PortUseOf(DstPorts(events))
      modifies `srcPorts, `dstPorts, `topSrcPort, `topDstPort
      ensures SrcView() == PortUseOf(SrcPorts(events + [e]))
      ensures DstView() == PortUseOf(DstPorts(events + [e]))
    {
      hide PortUseOf;
      assert SrcPorts(events + [e]) == SrcPorts(events) + [sport];
      assert DstPorts(events + [e]) == DstPorts(events) + [dport];
      srcPorts, topSrcPort := CountPort(srcPorts, topSrcPort, sport, SrcPorts(events));
      dstPorts, topDstPort := CountPort(dstPorts, topDstPort, dport, DstPorts(events));
    }

    /** The two statements processEvent repeats for source and destination ports. */
    static method CountPort(ports: map<Port, uint64>, top: Port, port: Port, ghost ps: seq<Port>)
      returns (ports': map<Port, uint64>, top': Port)
      requires PortUse(ports, top) == PortUseOf(ps)
      ensures PortUse(ports', top') == PortUseOf(ps + [port])
    {
      hide PortUseOf, U64;
      PortUseSnoc(ps, port);
      ports' := ports[port := U64(CountOf(ports, port) + 1)];
      top' := top;
      if CountOf(ports', port) > CountOf(ports', top) {
        top' := port;
      }
    }

    method UpdateDns(queries: seq<DNSQuery>, names: map<Domain, uint64>, now: Time, ghost e: Stamped)
      requires DnsView() == DnsTallyOf(events)
      requires queries == QueriesOf(e) && names == Histogram(Names(queries)) && now == e.now
      modifies `dnsQueries, `dnsQueryNames, `dnsFailures, `dnsLastQuery
      ensures DnsView() == DnsTallyOf(events + [e])
    {
      hide Queries, QueriesOf, Histogram, U64, Names, LastQueryTime, Failures;
      DnsSnoc(events, e);
      ghost var log := Queries(events);
      FailuresAppend(log, queries);
      if |queries| > 0 {
        dnsQueries := dnsQueries + queries;
        dnsQueryNames := MergeNames(dnsQueryNames, names);
        HistogramAppend(Names(log), Names(queries), dnsQueryNames);
        dnsLastQuery := now;
        dnsFailures := CountFailures(dnsFailures, queries, |Failures(log)|);
      } else {
        NothingLogged(log);
      }
    }

    static method CountFailures(start: uint64, queries: seq<DNSQuery>, ghost before: nat) returns (failures: uint64)
      requires start == U64(before)
      ensures failures == U64(before + |Failures(queries)|)
    {
      hide U64;
      failures := start;
      var i := 0;
      while i < |queries|
        invariant 0 <= i <= |queries|
        invariant failures == U64(before + |Failures(queries[..i])|)
      {
        assert queries[..i + 1] == queries[..i] + [queries[i]];
        FrontLast(queries[..i], queries[i]);
        if Failed(queries[i]) {
          U64Add(before + |Failures(queries[..i])|, 1);
          failures := U64(failures + 1);
        }
        i := i + 1;
      }
      assert queries[..i] == queries;
    }

    method UpdateTcp(protocol: uint8, now: Time, ghost e: Stamped)
      requires TcpView() == TcpLifeOf(first, events)
      requires e.evt.protocol == protocol && e.now == now && CountersView() == CountersOf(first, events + [e])
      requires protocol == TCP <==> first.evt.protocol == TCP
      modifies `tcpFlags, `state, `stateChanges
      ensures TcpView() == TcpLifeOf(first, events + [e])
    {
      hide StateName, Decimal, CountersOf;
      assert packetCount == U64(|events| + 1) by {
        CountersPacketCount(first, events + [e]);
      }
      ghost var n := |events| + 1;
      TcpLifeSnoc(first, events, e);
      if protocol == TCP {
        tcpFlags := protocol;
        var oldState := state;
        assert oldState == StageAfter(n - 1);
        WrapFollowsEstablished(n);
        if packetCount == 1 {
          state := Syn;
        } else if packetCount == 2 {
          state := SynAck;
        } else if packetCount >= 3 {
          state := Established;
        }
        assert state == StageAfter(n);
        hide U64, StageAfter, TcpLifeOf;
        if oldState != state && |stateChanges| < MAX_STATE_CHANGES {
          var change := TCPStateChange(now, oldState, state,
                                       StateName(oldState) + " -> " + StateName(state)
                                       + " (packet " + Decimal(packetCount) + ")");
          stateChanges := stateChanges + [change];
        }
      }
    }

    /** Everything processEvent does to the flow it found or created. */
    method Absorb(evt: PacketEvent, now: Time, record: PacketRecord, queries: seq<DNSQuery>, names: map<Domain, uint64>)
      requires Valid()
      requires FlowKey(evt) == FlowKey(first.evt)
      requires record == RecordOf(Stamped(evt, now), Stamped(evt, now))
      requires queries == QueriesOf(Stamped(evt, now)) && names == Histogram(Names(queries))
      modifies Repr
      ensures Valid() && Repr == old(Repr)
      ensures events == old(events) + [Stamped(evt, now)]
      ensures packetHistory.capacity == old(packetHistory.capacity)
    {
      hide FlowKey, QueriesOf, Histogram, IPFromUint32, Records, RecordOf, Stored, DirectionOf, Tallied;
      ghost var e := Stamped(evt, now);
      var rec, isForward := Direct(evt, record, srcIP, dstIP, first, now);
      TcpProtocolIsExclusive(evt, first.evt);
      StoredSnoc(first, events, e);
      packetHistory.Add(Some(rec));
      Tally(evt, now, isForward, queries, names, e);
      events := events + [e];
    }

    /** The statistics of processEvent; independent of the history entry added beside them. */
    method Tally(evt: PacketEvent, now: Time, isForward: bool, queries: seq<DNSQuery>,
                 names: map<Domain, uint64>, ghost e: Stamped)
      requires Tallied(events) && e == Stamped(evt, now)
      requires isForward == (DirectionOf(first, e) == Forward)
      requires evt.protocol == TCP <==> first.evt.protocol == TCP
      requires queries == QueriesOf(e) && names == Histogram(Names(queries))
      modifies `packetCount, `byteCount, `lastPacketTime, `forwardPackets, `forwardBytes, `reversePackets, `reverseBytes
      modifies `srcPorts, `dstPorts, `topSrcPort, `topDstPort
      modifies `tcpFlags, `state, `stateChanges, `dnsQueries, `dnsQueryNames, `dnsFailures, `dnsLastQuery
      ensures Tallied(events + [e])
    {
      hide CountersOf, PortUseOf, DnsTallyOf, TcpLifeOf, QueriesOf, Histogram, SrcPorts, DstPorts, DirectionOf,
           CountersView, SrcView, DstView, TcpView, DnsView;
      UpdateCounters(evt.len, now, isForward, e);
      UpdatePorts(evt.sport, evt.dport, e);
      UpdateDns(queries, names, now, e);
      UpdateTcp(evt.protocol, now, e);
    }

    /** `isForward`, and the record with its direction corrected. */
    static method Direct(evt: PacketEvent, record: PacketRecord, srcIP: IPv4, dstIP: IPv4,
                         ghost first: Stamped, ghost now: Time)
      returns (rec: PacketRecord, isForward: bool)
      requires srcIP == IPFromUint32(first.evt.saddr) && dstIP == IPFromUint32(first.evt.daddr)
      requires record == RecordOf(Stamped(evt, now), Stamped(evt, now))
      ensures isForward == (DirectionOf(first, Stamped(evt, now)) == Forward)
      ensures rec == RecordOf(first, Stamped(evt, now))
    {
      hide IPFromUint32, IPToUint32, QueriesOf;
      isForward := evt.saddr == IPToUint32(srcIP) && evt.daddr == IPToUint32(dstIP);
      DirectionTest(evt, first.evt);
      rec := record;
      if !isForward {
        rec := rec.(direction := Reverse);
      }
    }

    lemma OwnedObjects()
      requires Valid()
      ensures Repr == {this, packetHistory, packetHistory.packets}
    {
      hide Tallied, OneConversation, Identified, Stored, Records;
    }

    lemma CountersShown()
      requires Valid()
      ensures packetCount == U64(|events|) && byteCount == U64(Bytes(events))
    {
      hide FlowKey, PortUseOf, DnsTallyOf, TcpLifeOf, RecordOf;
      assert CountersView() == CountersOf(first, events);
    }

    lemma LastSeen()
      requires Valid() && events != []
      ensures lastPacketTime == Last(events).now
    {
      hide FlowKey, PortUseOf, DnsTallyOf, TcpLifeOf, RecordOf;
      assert CountersView() == CountersOf(first, events);
    }

    /** The visible fields of a valid flow are the summary of its packets. */
    lemma ViewIsSummary()
      requires Valid()
      ensures View() == Summarize(first, events, packetHistory.capacity)
    {
      hide FlowKey, CountersOf, PortUseOf, DnsTallyOf, TcpLifeOf, RecordOf;
      var rs, n := Records(first, events), packetHistory.capacity;
      assert LastN(Stored(rs), n) == Stored(LastN(rs, n));
      NonNilOfSome(Stored(LastN(rs, n)));
    }
  }

  lemma CountersPacketCount(first: Stamped, c: Conversation)
    ensures CountersOf(first, c).packetCount == U64(|c|)
  {
  }

  lemma WrapFollowsEstablished(n: nat)
    requires n > 0
    ensures U64(n) == 0 ==> StageAfter(n - 1) == StageAfter(n) == Established
  {
  }

  /** One more TCP packet moves the stage and logs the change while there is room. */
  lemma TcpLifeSnoc(first: Stamped, c: Conversation, e: Stamped)
    ensures var before, n := TcpLifeOf(first, c), |c| + 1;
            TcpLifeOf(first, c + [e]) ==
            if first.evt.protocol != TCP then before
            else
              TcpLife(TCP, StageAfter(n),
                      if StageAfter(n - 1) != StageAfter(n) && |before.stateChanges| < MAX_STATE_CHANGES then
                        before.stateChanges + [ChangeAt(n, e.now)]
                      else before.stateChanges)
  {
    hide StageAfter, ChangeAt, U64;
    FrontLast(c, e);
  }

  lemma NothingLogged(log: seq<DNSQuery>)
    ensures log + [] == log
    ensures Failures([]) == []
  {
  }

  lemma StoredSnoc(first: Stamped, c: Conversation, e: Stamped)
    ensures Stored(Records(first, c + [e])) == Stored(Records(first, c)) + [Some(RecordOf(first, e))]
  {
    assert Records(first, c + [e]) == Records(first, c) + [RecordOf(first, e)];
  }

  /** `for domain, count := range names { into[domain] += count }`, in any iteration order. */
  method MergeNames(into: map<Domain, uint64>, names: map<Domain, uint64>) returns (merged: map<Domain, uint64>)
    ensures MergedUpTo(into, names, names.Keys, merged)
  {
    hide U64, CountOf;
    merged := into;
    var todo := names.Keys;
    ghost var done: set<Domain> := {};
    while todo != {}
      invariant done !! todo && done + todo == names.Keys
      invariant MergedUpTo(into, names, done, merged)
      decreases todo
    {
      hide MergedUpTo;
      var d :| d in todo;
      MergeStep(into, names, done, merged, d);
      merged := merged[d := U64(CountOf(merged, d) + names[d])];
      todo, done := todo - {d}, done + {d};
    }
    assert done == names.Keys;
  }

  ghost predicate MergedUpTo(into: map<Domain, uint64>, names: map<Domain, uint64>, done: set<Domain>,
                             merged: map<Domain, uint64>)
    requires done <= names.Keys
  {
    && merged.Keys == into.Keys + done
    && forall d <- merged :: merged[d] == if d in done then U64(CountOf(into, d) + names[d]) else into[d]
  }

  lemma MergeStep(into: map<Domain, uint64>, names: map<Domain, uint64>, done: set<Domain>,
                  merged: map<Domain, uint64>, d: Domain)
    requires done <= names.Keys && d in names.Keys - done
    requires MergedUpTo(into, names, done, merged)
    ensures MergedUpTo(into, names, done + {d}, merged[d := U64(CountOf(merged, d) + names[d])])
  {
    hide U64;
  }
}
