/** internal/monitor/aggregator.go: the flow table under its lock. */
module Aggregator {
  import opened Base
  import opened Packet
  import opened FlowKeys
  import opened Conversations
  import opened Runs
  import opened Flows
  import opened FlowProperties

  const MIN_PACKET_BUFFER: int := 1000
  const MAX_PACKET_BUFFER: int := 50000

  datatype GlobalStats = GlobalStats(
    totalPackets: uint64,
    totalBytes: uint64,
    totalFlows: uint64,
    droppedPackets: uint64,
    packetLossRate: real,
    upstreamTime: Time,
    currentTime: Time)

  /** The data processEvent prepares for packet e before it takes the lock; the record is forward. */
  ghost predicate Prepared(e: Stamped, record: PacketRecord, queries: seq<DNSQuery>, names: map<Domain, uint64>) {
    record == RecordOf(e, e) && queries == QueriesOf(e) && names == Histogram(Names(queries))
  }

  /** The part of processEvent that runs before the lock is taken: parse and tally DNS questions. */
  method CollectQueries(evt: PacketEvent, now: Time) returns (queries: seq<DNSQuery>, names: map<Domain, uint64>)
    ensures queries == QueriesOf(Stamped(evt, now))
    ensures names == Histogram(Names(queries))
  {
    hide Histogram, U64, CountOf, Names, QueryOf;
    queries, names := [], map[];
    EmptyHistogram();
    if evt.protocol == UDP && evt.dport == 53 && |evt.payload| > 0 {
      var r, _ := Dns.ParseDNS(evt.payload);
      if r.Some? && |r.value.questions| > 0 {
        queries, names := TallyQuestions(r.value, now);
      }
    }
  }

  /** The loop over the parsed questions. */
  method TallyQuestions(r: Dns.DNSResponse, now: Time) returns (queries: seq<DNSQuery>, names: map<Domain, uint64>)
    ensures queries == seq(|r.questions|, i requires 0 <= i < |r.questions| => QueryOf(r, r.questions[i], now))
    ensures names == Histogram(Names(queries))
  {
    hide Histogram, U64, CountOf, QueryOf, Names;
    queries, names := [], map[];
    EmptyHistogram();
    var i := 0;
    while i < |r.questions|
      invariant 0 <= i <= |r.questions|
      invariant queries == seq(i, j requires 0 <= j < i => QueryOf(r, r.questions[j], now))
      invariant names == Histogram(Names(queries))
    {
      var q := QueryOf(r, r.questions[i], now);
      NamesSnoc(queries, q);
      HistogramSnoc(Names(queries), q.domain);
      queries := queries + [q];
      names := names[q.domain := U64(CountOf(names, q.domain) + 1)];
      i := i + 1;
    }
  }

  method Prepare(evt: PacketEvent, now: Time)
    returns (record: PacketRecord, queries: seq<DNSQuery>, names: map<Domain, uint64>)
    ensures Prepared(Stamped(evt, now), record, queries, names)
  {
    hide QueriesOf, Histogram, IPFromUint32;
    queries, names := CollectQueries(evt, now);
    record := PacketRecord(now, IPFromUint32(evt.saddr), evt.sport, IPFromUint32(evt.daddr), evt.dport, evt.len,
                           Forward, evt.protocol, if |queries| > 0 then Some(queries[|queries| - 1]) else None);
  }

  lemma EmptyHistogram()
    ensures Histogram(Names([])) == map[]
  {
    assert Names([]) == [];
  }

  lemma NamesSnoc(qs: seq<DNSQuery>, q: DNSQuery)
    ensures Names(qs + [q]) == Names(qs) + [q.domain]
  {
  }

  class FlowAggregator {
    var flows: map<string, Flow>
    const flowTimeout: Time
    const packetBufferSize: nat
    var totalPackets: uint64
    var totalBytes: uint64
    var droppedPackets: uint64
    var lastUpdated: Time

    ghost const startTime: Time
    /** The critical sections executed so far, in lock order. */
    ghost var run: Run
    ghost var Repr: set<object>

    /** The flow objects own disjoint parts of the heap. */
    ghost predicate Separated()
      reads this, Repr
    {
      && this in Repr
      && (forall k <- flows ::
            && flows[k] in Repr && flows[k] in flows[k].Repr
            && flows[k].Repr <= Repr && this !in flows[k].Repr)
      && (forall k, k' | k in flows && k' in flows && k != k' :: flows[k].Repr !! flows[k'].Repr)
    }

    /** Flow f shows conversation c. */
    ghost predicate Shows(f: Flow, c: Conversation)
      reads f, f.Repr
    {
      && f.Valid()
      && c != [] && f.events == c && f.first == c[0]
      && f.packetHistory.capacity == packetBufferSize
    }

    ghost predicate Totalled()
      reads `totalPackets, `totalBytes, `droppedPackets, `lastUpdated, `run
    {
      && totalPackets == U64(|Arrivals(run)|)
      && totalBytes == U64(Bytes(Arrivals(run)))
      && droppedPackets == 0
      && lastUpdated == (if Arrivals(run) == [] then startTime else Last(Arrivals(run)).now)
      && Keyed(run)
    }

    /** The table holds exactly the conversations of m. */
    ghost predicate Table(m: map<string, Conversation>)
      requires Separated()
      reads this, Repr
    {
      flows.Keys == m.Keys && forall k <- flows :: Shows(flows[k], m[k])
    }

    /** The table is exactly the set of conversations the run leaves alive. */
    ghost predicate Valid()
      reads this, Repr
      ensures Valid() ==> this in Repr
    {
      && Separated()
      && MIN_PACKET_BUFFER <= packetBufferSize <= MAX_PACKET_BUFFER
      && Totalled()
      && Table(Live(run, flowTimeout))
    }

    constructor (flowTimeout: Time, packetBufferSize: int, now: Time)
      ensures Valid() && fresh(Repr)
      ensures run == [] && this.flowTimeout == flowTimeout && startTime == now
      ensures this.packetBufferSize ==
              if packetBufferSize < 1000 then 1000 else if packetBufferSize > 50000 then 50000 else packetBufferSize
    {
      var size := packetBufferSize;
      if size < MIN_PACKET_BUFFER {
        size := MIN_PACKET_BUFFER;
      }
      if size > MAX_PACKET_BUFFER {
        size := MAX_PACKET_BUFFER;
      }
      this.flows := map[];
      this.flowTimeout := flowTimeout;
      this.packetBufferSize := size;
      this.totalPackets, this.totalBytes, this.droppedPackets := 0, 0, 0;
      this.lastUpdated, this.startTime := now, now;
      this.run := [];
      this.Repr := {this};
    }

    /** The objects of the flow under key, if there is one: all that a packet with this key may touch in the table. */
    ghost function Objects(key: string): set<object>
      reads `flows, flows.Values, set k | k in flows :: flows[k].packetHistory
    {
      if key in flows then {flows[key], flows[key].packetHistory, flows[key].packetHistory.packets} else {}
    }

    method CountPacket(len: uint32, now: Time, ghost e: Stamped, ghost m: map<string, Conversation>)
      requires Totalled() && e.evt.len == len && e.now == now
      requires Separated() && Table(m)
      modifies `totalPackets, `totalBytes, `lastUpdated, `run
      ensures run == old(run) + [Arrive(FlowKey(e.evt), e)] && Totalled()
      ensures totalPackets == U64(old(totalPackets) + 1) && totalBytes == U64(old(totalBytes) + len)
      ensures lastUpdated == now
      ensures Separated() && Table(m)
    {
      hide U64, Flow.Valid, FlowKey, Live, Arrivals, Bytes, Get;
      LiveArrive(run, flowTimeout, e);
      U64Add(|Arrivals(run)|, 1);
      U64Add(Bytes(Arrivals(run)), len);
      totalPackets := U64(totalPackets + 1);
      totalBytes := U64(totalBytes + len);
      lastUpdated := now;
      run := run + [Arrive(FlowKey(e.evt), e)];
    }

    /** The flow under key is about to absorb e; all other flows show their conversation in m. */
    ghost predicate Awaits(key: string, e: Stamped, m: map<string, Conversation>)
      reads this, Repr
    {
      && Separated() && flows.Keys == m.Keys + {key}
      && (forall k <- flows | k != key :: Shows(flows[k], m[k]))
      && var flow := flows[key];
      && flow.Valid() && flow.packetHistory.capacity == packetBufferSize
      && flow.events == Get(m, key) && flow.first == (Get(m, key) + [e])[0]
    }

    /** flow, exists := fa.flows[flowKey], creating the flow when it is missing. */
    method GetOrCreate(key: string, srcIP: IPv4, dstIP: IPv4, protocol: string, now: Time,
                       ghost e: Stamped, ghost m: map<string, Conversation>)
      requires Separated() && Table(m) && packetBufferSize > 0
      requires srcIP == IPFromUint32(e.evt.saddr) && dstIP == IPFromUint32(e.evt.daddr)
      requires protocol == ProtocolName(e.evt.protocol) && now == e.now
      modifies `flows, `Repr
      ensures Awaits(key, e, m) && fresh(Repr - old(Repr))
      ensures key in old(flows) ==> flows == old(flows)
      ensures key !in old(flows) ==> flows == old(flows)[key := flows[key]]
      ensures fresh(flows[key].Repr - old(Repr)) && fresh(Objects(key) - old(Objects(key)))
    {
      hide IPFromUint32, ProtocolName, Flow.Valid;
      if key !in flows {
        Create(key, srcIP, dstIP, protocol, now, e, m);
      }
    }

    method Create(key: string, srcIP: IPv4, dstIP: IPv4, protocol: string, now: Time,
                  ghost e: Stamped, ghost m: map<string, Conversation>)
      requires Separated() && Table(m) && packetBufferSize > 0 && key !in flows
      requires srcIP == IPFromUint32(e.evt.saddr) && dstIP == IPFromUint32(e.evt.daddr)
      requires protocol == ProtocolName(e.evt.protocol) && now == e.now
      modifies `flows, `Repr
      ensures Awaits(key, e, m) && fresh(Repr - old(Repr)) && fresh(flows[key].Repr)
      ensures flows == old(flows)[key := flows[key]] && fresh(Objects(key))
    {
      hide IPFromUint32, ProtocolName, Flow.Valid;
      var flow := new Flow(srcIP, dstIP, protocol, now, packetBufferSize, e);
      flow.OwnedObjects();
      Insert(key, flow, m);
    }

    /** fa.flows[flowKey] = flow */
    method Insert(key: string, flow: Flow, ghost m: map<string, Conversation>)
      requires Separated() && Table(m) && key !in flows
      requires flow in flow.Repr && flow.Repr !! Repr
      modifies `flows, `Repr
      ensures flows == old(flows)[key := flow] && Repr == old(Repr) + flow.Repr
      ensures Separated() && forall k <- flows | k != key :: Shows(flows[k], m[k])
    {
      hide Flow.Valid;
      flows := flows[key := flow];
      Repr := Repr + flow.Repr;
    }

    /** The flow absorbs the packet; the other flows own other objects and stay as they are. */
    method AbsorbAt(key: string, evt: PacketEvent, now: Time, record: PacketRecord, queries: seq<DNSQuery>,
                    names: map<Domain, uint64>, ghost m: map<string, Conversation>)
      requires Awaits(key, Stamped(evt, now), m)
      requires FlowKey(evt) == FlowKey(flows[key].first.evt)
      requires Prepared(Stamped(evt, now), record, queries, names)
      modifies Objects(key)
      ensures unchanged(this) && Separated()
      ensures Table(m[key := Get(m, key) + [Stamped(evt, now)]])
    {
      hide FlowKey, RecordOf, DirectionOf, QueriesOf, Histogram, Flow.Valid, Separated, Shows;
      ThisApart(key);
      flows[key].OwnedObjects();
      flows[key].Absorb(evt, now, record, queries, names);
      OthersStand(key, m);
      ShowsAppended(flows[key], Get(m, key), Stamped(evt, now));
    }

    lemma ThisApart(key: string)
      requires Separated() && key in flows
      ensures this !in flows[key].Repr
    {
    }

    lemma ShowsAppended(f: Flow, c: Conversation, e: Stamped)
      requires f.Valid() && f.packetHistory.capacity == packetBufferSize
      requires f.events == c + [e] && f.first == f.events[0]
      ensures Shows(f, c + [e])
    {
      hide Flow.Valid;
    }

    /** What one flow owns has no influence on the other flows of the table. */
    twostate lemma OthersStand(new key: string, new m: map<string, Conversation>)
      requires unchanged(this) && key in flows && flows.Keys == m.Keys + {key}
      requires old(Separated()) && flows[key].Repr == old(flows[key].Repr)
      requires forall k <- flows | k != key :: old(Shows(flows[k], m[k]))
      requires forall o <- Repr | o !in flows[key].Repr :: unchanged(o)
      ensures Separated() && forall k <- flows | k != key :: Shows(flows[k], m[k])
    {
      hide Flow.Valid;
      forall k | k in flows && k != key
        ensures flows[k].Repr == old(flows[k].Repr) && Shows(flows[k], m[k])
      {
        assert old(flows[k].Repr) !! old(flows[key].Repr);
        assert flows[k] in old(flows[k].Repr);
        assert unchanged(flows[k]);
        assert old(Shows(flows[k], m[k]));
      }
    }

    method ProcessEvent(evt: PacketEvent, now: Time)
      requires Valid()
      modifies this, Objects(FlowKey(evt))
      ensures Valid() && fresh(Repr - old(Repr))
      ensures run == old(run) + [Arrive(FlowKey(evt), Stamped(evt, now))]
      ensures totalPackets == U64(old(totalPackets) + 1) && totalBytes == U64(old(totalBytes) + evt.len)
      ensures lastUpdated == now && droppedPackets == 0
      ensures FlowKey(evt) in flows && flows == old(flows)[FlowKey(evt) := flows[FlowKey(evt)]]
      ensures if FlowKey(evt) in old(flows) then flows == old(flows) else fresh(flows[FlowKey(evt)])
    {
      hide FlowKey, Prepared, U64, Live, Flow.Valid, Shows, Arrivals, Bytes, IdleKeys, Get;
      ghost var e := Stamped(evt, now);
      ghost var before := Live(run, flowTimeout);
      var record, queries, names := Prepare(evt, now);
      KeyOfFirst(run, flowTimeout, e);
      LiveArrive(run, flowTimeout, e);
      CountPacket(evt.len, now, e, before);
      UpdateFlow(FlowKey(evt), evt, now, record, queries, names, before);
    }

    /** Finds or creates the flow and lets it absorb the packet. */
    method UpdateFlow(key: string, evt: PacketEvent, now: Time, record: PacketRecord, queries: seq<DNSQuery>,
                      names: map<Domain, uint64>, ghost m: map<string, Conversation>)
      requires this in Repr && Separated() && Table(m) && Totalled() && packetBufferSize > 0
      requires FlowKey(evt) == FlowKey((Get(m, key) + [Stamped(evt, now)])[0].evt)
      requires Prepared(Stamped(evt, now), record, queries, names)
      modifies `flows, `Repr, Objects(key)
      ensures Separated() && Table(m[key := Get(m, key) + [Stamped(evt, now)]])
      ensures Totalled() && run == old(run)
      ensures fresh(Repr - old(Repr))
      ensures key in flows && flows == old(flows)[key := flows[key]]
      ensures if key in old(flows) then flows == old(flows) else fresh(flows[key])
    {
      hide FlowKey, Prepared, U64, Flow.Valid, Shows, IPFromUint32, ProtocolName, Separated, Totalled, Arrivals, Live;
      var srcIP := IPFromUint32(evt.saddr);
      var dstIP := IPFromUint32(evt.daddr);
      var protocol := ProtocolName(evt.protocol);
      GetOrCreate(key, srcIP, dstIP, protocol, now, Stamped(evt, now), m);
      AbsorbAt(key, evt, now, record, queries, names, m);
    }

    method MarkClosed(ghost key: string, flow: Flow, ghost m: map<string, Conversation>, ghost others: set<string>)
      requires Separated() && key in flows && flow == flows[key] && key !in others
      requires others <= flows.Keys && others <= m.Keys
      requires forall k <- others :: Shows(flows[k], m[k])
      modifies flow`state
      ensures Separated()
      ensures flow.state == Closed
      ensures forall k <- others :: Shows(flows[k], m[k])
    {
      hide Flow.Valid;
      flow.state := Closed;
    }

    /** The first loop of closeIdleFlows with the flows under keys still to be visited. */
    ghost predicate HalfMarked(m: map<string, Conversation>, now: Time, keys: set<string>, toDelete: set<string>)
      requires forall k <- m :: m[k] != []
      reads this, Repr
    {
      && Separated() && flows.Keys == m.Keys
      && keys <= flows.Keys && toDelete <= flows.Keys - keys
      && (forall k <- flows.Keys - keys :: k in toDelete <==> Expired(Last(m[k]).now, now, flowTimeout))
      && (forall k <- toDelete :: flows[k].state == Closed)
      && (forall k <- flows | k !in toDelete :: Shows(flows[k], m[k]))
    }

    method MarkOne(key: string, flow: Flow, now: Time, ghost m: map<string, Conversation>, ghost keys: set<string>,
                   toDelete: set<string>) returns (toDelete': set<string>)
      requires forall k <- m :: m[k] != []
      requires HalfMarked(m, now, keys, toDelete) && key in keys
      requires flow == flows[key]
      modifies flow`state
      ensures HalfMarked(m, now, keys - {key}, toDelete')
      ensures toDelete' == toDelete || toDelete' == toDelete + {key}
      ensures key !in toDelete' ==> unchanged(flow)
    {
      hide Flow.Valid;
      flow.LastSeen();
      toDelete' := toDelete;
      if now - flow.lastPacketTime > flowTimeout {
        MarkClosed(key, flow, m, flows.Keys - toDelete - {key});
        toDelete' := toDelete + {key};
      }
    }

    /** First loop of closeIdleFlows: mark the idle flows closed and collect their keys. */
    method MarkIdle(now: Time, ghost m: map<string, Conversation>) returns (toDelete: set<string>)
      requires flows.Keys == m.Keys && forall k <- m :: m[k] != []
      requires Separated() && Table(m)
      modifies flows.Values`state
      ensures Separated()
      ensures toDelete == IdleKeys(m, now, flowTimeout)
      ensures forall k <- toDelete :: flows[k].state == Closed
      ensures forall k <- flows | k !in toDelete :: Shows(flows[k], m[k]) && unchanged(flows[k])
    {
      hide Flow.Valid, Shows;
      toDelete := {};
      var keys := flows.Keys;
      while keys != {}
        invariant HalfMarked(m, now, keys, toDelete)
        invariant forall k <- flows | k !in toDelete :: unchanged(flows[k])
        decreases keys
      {
        var key :| key in keys;
        toDelete := MarkOne(key, flows[key], now, m, keys, toDelete);
        keys := keys - {key};
      }
    }

    /** Marks the idle flows closed and drops them from the table. */
    method CloseIdleFlows(now: Time)
      requires Valid()
      modifies `flows, `run, flows.Values`state
      ensures Valid() && Repr == old(Repr)
      ensures run == old(run) + [Sweep(now)]
      ensures forall k <- old(flows) :: k in flows <==> now - old(flows[k].lastPacketTime) <= flowTimeout
      ensures forall k <- flows :: k in old(flows) && flows[k] == old(flows)[k] && unchanged(flows[k])
      ensures forall k <- old(flows) | k !in flows :: old(flows)[k].state == Closed
    {
      hide FlowKey, U64, Live, Flow.Valid;
      ghost var before := Live(run, flowTimeout);
      forall k | k in flows
        ensures flows[k].lastPacketTime == Last(before[k]).now
      {
        flows[k].LastSeen();
      }
      LiveSweep(run, flowTimeout, now);
      var toDelete := MarkIdle(now, before);
      Delete(toDelete, now, before);
    }

    /** Second loop of closeIdleFlows: deleting a set of keys from the map. */
    method Delete(toDelete: set<string>, ghost now: Time, ghost m: map<string, Conversation>)
      requires Separated() && Totalled() && flows.Keys == m.Keys
      requires forall k <- flows | k !in toDelete :: Shows(flows[k], m[k])
      modifies `flows, `run
      ensures run == old(run) + [Sweep(now)] && Totalled()
      ensures flows == old(flows) - toDelete
      ensures Separated() && Table(m - toDelete)
    {
      hide Flow.Valid, U64, Live, Arrivals, Bytes, Last, FlowKey;
      LiveSweep(run, flowTimeout, now);
      flows := flows - toDelete;
      run := run + [Sweep(now)];
    }

    /** The flows in the table, in an arbitrary order, each once. */
    method GetAllFlows() returns (all: seq<Flow>)
      ensures forall f <- all :: f in flows.Values
      ensures forall k <- flows :: flows[k] in all
      ensures |all| == |flows|
    {
      all := [];
      var keys := flows.Keys;
      while keys != {}
        invariant keys <= flows.Keys
        invariant |all| + |keys| == |flows|
        invariant forall f <- all :: f in flows.Values
        invariant forall k <- flows.Keys - keys :: flows[k] in all
        decreases keys
      {
        var key :| key in keys;
        all := all + [flows[key]];
        keys := keys - {key};
      }
    }

    /** The displayed totals; the drop counter is never written, so the loss rate is always zero. */
    method GetGlobalStats(now: Time) returns (s: GlobalStats)
      requires Valid()
      ensures s.totalPackets == U64(|Arrivals(run)|) && s.totalBytes == U64(Bytes(Arrivals(run)))
      ensures s.totalFlows == U64(|Live(run, flowTimeout)|)
      ensures s.droppedPackets == 0 && s.packetLossRate == 0.0
      ensures s.upstreamTime == (if Arrivals(run) == [] then startTime else Last(Arrivals(run)).now)
      ensures s.currentTime == now
    {
      hide U64, Live;
      var lossRate := 0.0;
      if totalPackets > 0 {
        lossRate := (droppedPackets as real) / ((totalPackets + droppedPackets) as real);
      }
      assert |flows| == |flows.Keys| == |Live(run, flowTimeout).Keys| == |Live(run, flowTimeout)|;
      s := GlobalStats(totalPackets, totalBytes, U64(|flows|), droppedPackets, lossRate, lastUpdated, now);
    }

    /** The packet and byte counters the flows of the table display. */
    ghost function PacketCounts(): map<string, uint64>
      reads `flows, flows.Values
    {
      map k | k in flows :: flows[k].packetCount
    }

    ghost function ByteCounts(): map<string, uint64>
      reads `flows, flows.Values
    {
      map k | k in flows :: flows[k].byteCount
    }

    /** They are the sizes of the live conversations. */
    lemma CountsOfLive()
      requires Valid()
      ensures PacketCounts() == DisplayedBy(Live(run, flowTimeout), Packets)
      ensures ByteCounts() == DisplayedBy(Live(run, flowTimeout), Bytes)
    {
      hide Live, Flow.Valid, U64, Bytes;
      var m := Live(run, flowTimeout);
      forall k | k in flows
        ensures flows[k].packetCount == U64(|m[k]|) && flows[k].byteCount == U64(Bytes(m[k]))
      {
        assert Shows(flows[k], m[k]);
        flows[k].CountersShown();
      }
    }

    /** The tally a flow of the table displays counts the entries of the log it displays, name by name. */
    lemma TallyMatchesLog(k: string, d: Domain)
      requires Valid() && k in flows
      ensures d in flows[k].dnsQueryNames <==> exists q <- flows[k].dnsQueries :: q.domain == d
      ensures CountOf(flows[k].dnsQueryNames, d) == U64(|AskingFor(flows[k].dnsQueries, d)|)
    {
      var f, c := flows[k], Live(run, flowTimeout)[k];
      assert Shows(f, c);
      assert f.DnsView() == DnsTallyOf(c);
      hide Valid, Flow.Valid, DnsTallyOf, Names, AskingFor, U64, CountOf;
      TalliesAgreeWithLog(c, d);
      AskingForCounted(f.dnsQueries, d);
    }

    /**
     * TotalPackets and TotalBytes are the sums of the counters of the flows in the table plus what
     * the flows evicted so far held, modulo 2^64.
     */
    lemma TotalsConserve()
      requires Valid()
      ensures totalPackets == U64(SumOf(PacketCounts()) + Evicted(run, flowTimeout, Packets))
      ensures totalBytes == U64(SumOf(ByteCounts()) + Evicted(run, flowTimeout, Bytes))
    {
      hide Flow.Valid, Live, Evicted, SumOf, U64, Bytes, Arrivals, Shows, PacketCounts, ByteCounts, DisplayedBy;
      CountsOfLive();
      DisplayedConserve(run, flowTimeout);
    }

    /**
     * The state of the table after any run: a key is live iff packets of its conversation arrived
     * since its last eviction, and then the flow shows exactly their summary.
     */
    lemma TableShowsRun(k: string, b: nat)
      requires Valid() && SinceEviction(run, flowTimeout, k, b)
      ensures var c := ArrivalsOf(run[b..], k);
              && (k in flows <==> c != [])
              && (k in flows ==> WellFormed(c) && flows[k].View() == Summarize(c[0], c, packetBufferSize))
    {
      LiveIsSinceEviction(run, flowTimeout, k, b);
      if k in flows {
        LiveWellFormed(run, flowTimeout, k);
        assert Shows(flows[k], Live(run, flowTimeout)[k]);
        flows[k].ViewIsSummary();
      }
    }
  }

  /** The uint64 counters of quantity w, one per conversation. */
  ghost function DisplayedBy(m: map<string, Conversation>, w: Conversation -> nat): map<string, uint64> {
    map k | k in m :: U64(w(m[k]))
  }

  /** Adding up wrapped counters loses nothing modulo 2^64. */
  lemma {:induction false} SumOfDisplayed(m: map<string, Conversation>, w: Conversation -> nat)
    ensures U64(SumOf(DisplayedBy(m, w))) == U64(Total(m, w))
    decreases |m|
  {
    hide Total, SumOf, U64;
    var shown := DisplayedBy(m, w);
    if m == map[] {
      TotalEmpty(w);
      SumEmpty<string>();
      assert shown == map[];
    } else {
      var k :| k in m;
      TotalRemove(m, w, k);
      SumRemove(shown, k);
      assert shown - {k} == DisplayedBy(m - {k}, w);
      SumOfDisplayed(m - {k}, w);
      WrapSum(w(m[k]), Total(m - {k}, w), SumOf(shown - {k}));
    }
  }

  /** What is counted in a run is what the live conversations display plus what was evicted. */
  lemma DisplayedConserve(run: Run, timeout: Time)
    ensures U64(Packets(Arrivals(run))) ==
            U64(SumOf(DisplayedBy(Live(run, timeout), Packets)) + Evicted(run, timeout, Packets))
    ensures U64(Bytes(Arrivals(run))) ==
            U64(SumOf(DisplayedBy(Live(run, timeout), Bytes)) + Evicted(run, timeout, Bytes))
  {
    hide *;
    PacketsAdditive();
    BytesAdditive();
    var m := Live(run, timeout);
    Conservation(run, timeout, Packets);
    Conservation(run, timeout, Bytes);
    SumOfDisplayed(m, Packets);
    SumOfDisplayed(m, Bytes);
    SumModulo(Total(m, Packets), SumOf(DisplayedBy(m, Packets)), Evicted(run, timeout, Packets));
    SumModulo(Total(m, Bytes), SumOf(DisplayedBy(m, Bytes)), Evicted(run, timeout, Bytes));
  }

  lemma SumModulo(x: nat, x': nat, y: nat)
    requires U64(x) == U64(x')
    ensures U64(x + y) == U64(x' + y)
  {
    hide U64;
    U64Add(x, y);
    U64Add(x', y);
  }

  /** The table depends only on the aggregator and on the objects its flows own. */
  twostate lemma TableUntouched(a: FlowAggregator)
    requires old(a.Valid()) && unchanged(a)
    requires forall k <- a.flows, o <- old(a.flows[k].Repr) :: unchanged(o)
    ensures a.Valid()
  {
    hide Flow.Valid, Live, U64;
    assert old(a.Separated());
    forall k | k in a.flows
      ensures a.flows[k].Repr == old(a.flows[k].Repr)
      ensures a.Shows(a.flows[k], Live(a.run, a.flowTimeout)[k])
    {
      assert old(a.Shows(a.flows[k], Live(a.run, a.flowTimeout)[k]));
      assert a.flows[k] in old(a.flows[k].Repr);
      assert unchanged(a.flows[k]);
    }
  }

  lemma LiveArrive(run: Run, timeout: Time, e: Stamped)
    ensures Live(run + [Arrive(FlowKey(e.evt), e)], timeout) ==
            Live(run, timeout)[FlowKey(e.evt) := Get(Live(run, timeout), FlowKey(e.evt)) + [e]]
    ensures Arrivals(run + [Arrive(FlowKey(e.evt), e)]) == Arrivals(run) + [e]
    ensures Bytes(Arrivals(run + [Arrive(FlowKey(e.evt), e)])) == Bytes(Arrivals(run)) + e.evt.len
  {
    FrontLast(run, Arrive(FlowKey(e.evt), e));
    BytesSnoc(Arrivals(run), e);
  }

  lemma LiveSweep(run: Run, timeout: Time, now: Time)
    ensures var m := Live(run, timeout);
            Live(run + [Sweep(now)], timeout) == m - IdleKeys(m, now, timeout)
    ensures Arrivals(run + [Sweep(now)]) == Arrivals(run)
  {
    FrontLast(run, Sweep(now));
  }

  /** The first packet of the conversation e joins carries the key of e. */
  lemma KeyOfFirst(run: Run, timeout: Time, e: Stamped)
    requires Keyed(run)
    ensures FlowKey((Get(Live(run, timeout), FlowKey(e.evt)) + [e])[0].evt) == FlowKey(e.evt)
  {
    hide FlowKey, Live;
    var k := FlowKey(e.evt);
    if k in Live(run, timeout) {
      LiveWellFormed(run, timeout, k);
      assert Live(run, timeout)[k][0] in Live(run, timeout)[k];
    }
  }
}
