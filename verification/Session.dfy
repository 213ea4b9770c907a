/**
 * A whole session: packets, sweeps, refresh ticks and keys in any order, on one aggregator and the
 * dashboard that watches it (internal/tui/dashboard.go, Update; internal/monitor/aggregator.go).
 */
module Session {
  import opened Base
  import opened Packet
  import opened FlowKeys
  import opened Conversations
  import opened Runs
  import opened Flows
  import opened RingBuffers
  import opened Aggregator
  import opened Dashboards

  datatype Happening =
    | PacketArrives(evt: PacketEvent, now: Time)
    | SweepTick(now: Time)
    | RefreshTick
    | PauseKey
    | SortKeyPressed
    | FilterEntered(proto: string)
    | ArrowKey(down: bool)

  /** The critical sections the aggregator executes for a script. */
  function StepsOf(script: seq<Happening>): Run {
    if script == [] then []
    else
      StepsOf(Front(script)) +
      match Last(script)
      case PacketArrives(evt, now) => [Arrive(FlowKey(evt), Stamped(evt, now))]
      case SweepTick(now) => [Sweep(now)]
      case _ => []
  }

  /** Everything the session may touch. */
  ghost predicate Within(d: Dashboard, heap: set<object>)
    reads d, d.aggregator, d.backing, d.allFlows
  {
    && d.size <= d.backing.Length
    && d in heap && d.backing in heap && d.allFlows in heap && d.aggregator in heap
    && d.aggregator.Repr <= heap && d.aggregator.flows.Values <= heap
    && (forall f <- d.Shown() :: f in heap) && (forall f <- d.allFlows[..] :: f in heap)
  }

  // ---------------------------------------------------------- flows that left

  /** The fields a refresh leaves alone, the state aside, are those of the packets f absorbed. */
  ghost predicate Remembers(f: Flow)
    reads f`events, f`firstPacketTime, f`srcPorts, f`topSrcPort, f`dstPorts, f`topDstPort, f`tcpFlags, f`stateChanges
  {
    && f.events != [] && f.first == f.events[0]
    && f.firstPacketTime == f.first.now
    && f.SrcView() == PortUseOf(SrcPorts(f.events))
    && f.DstView() == PortUseOf(DstPorts(f.events))
    && var tcp := TcpLifeOf(f.first, f.events);
    && f.tcpFlags == tcp.tcpFlags && f.stateChanges == tcp.stateChanges
  }

  /** f left the table: it is closed, and its packets are a conversation the run has evicted. */
  ghost predicate Departed(f: Flow, run: Run, timeout: Time)
    reads f
  {
    f.state == Closed && Remembers(f) && WasEvicted(run, timeout, OwnKey(f), f.events)
  }

  /** Every flow the view knows is in the table or has left it. */
  ghost predicate Tracked(d: Dashboard)
    requires d.size <= d.backing.Length
    reads d, d.aggregator, d.backing, d.allFlows, d.Shown(), d.allFlows[..]
  {
    forall f <- d.Shown() + d.allFlows[..] :: Known(f, d.aggregator)
  }

  ghost predicate Known(f: Flow, a: FlowAggregator)
    reads f, a
  {
    f in a.flows.Values || Departed(f, a.run, a.flowTimeout)
  }

  lemma TableRemembers(a: FlowAggregator, k: string)
    requires a.Valid() && k in a.flows
    ensures Remembers(a.flows[k]) && OwnKey(a.flows[k]) == k
    ensures k in Live(a.run, a.flowTimeout) && a.flows[k].events == Live(a.run, a.flowTimeout)[k]
  {
    TableKeysAreOwnKeys(a, k);
    hide OwnKey, Live, PortUseOf, TcpLifeOf, U64, DnsTallyOf;
    assert a.Shows(a.flows[k], Live(a.run, a.flowTimeout)[k]);
    assert a.flows[k].Tallied(a.flows[k].events);
  }

  lemma KeysAreLive(a: FlowAggregator)
    requires a.Valid()
    ensures a.flows.Keys == Live(a.run, a.flowTimeout).Keys
  {
  }

  /** A packet moves no flow out of the table and touches no flow that has left it. */
  method KnownAfterPacket(a: FlowAggregator, evt: PacketEvent, now: Time, ghost fs: set<Flow>)
    requires a.Valid() && forall f <- fs :: Known(f, a)
    modifies a, a.Objects(FlowKey(evt))
    ensures a.Valid() && fresh(a.Repr - old(a.Repr))
    ensures a.run == old(a.run) + [Arrive(FlowKey(evt), Stamped(evt, now))]
    ensures forall f <- fs :: Known(f, a)
  {
    hide OwnKey, FlowKey, FlowAggregator.Valid, WasEvicted, Remembers;
    a.ProcessEvent(evt, now);
    forall f | f in fs
      ensures Known(f, a)
    {
      if f in old(a.flows.Values) {
        var k :| k in old(a.flows) && old(a.flows)[k] == f;
        assert k in a.flows && a.flows[k] == f;
      } else if f !in a.flows.Values {
        assert a.flows[FlowKey(evt)] in a.flows.Values;
        assert unchanged(f);
        EvictedForGood(old(a.run), Arrive(FlowKey(evt), Stamped(evt, now)), a.flowTimeout, OwnKey(f), f.events);
      }
    }
  }

  /** A sweep closes what it evicts and changes nothing else in any flow. */
  method KnownAfterSweep(a: FlowAggregator, now: Time, ghost fs: set<Flow>)
    requires a.Valid() && forall f <- fs :: Known(f, a)
    modifies a`flows, a`run, a.flows.Values`state
    ensures a.Valid() && a.Repr == old(a.Repr)
    ensures a.run == old(a.run) + [Sweep(now)]
    ensures forall f <- fs :: Known(f, a)
  {
    hide OwnKey, FlowAggregator.Valid, WasEvicted, Remembers, Live;
    ghost var before, run := a.flows, a.run;
    forall k | k in before
      ensures Remembers(before[k]) && OwnKey(before[k]) == k
      ensures k in Live(run, a.flowTimeout) && before[k].events == Live(run, a.flowTimeout)[k]
    {
      TableRemembers(a, k);
    }
    a.CloseIdleFlows(now);
    KeysAreLive(a);
    forall f | f in fs
      ensures Known(f, a)
    {
      if f in old(a.flows.Values) {
        var k :| k in old(a.flows) && old(a.flows)[k] == f;
        if k in a.flows {
          assert a.flows[k] == f;
        } else {
          EvictedNow(run, Sweep(now), a.flowTimeout, k);
        }
      } else {
        EvictedForGood(old(a.run), Sweep(now), a.flowTimeout, OwnKey(f), f.events);
      }
    }
  }

  method AggregatorStep(d: Dashboard, h: Happening, ghost heap: set<object>) returns (ghost heap': set<object>)
    requires d.Consistent() && d.aggregator.Valid() && Within(d, heap) && Tracked(d)
    requires h.PacketArrives? || h.SweepTick?
    modifies heap
    ensures d.Consistent() && d.aggregator.Valid() && Within(d, heap') && Tracked(d) && fresh(heap' - heap)
    ensures d.aggregator.run == old(d.aggregator.run) + StepsOf([h])
    ensures unchanged(d) && d.Shown() == old(d.Shown())
  {
    hide DistinctIds, FlowId, FlowKey, FlowAggregator.Valid, Known;
    ghost var flows := set f | f in d.Shown() + d.allFlows[..];
    FlowsAreOwned(d.aggregator);
    if h.PacketArrives? {
      KnownAfterPacket(d.aggregator, h.evt, h.now, flows);
    } else {
      KnownAfterSweep(d.aggregator, h.now, flows);
    }
    FlowsAreOwned(d.aggregator);
    heap' := heap + d.aggregator.Repr;
    OneStep(h);
  }

  lemma OneStep(h: Happening)
    ensures StepsOf([h]) == match h
                            case PacketArrives(evt, now) => [Arrive(FlowKey(evt), Stamped(evt, now))]
                            case SweepTick(now) => [Sweep(now)]
                            case _ => []
  {
    hide FlowKey;
    assert Front([h]) == [];
  }

  lemma FlowsAreOwned(a: FlowAggregator)
    requires a.Valid()
    ensures a.flows.Values <= a.Repr && a in a.Repr
    ensures forall k :: a.Objects(k) <= a.Repr
  {
    OwnedByTable(a);
    hide FlowAggregator.Table, FlowAggregator.Totalled, Flow.Valid;
  }

  method RefreshStep(d: Dashboard, ghost heap: set<object>)
    returns (ghost heap': set<object>, ghost index: map<string, Flow>)
    requires d.Consistent() && d.aggregator.Valid() && Within(d, heap) && Tracked(d)
    modifies heap
    ensures d.Consistent() && d.aggregator.Valid() && Within(d, heap') && Tracked(d) && fresh(heap' - heap)
    ensures d.aggregator.run == old(d.aggregator.run)
    ensures d.paused == old(d.paused) && d.sortBy == old(d.sortBy) && d.filterProto == old(d.filterProto)
    ensures !d.paused ==> d.InSync(index) && Indexes(index, d.aggregator.flows) && d.Sorted()
  {
    hide DistinctIds, FlowId, FlowAggregator.Valid, Indexes, Reconciled, OnlyRefreshed, Dashboard.InSync,
         Dashboard.Sorted, Dashboard.Follows, Dashboard.TakePicture, Dashboard.Consistent, Departed, UncopiedOf;
    index := d.UpdateFlows();
    heap' := heap + {d.backing, d.allFlows};
    forall f | f in d.Shown() + d.allFlows[..]
      ensures f in heap' && (f in d.aggregator.flows.Values || f in old(d.Shown() + d.allFlows[..]))
    {
      assert f in d.allFlows[..] ==> f in multiset(d.allFlows[..]);
    }
    TrackKept(d);
  }

  /** A refresh writes none of the fields by which a flow is known. */
  twostate lemma TrackKept(d: Dashboard)
    requires old(d.size) <= old(d.backing.Length) && d.size <= d.backing.Length && old(Tracked(d))
    requires d.aggregator.flows == old(d.aggregator.flows) && d.aggregator.run == old(d.aggregator.run)
    requires forall f <- old(d.Shown() + d.allFlows[..]) :: UncopiedOf(f) == old(UncopiedOf(f))
    requires forall f <- d.Shown() + d.allFlows[..] ::
               f in d.aggregator.flows.Values || f in old(d.Shown() + d.allFlows[..])
    ensures Tracked(d)
  {
    hide UncopiedOf, Departed;
    forall f | f in d.Shown() + d.allFlows[..]
      ensures Known(f, d.aggregator)
    {
      if f !in d.aggregator.flows.Values {
        assert old(Known(f, d.aggregator));
        StillDeparted(f, d.aggregator.run, d.aggregator.flowTimeout);
      }
    }
  }

  twostate lemma StillDeparted(f: Flow, new run: Run, new timeout: Time)
    requires old(Departed(f, run, timeout)) && UncopiedOf(f) == old(UncopiedOf(f))
    ensures Departed(f, run, timeout)
  {
    hide OwnKey, WasEvicted, PortUseOf, TcpLifeOf;
  }

  predicate IsKey(h: Happening) {
    h.PauseKey? || h.SortKeyPressed? || h.FilterEntered? || h.ArrowKey?
  }

  /** The key handlers: which fields of the view each key changes. */
  method PressKey(d: Dashboard, h: Happening)
    requires d.Consistent() && IsKey(h)
    modifies d, d.backing, d.allFlows
    ensures d.Consistent() && d.allFlows == old(d.allFlows)
    ensures d.backing == old(d.backing) || d.backing == d.allFlows || fresh(d.backing)
    ensures forall f <- d.allFlows[..] :: f in old(d.allFlows[..])
    ensures forall f <- d.Shown() :: f in old(d.Shown()) || f in old(d.allFlows[..])
    ensures d.paused == (if h.PauseKey? then !old(d.paused) else old(d.paused))
    ensures d.sortBy == if !h.SortKeyPressed? then old(d.sortBy) else if old(d.sortBy) == ByBytes then ByPackets
                        else if old(d.sortBy) == ByPackets then ByDuration
                        else if old(d.sortBy) == ByDuration then ByLatest else ByBytes
    ensures d.filterProto == if h.FilterEntered? then h.proto else old(d.filterProto)
    ensures h.ArrowKey? ==>
              d.selectedFlow == if h.down && old(d.selectedFlow) + 1 < old(d.size) then old(d.selectedFlow) + 1
                                else if !h.down && old(d.selectedFlow) > 0 then old(d.selectedFlow) - 1
                                else old(d.selectedFlow)
    ensures h.SortKeyPressed? || h.FilterEntered? ==> d.selectedFlow == 0 && d.selectedFlowId == "" && d.Sorted()
    ensures h.SortKeyPressed? ==> multiset(d.Shown()) == multiset(old(d.Shown()))
    ensures h.FilterEntered? ==>
              forall f :: f in d.Shown() <==> f in old(d.allFlows[..]) && (h.proto == "" || f.protocol == h.proto)
    ensures h.PauseKey? || h.ArrowKey? ==> d.Shown() == old(d.Shown())
  {
    hide DistinctIds, FlowId, Dashboard.Consistent, Dashboard.Sorted, OfProtocol;
    ghost var all, rows := d.allFlows[..], d.Shown();
    match h {
      case PauseKey => d.TogglePause();
      case ArrowKey(down) => d.MoveSelection(down);
      case SortKeyPressed =>
        d.CycleSort();
        PermutationKeepsIds(rows, d.Shown());
      case FilterEntered(proto) => d.EnterFilter(proto);
    }
    PermutationKeepsIds(all, d.allFlows[..]);
  }

  /** A key changes the view only; its rows stay among the flows the view already knows. */
  method KeyStep(d: Dashboard, h: Happening, ghost heap: set<object>) returns (ghost heap': set<object>)
    requires d.Consistent() && d.aggregator.Valid() && Within(d, heap) && Tracked(d) && IsKey(h)
    modifies d, d.backing, d.allFlows
    ensures d.Consistent() && d.aggregator.Valid() && Within(d, heap') && Tracked(d) && fresh(heap' - heap)
    ensures unchanged(d.aggregator)
    ensures d.paused == (if h.PauseKey? then !old(d.paused) else old(d.paused))
    ensures d.sortBy == if !h.SortKeyPressed? then old(d.sortBy) else if old(d.sortBy) == ByBytes then ByPackets
                        else if old(d.sortBy) == ByPackets then ByDuration
                        else if old(d.sortBy) == ByDuration then ByLatest else ByBytes
    ensures d.filterProto == if h.FilterEntered? then h.proto else old(d.filterProto)
    ensures h.ArrowKey? ==>
              d.selectedFlow == if h.down && old(d.selectedFlow) + 1 < old(d.size) then old(d.selectedFlow) + 1
                                else if !h.down && old(d.selectedFlow) > 0 then old(d.selectedFlow) - 1
                                else old(d.selectedFlow)
    ensures h.SortKeyPressed? || h.FilterEntered? ==> d.selectedFlow == 0 && d.selectedFlowId == "" && d.Sorted()
    ensures h.SortKeyPressed? ==> multiset(d.Shown()) == multiset(old(d.Shown()))
    ensures h.FilterEntered? ==>
              forall f :: f in d.Shown() <==> f in old(d.allFlows[..]) && (h.proto == "" || f.protocol == h.proto)
    ensures h.PauseKey? || h.ArrowKey? ==> d.Shown() == old(d.Shown())
  {
    hide DistinctIds, FlowId, FlowAggregator.Valid, Dashboard.Consistent, Dashboard.Sorted, OfProtocol;
    d.ConsistentIsValid();
    PressKey(d, h);
    heap' := heap + {d.backing};
  }

  /** A new aggregator and a new dashboard on it: the beginning of every session. */
  method Start(flowTimeout: Time, packetBufferSize: int, now: Time) returns (d: Dashboard, ghost heap: set<object>)
    ensures d.Consistent() && d.aggregator.Valid() && Within(d, heap) && Tracked(d) && fresh(heap)
    ensures d.aggregator.run == [] && d.aggregator.flowTimeout == flowTimeout && !d.paused
  {
    hide DistinctIds, FlowId, Dashboard.Consistent, FlowAggregator.Valid;
    var a := new FlowAggregator(flowTimeout, packetBufferSize, now);
    d := new Dashboard(a);
    FlowsAreOwned(a);
    heap := a.Repr + {d, d.backing, d.allFlows};
  }

  lemma WithinHeap(d: Dashboard, heap: set<object>)
    requires Within(d, heap)
    ensures d in heap && d.backing in heap && d.allFlows in heap
  {
  }

  /** One happening, whatever it is. */
  method Step(d: Dashboard, h: Happening, ghost heap: set<object>) returns (ghost heap': set<object>)
    requires d.Consistent() && d.aggregator.Valid() && Within(d, heap) && Tracked(d)
    modifies heap
    ensures d.Consistent() && d.aggregator.Valid() && Within(d, heap') && Tracked(d) && fresh(heap' - heap)
    ensures d.aggregator.run == old(d.aggregator.run) + StepsOf([h])
    ensures d.paused == (if h.PauseKey? then !old(d.paused) else old(d.paused))
    ensures d.sortBy == if !h.SortKeyPressed? then old(d.sortBy) else if old(d.sortBy) == ByBytes then ByPackets
                        else if old(d.sortBy) == ByPackets then ByDuration
                        else if old(d.sortBy) == ByDuration then ByLatest else ByBytes
    ensures d.filterProto == if h.FilterEntered? then h.proto else old(d.filterProto)
    ensures h.ArrowKey? ==>
              d.selectedFlow == if h.down && old(d.selectedFlow) + 1 < old(d.size) then old(d.selectedFlow) + 1
                                else if !h.down && old(d.selectedFlow) > 0 then old(d.selectedFlow) - 1
                                else old(d.selectedFlow)
    ensures h.SortKeyPressed? || h.FilterEntered? ==> d.selectedFlow == 0 && d.selectedFlowId == "" && d.Sorted()
    ensures h.SortKeyPressed? ==> multiset(d.Shown()) == multiset(old(d.Shown()))
    ensures h.FilterEntered? ==>
              forall f :: f in d.Shown() <==> f in old(d.allFlows[..]) && (h.proto == "" || f.protocol == h.proto)
    ensures h.RefreshTick? && !d.paused ==> d.Sorted() && ViewShowsRun(d)
    ensures !h.RefreshTick? && !h.SortKeyPressed? && !h.FilterEntered? ==> d.Shown() == old(d.Shown())
  {
    hide DistinctIds, FlowId, FlowAggregator.Valid, Dashboard.Consistent, Dashboard.Sorted, ViewShowsRun, Tracked,
         Within, Dashboard.InSync, Indexes;
    OneStep(h);
    if h.PacketArrives? || h.SweepTick? {
      heap' := AggregatorStep(d, h, heap);
    } else if h.RefreshTick? {
      ghost var index;
      heap', index := RefreshStep(d, heap);
      if !d.paused {
        EveryKey(d, index);
      }
    } else {
      WithinHeap(d, heap);
      heap' := KeyStep(d, h, heap);
    }
  }

  /**
   * Any script whatever keeps the view consistent and the table the one its run leaves alive, so
   * a refresh at its end again shows exactly the live conversations.
   */
  method RunSession(d: Dashboard, script: seq<Happening>, ghost heap: set<object>) returns (ghost heap': set<object>)
    requires d.Consistent() && d.aggregator.Valid() && Within(d, heap) && Tracked(d)
    modifies heap
    ensures d.Consistent() && d.aggregator.Valid() && Within(d, heap') && Tracked(d) && fresh(heap' - heap)
    ensures d.aggregator.run == old(d.aggregator.run) + StepsOf(script)
  {
    hide DistinctIds, FlowId, FlowKey, FlowAggregator.Valid, Dashboard.Consistent, Within;
    heap' := heap;
    ghost var run := d.aggregator.run;
    var i := 0;
    while i < |script|
      invariant 0 <= i <= |script|
      invariant d.Consistent() && d.aggregator.Valid() && Within(d, heap') && Tracked(d) && fresh(heap' - heap)
      invariant d.aggregator.run == run + StepsOf(script[..i])
    {
      assert script[..i + 1] == script[..i] + [script[i]];
      FrontLast(script[..i], script[i]);
      OneStep(script[i]);
      heap' := Step(d, script[i], heap');
      i := i + 1;
    }
    assert script[..i] == script;
  }

  /** The addresses, the protocol and the copied fields of a row are those of the summary of a conversation. */
  ghost predicate ShowsCopied(f: Flow, view: FlowView)
    reads f, f.packetHistory
  {
    && f.srcIP == view.srcIP && f.dstIP == view.dstIP && f.protocol == view.protocol
    && f.byteCount == view.counters.byteCount && f.packetCount == view.counters.packetCount
    && f.forwardBytes == view.counters.forwardBytes && f.reverseBytes == view.counters.reverseBytes
    && f.forwardPackets == view.counters.forwardPackets && f.reversePackets == view.counters.reversePackets
    && f.lastPacketTime == view.counters.lastPacketTime
    && f.DnsView() == view.dns
    && NonNil(LastN(f.packetHistory.added, f.packetHistory.capacity)) == view.history
  }

  ghost predicate ShowsArrivals(f: Flow, c: Conversation, capacity: nat)
    reads f, f.packetHistory
  {
    c != [] && ShowsCopied(f, Summarize(c[0], c, capacity))
  }

  /** Conversation c has no row when it is empty, and else one row, which shows its summary. */
  ghost predicate KeyShown(rows: seq<Flow>, k: string, c: Conversation, capacity: nat)
    reads rows, set f <- rows :: f.packetHistory
  {
    && (c != [] <==> exists f :: f in rows && OwnKey(f) == k)
    && (forall f, g | f in rows && g in rows && OwnKey(f) == k == OwnKey(g) :: f == g)
    && (forall f <- rows | OwnKey(f) == k :: ShowsArrivals(f, c, capacity))
  }

  /** What the view shows is determined by the run: for every key, its packets since its last eviction. */
  ghost predicate ViewShowsRun(d: Dashboard)
    requires d.size <= d.backing.Length
    reads d, d.aggregator, d.backing, d.Shown(), set f <- d.Shown() :: f.packetHistory
  {
    forall k, b: nat | SinceEviction(d.aggregator.run, d.aggregator.flowTimeout, k, b) ::
      KeyShown(d.Shown(), k, ArrivalsOf(d.aggregator.run[b..], k), d.aggregator.packetBufferSize)
  }

  /** A row of a refreshed view carries the key of a live flow and that flow's statistics. */
  lemma RowIsLive(d: Dashboard, index: map<string, Flow>, f: Flow)
    requires d.aggregator.Valid() && d.size <= d.backing.Length
    requires d.InSync(index) && Indexes(index, d.aggregator.flows) && f in d.Shown()
    ensures OwnKey(f) in d.aggregator.flows
    ensures var live := d.aggregator.flows[OwnKey(f)];
            FlowId(f) == FlowId(live) && ShowsCopied(f, live.View())
  {
    hide FlowId, OwnKey, StatsOf, FlowAggregator.Valid, DistinctIds;
    assert Refreshed(f, index);
    var g := index[FlowId(f)];
    SameIdSameKey(f, g);
    var k :| k in d.aggregator.flows && d.aggregator.flows[k] == g;
    TableKeysAreOwnKeys(d.aggregator, k);
    CopiedFromView(f, g);
  }

  /** Every live conversation has a row. */
  lemma LiveHasRow(d: Dashboard, index: map<string, Flow>, k: string)
    requires d.aggregator.Valid() && d.size <= d.backing.Length
    requires d.InSync(index) && Indexes(index, d.aggregator.flows) && k in d.aggregator.flows
    ensures exists f :: f in d.Shown() && OwnKey(f) == k
  {
    hide FlowId, OwnKey, StatsOf, FlowAggregator.Valid, DistinctIds, Refreshed;
    var live := d.aggregator.flows[k];
    TableKeysAreOwnKeys(d.aggregator, k);
    assert FlowId(live) in Ids(d.Shown());
    var f :| f in d.Shown() && FlowId(f) == FlowId(live);
    SameIdSameKey(f, live);
  }

  /** No conversation has two rows. */
  lemma OneRowOnly(d: Dashboard, index: map<string, Flow>, f: Flow, g: Flow)
    requires d.aggregator.Valid() && d.size <= d.backing.Length
    requires d.InSync(index) && Indexes(index, d.aggregator.flows)
    requires f in d.Shown() && g in d.Shown() && OwnKey(f) == OwnKey(g)
    ensures f == g
  {
    hide FlowId, OwnKey, StatsOf, FlowAggregator.Valid, Indexes, Refreshed, ShowsCopied;
    RowIsLive(d, index, f);
    RowIsLive(d, index, g);
  }

  /** A row shows the summary of its key's packets since the last eviction, of which there are some. */
  lemma RowShowsRun(d: Dashboard, index: map<string, Flow>, f: Flow, k: string, b: nat)
    requires d.aggregator.Valid() && d.size <= d.backing.Length
    requires d.InSync(index) && Indexes(index, d.aggregator.flows)
    requires SinceEviction(d.aggregator.run, d.aggregator.flowTimeout, k, b)
    requires f in d.Shown() && OwnKey(f) == k
    ensures ShowsArrivals(f, ArrivalsOf(d.aggregator.run[b..], k), d.aggregator.packetBufferSize)
  {
    hide FlowId, OwnKey, FlowAggregator.Valid, Summarize, ArrivalsOf, Indexes, Dashboard.InSync, ShowsCopied,
         WellFormed;
    RowIsLive(d, index, f);
    d.aggregator.TableShowsRun(k, b);
  }

  /** A key with packets since its last eviction has a row. */
  lemma ArrivalsHaveRow(d: Dashboard, index: map<string, Flow>, k: string, b: nat)
    requires d.aggregator.Valid() && d.size <= d.backing.Length
    requires d.InSync(index) && Indexes(index, d.aggregator.flows)
    requires SinceEviction(d.aggregator.run, d.aggregator.flowTimeout, k, b)
    requires ArrivalsOf(d.aggregator.run[b..], k) != []
    ensures exists f :: f in d.Shown() && OwnKey(f) == k
  {
    hide FlowId, OwnKey, FlowAggregator.Valid, Summarize, ArrivalsOf, Indexes, Dashboard.InSync, WellFormed;
    d.aggregator.TableShowsRun(k, b);
    LiveHasRow(d, index, k);
  }

  /**
   * A refreshed view against the packets of the whole run: a key has a row exactly when packets of
   * it arrived since its last eviction, it has one row only, and that row shows their summary.
   */
  lemma RowsShowRun(d: Dashboard, index: map<string, Flow>, k: string, b: nat)
    requires d.aggregator.Valid() && d.size <= d.backing.Length
    requires d.InSync(index) && Indexes(index, d.aggregator.flows)
    requires SinceEviction(d.aggregator.run, d.aggregator.flowTimeout, k, b)
    ensures KeyShown(d.Shown(), k, ArrivalsOf(d.aggregator.run[b..], k), d.aggregator.packetBufferSize)
  {
    hide FlowId, OwnKey, FlowAggregator.Valid, Summarize, ArrivalsOf, Indexes, Dashboard.InSync, ShowsCopied;
    var rows, c := d.Shown(), ArrivalsOf(d.aggregator.run[b..], k);
    if c != [] {
      ArrivalsHaveRow(d, index, k, b);
    }
    forall f | f in rows && OwnKey(f) == k
      ensures ShowsArrivals(f, c, d.aggregator.packetBufferSize)
    {
      RowShowsRun(d, index, f, k, b);
    }
    forall f, g | f in rows && g in rows && OwnKey(f) == k == OwnKey(g)
      ensures f == g
    {
      OneRowOnly(d, index, f, g);
    }
  }

  lemma CopiedFromView(f: Flow, live: Flow)
    requires FlowId(f) == FlowId(live) && StatsOf(f) == StatsOf(live)
    ensures ShowsCopied(f, live.View())
  {
    IdDeterminesFields(f, live);
    hide FlowId;
  }

  lemma EveryKey(d: Dashboard, index: map<string, Flow>)
    requires d.aggregator.Valid() && d.size <= d.backing.Length
    requires d.InSync(index) && Indexes(index, d.aggregator.flows)
    ensures ViewShowsRun(d)
  {
    hide DistinctIds, FlowId, FlowAggregator.Valid, Indexes, Dashboard.InSync, KeyShown, ArrivalsOf;
    forall k, b: nat | SinceEviction(d.aggregator.run, d.aggregator.flowTimeout, k, b)
      ensures KeyShown(d.Shown(), k, ArrivalsOf(d.aggregator.run[b..], k), d.aggregator.packetBufferSize)
    {
      RowsShowRun(d, index, k, b);
    }
  }

  // -------------------------------------------------------------- stale rows

  /** No flow in the table shows the state "closed". */
  lemma TableNotClosed(a: FlowAggregator, k: string)
    requires a.Valid() && k in a.flows
    ensures a.flows[k].state != Closed
  {
    hide FlowKey, Live, PortUseOf, CountersOf, DnsTallyOf, Changes, U64;
    assert a.Shows(a.flows[k], Live(a.run, a.flowTimeout)[k]);
    assert a.flows[k].TcpView() == TcpLifeOf(a.flows[k].first, a.flows[k].events);
  }

  /**
   * A row is wholly up to date exactly when it is the flow of the table itself, which is the case
   * exactly when it does not say "closed"; any other row is a flow that was evicted earlier.
   */
  ghost predicate UpToDateUnlessClosed(f: Flow, live: Flow, run: Run, timeout: Time)
    reads f, f.packetHistory, live, live.packetHistory
  {
    && (f.View() == live.View() <==> f.state != Closed)
    && (f == live <==> f.state != Closed)
    && (f.state == Closed ==> Departed(f, run, timeout))
  }

  lemma SameStats(f: Flow, g: Flow)
    requires StatsOf(f) == StatsOf(g)
    ensures f.byteCount == g.byteCount && f.packetCount == g.packetCount
    ensures f.forwardBytes == g.forwardBytes && f.reverseBytes == g.reverseBytes
    ensures f.forwardPackets == g.forwardPackets && f.reversePackets == g.reversePackets
    ensures f.lastPacketTime == g.lastPacketTime && f.packetHistory == g.packetHistory
    ensures f.dnsQueries == g.dnsQueries && f.dnsQueryNames == g.dnsQueryNames
    ensures f.dnsFailures == g.dnsFailures && f.dnsLastQuery == g.dnsLastQuery
  {
  }

  /** A refreshed row shows live statistics; the rest of it is up to date unless it says "closed". */
  lemma StaleRowIff(d: Dashboard, index: map<string, Flow>, f: Flow)
    requires d.aggregator.Valid() && d.size <= d.backing.Length && Tracked(d)
    requires d.InSync(index) && Indexes(index, d.aggregator.flows) && f in d.Shown()
    ensures OwnKey(f) in d.aggregator.flows
    ensures var live := d.aggregator.flows[OwnKey(f)];
            && FlowId(f) == FlowId(live) && StatsOf(f) == StatsOf(live)
            && f.byteCount == live.byteCount && f.packetCount == live.packetCount
            && f.forwardBytes == live.forwardBytes && f.reverseBytes == live.reverseBytes
            && f.forwardPackets == live.forwardPackets && f.reversePackets == live.reversePackets
            && f.lastPacketTime == live.lastPacketTime && f.packetHistory == live.packetHistory
            && f.dnsQueries == live.dnsQueries && f.dnsQueryNames == live.dnsQueryNames
            && f.dnsFailures == live.dnsFailures && f.dnsLastQuery == live.dnsLastQuery
            && UpToDateUnlessClosed(f, live, d.aggregator.run, d.aggregator.flowTimeout)
  {
    hide FlowId, OwnKey, StatsOf, FlowAggregator.Valid, DistinctIds, Remembers, WasEvicted, ShowsCopied;
    assert Refreshed(f, index) && Known(f, d.aggregator);
    var g := index[FlowId(f)];
    SameStats(f, g);
    SameIdSameKey(f, g);
    var k :| k in d.aggregator.flows && d.aggregator.flows[k] == g;
    TableKeysAreOwnKeys(d.aggregator, k);
    TableNotClosed(d.aggregator, k);
    if f in d.aggregator.flows.Values {
      var k' :| k' in d.aggregator.flows && d.aggregator.flows[k'] == f;
      TableKeysAreOwnKeys(d.aggregator, k');
    }
  }

  /** A script and then a refresh: the view is the one the whole run calls for. */
  method RefreshAfter(d: Dashboard, script: seq<Happening>, ghost heap: set<object>)
    requires d.Consistent() && d.aggregator.Valid() && Within(d, heap) && Tracked(d)
    modifies heap
    ensures d.Consistent() && d.aggregator.Valid()
    ensures d.aggregator.run == old(d.aggregator.run) + StepsOf(script)
    ensures Tracked(d)
    ensures !d.paused ==> d.Sorted() && ViewShowsRun(d)
    ensures !d.paused ==> forall i, j | 0 <= i < j < d.size ::
              && (d.sortBy == ByBytes ==> d.backing[i].byteCount >= d.backing[j].byteCount)
              && (d.sortBy == ByPackets ==> d.backing[i].packetCount >= d.backing[j].packetCount)
              && (d.sortBy == ByLatest ==> d.backing[i].lastPacketTime >= d.backing[j].lastPacketTime)
              && (d.sortBy == ByDuration ==>
                    d.backing[i].lastPacketTime - d.backing[i].firstPacketTime >=
                    d.backing[j].lastPacketTime - d.backing[j].firstPacketTime)
    ensures !d.paused ==> forall f <- d.Shown() ::
                            && OwnKey(f) in d.aggregator.flows
                            && UpToDateUnlessClosed(f, d.aggregator.flows[OwnKey(f)],
                                                    d.aggregator.run, d.aggregator.flowTimeout)
  {
    hide DistinctIds, FlowId, FlowAggregator.Valid, Indexes, Dashboard.InSync, Dashboard.Consistent, Dashboard.Sorted,
         ViewShowsRun, OwnKey, UpToDateUnlessClosed, Tracked, Within;
    ghost var heap' := RunSession(d, script, heap);
    ghost var index;
    heap', index := RefreshStep(d, heap');
    if !d.paused {
      d.SortedSpelled();
      EveryKey(d, index);
      forall f | f in d.Shown()
        ensures OwnKey(f) in d.aggregator.flows
        ensures UpToDateUnlessClosed(f, d.aggregator.flows[OwnKey(f)], d.aggregator.run, d.aggregator.flowTimeout)
      {
        StaleRowIff(d, index, f);
      }
    }
  }

  /** A UDP packet over IPv4. */
  const UDP_EVENT: PacketEvent := PacketEvent(0, 1, 2, 5000, 53, 17, 60, 0, 0, [])

  /** A packet that reaches an empty table: its flow is all the table holds. */
  lemma FirstPacket(a: FlowAggregator, earlier: Run, evt: PacketEvent, now: Time)
    requires a.Valid() && Live(earlier, a.flowTimeout) == map[]
    requires a.run == earlier + [Arrive(FlowKey(evt), Stamped(evt, now))]
    ensures a.flows.Keys == {FlowKey(evt)}
    ensures var f := a.flows[FlowKey(evt)];
            && f.srcIP == IPFromUint32(evt.saddr) && f.dstIP == IPFromUint32(evt.daddr)
            && f.protocol == ProtocolName(evt.protocol)
            && f.packetCount == 1 && f.firstPacketTime == now && f.lastPacketTime == now
            && f.topSrcPort == evt.sport
  {
    hide FlowKey, IPFromUint32, ProtocolName, Live, Flow.Valid;
    var key, e := FlowKey(evt), Stamped(evt, now);
    LiveArrive(earlier, a.flowTimeout, e);
    assert Get(map[], key) + [e] == [e];
    assert Live(a.run, a.flowTimeout) == map[key := [e]];
    assert a.Shows(a.flows[key], [e]);
    SinglePacket(a.flows[key], e);
  }

  lemma SinglePacket(f: Flow, e: Stamped)
    requires f.Valid() && f.events == [e] && f.first == e
    ensures f.srcIP == IPFromUint32(e.evt.saddr) && f.dstIP == IPFromUint32(e.evt.daddr)
    ensures f.protocol == ProtocolName(e.evt.protocol)
    ensures f.packetCount == 1 && f.firstPacketTime == e.now && f.lastPacketTime == e.now
    ensures f.topSrcPort == e.evt.sport
  {
    hide FlowKey, IPFromUint32, ProtocolName, Travelling, TcpLifeOf, DnsTallyOf, Records, Bytes;
    assert f.CountersView() == CountersOf(e, [e]) && f.SrcView() == PortUseOf(SrcPorts([e]));
    assert SrcPorts([e]) == [e.evt.sport];
  }

  /** After this one packet the table holds its conversation and nothing else. */
  lemma UdpOnly(a: FlowAggregator, now: Time)
    requires a.Valid() && a.run == [Arrive(FlowKey(UDP_EVENT), Stamped(UDP_EVENT, now))]
    ensures a.flows.Keys == {FlowKey(UDP_EVENT)}
    ensures var f := a.flows[FlowKey(UDP_EVENT)];
            && f.srcIP == IPFromUint32(1) && f.dstIP == IPFromUint32(2) && f.protocol == "udp"
            && f.firstPacketTime == now && f.lastPacketTime == now && f.topSrcPort == 5000
  {
    hide FlowKey, IPFromUint32, FlowAggregator.Valid;
    assert [] + a.run == a.run;
    FirstPacket(a, [], UDP_EVENT, now);
  }

  lemma NoTcp(all: seq<Flow>, shown: seq<Flow>)
    requires forall f <- all :: f.protocol == "udp"
    requires multiset(shown) == multiset(OfProtocol(all, "tcp"))
    ensures shown == []
  {
    hide OfProtocol, FlowId;
    assert shown == [] || shown[0] in shown;
    OfProtocolMembers(all, "tcp");
    PermutationKeepsIds(shown, OfProtocol(all, "tcp"));
    assert "udp"[0] != "tcp"[0];
  }

  lemma UdpRow(d: Dashboard, index: map<string, Flow>)
    requires d.aggregator.Valid() && d.size <= d.backing.Length
    requires d.InSync(index) && Indexes(index, d.aggregator.flows)
    requires d.aggregator.flows.Keys == {FlowKey(UDP_EVENT)}
    requires d.aggregator.flows[FlowKey(UDP_EVENT)].protocol == "udp"
    ensures d.size > 0 && forall f <- d.Shown() :: f.protocol == "udp"
  {
    hide FlowId, OwnKey, FlowKey, FlowAggregator.Valid, Indexes, Dashboard.InSync;
    LiveHasRow(d, index, FlowKey(UDP_EVENT));
    FilterSurvivesRefreshIff(d, index, "udp");
  }

  /** A dashboard that has shown this one conversation. */
  method WatchUdp(now: Time) returns (d: Dashboard)
    ensures fresh(d) && fresh(d.backing) && fresh(d.allFlows) && fresh(d.aggregator.Repr)
    ensures d.Consistent() && d.aggregator.Valid() && !d.paused && d.aggregator.flowTimeout == 60
    ensures d.aggregator.run == [Arrive(FlowKey(UDP_EVENT), Stamped(UDP_EVENT, now))]
    ensures d.size > 0 && forall f <- d.Shown() :: f in d.aggregator.flows.Values && fresh(f)
    ensures forall f <- d.allFlows[..] :: f in d.aggregator.flows.Values
  {
    hide DistinctIds, FlowId, FlowKey, Indexes, Reconciled, OnlyRefreshed, Dashboard.Follows, Dashboard.TakePicture,
         FlowAggregator.Valid, Dashboard.InSync, Dashboard.Sorted, Dashboard.Consistent;
    var a := new FlowAggregator(60, 1000, now);
    FlowsAreOwned(a);
    a.ProcessEvent(UDP_EVENT, now);
    d := new Dashboard(a);
    UdpOnly(a, now);
    d.ConsistentIsValid();
    ghost var index := d.UpdateFlows();
    assert forall f <- d.allFlows[..] :: f in multiset(d.allFlows[..]);
    UdpRow(d, index);
    FlowsAreOwned(a);
  }

  /** The filter "tcp" hides the only row, a UDP one; the next refresh shows it again. */
  method FilterLost(now: Time) returns (d: Dashboard, filtered: seq<Flow>)
    ensures fresh(d) && d.Consistent() && d.filterProto == "tcp" && filtered == []
    ensures d.size > 0 && forall f <- d.Shown() :: f.protocol == "udp"
  {
    hide DistinctIds, FlowId, FlowKey, Indexes, Reconciled, OnlyRefreshed, Dashboard.Follows, Dashboard.TakePicture,
         FlowAggregator.Valid, Dashboard.InSync, AmongRows, Dashboard.Sorted, Dashboard.Consistent, OfProtocol;
    d := WatchUdp(now);
    UdpOnly(d.aggregator, now);
    ghost var all := d.allFlows[..];
    d.ConsistentIsValid();
    d.EnterFilter("tcp");
    filtered := d.backing[..d.size];
    NoTcp(all, filtered);
    d.ConsistentIsValid();
    ghost var index := d.UpdateFlows();
    UdpRow(d, index);
  }

  /** The same conversation, a minute later and from another port. */
  const LATER_EVENT: PacketEvent := UDP_EVENT.(sport := 6000)

  /** A row whose id is live stays on display. */
  lemma LiveRowStays(d: Dashboard, before: Picture, index: map<string, Flow>, row: Flow)
    requires d.size <= d.backing.Length && |before.rows| == |before.stats| == |before.uncopied|
    requires d.Reconciles(before, index) && row in before.rows && FlowId(row) in index
    ensures row in d.Shown()
  {
    hide FlowId, Indexes, Dashboard.InSync, Reconciled, OnlyRefreshed, Dashboard.Sorted, Dashboard.Follows;
    ReconciledMembers(before.rows, d.allFlows[..], index.Keys);
    PermutationKeepsIds(d.Shown(), Reconciled(before.rows, d.allFlows[..], index.Keys));
  }

  /** The conversation is evicted while its row is on display, and comes back before the next refresh. */
  method EvictAndReturn(d: Dashboard, now: Time, row: Flow) returns (live: Flow)
    requires d.Consistent() && d.aggregator.Valid() && d.aggregator.flowTimeout == 60
    requires d.aggregator.run == [Arrive(FlowKey(UDP_EVENT), Stamped(UDP_EVENT, now))]
    requires row in d.aggregator.flows.Values
    modifies d.aggregator, d.aggregator.Repr
    ensures d.Consistent() && d.aggregator.Valid()
    ensures row.state == Closed && row.firstPacketTime == now && row.topSrcPort == 5000
    ensures row.srcIP == live.srcIP && row.dstIP == live.dstIP && row.protocol == live.protocol
    ensures d.aggregator.flows.Values == {live}
    ensures live.firstPacketTime == now + 61 && live.topSrcPort == 6000
  {
    hide DistinctIds, FlowId, FlowKey, FlowAggregator.Valid, IPFromUint32, Live;
    var a := d.aggregator;
    UdpOnly(a, now);
    FlowsAreOwned(a);
    a.CloseIdleFlows(now + 61);
    ghost var earlier := a.run;
    KeysAreLive(a);
    FlowsAreOwned(a);
    a.ProcessEvent(LATER_EVENT, now + 61);
    FirstPacket(a, earlier, LATER_EVENT, now + 61);
    live := a.flows[FlowKey(LATER_EVENT)];
  }

  lemma SameFieldsSameId(f: Flow, g: Flow)
    requires f.srcIP == g.srcIP && f.dstIP == g.dstIP && f.protocol == g.protocol
    ensures FlowId(f) == FlowId(g)
  {
  }

  lemma StaleShown(d: Dashboard, before: Picture, index: map<string, Flow>, row: Flow, live: Flow)
    requires d.size <= d.backing.Length && |before.rows| == |before.stats| == |before.uncopied|
    requires d.aggregator.Valid() && d.aggregator.flows.Values == {live} && d.Reconciles(before, index)
    requires row in before.rows && FlowId(row) == FlowId(live)
    ensures row in d.Shown() && StatsOf(row) == StatsOf(live) && live.state != Closed
  {
    hide FlowId, StatsOf, FlowAggregator.Valid, OnlyRefreshed, Dashboard.Sorted, Dashboard.Follows, Reconciled,
         DistinctIds;
    var k :| k in d.aggregator.flows && d.aggregator.flows[k] == live;
    TableNotClosed(d.aggregator, k);
    LiveRowStays(d, before, index, row);
    assert Refreshed(row, index);
  }

  /** The row that results: live statistics under the state, first time and port of the evicted flow. */
  method StaleRow(now: Time) returns (d: Dashboard, row: Flow, live: Flow)
    ensures d.Consistent() && d.aggregator.Valid() && row in d.Shown() && d.aggregator.flows.Values == {live}
    ensures FlowId(row) == FlowId(live) && StatsOf(row) == StatsOf(live)
    ensures row.state == Closed && row.firstPacketTime == now && row.topSrcPort == 5000
    ensures live.state != Closed && live.firstPacketTime == now + 61 && live.topSrcPort == 6000
  {
    hide DistinctIds, FlowId, FlowKey, FlowAggregator.Valid, Indexes, Dashboard.InSync, Reconciled, OnlyRefreshed,
         Dashboard.Follows, Dashboard.TakePicture, Dashboard.Sorted, Dashboard.Consistent, StatsOf;
    d := WatchUdp(now);
    row := d.backing[0];
    assert row in d.Shown();
    d.ConsistentIsValid();
    ghost var rows := d.Shown();
    forall i | 0 <= i < |rows|
      ensures fresh(rows[i])
    {
      assert rows[i] in d.Shown();
    }
    live := EvictAndReturn(d, now, row);
    assert d.Shown() == rows;
    SameFieldsSameId(row, live);
    ghost var before := d.TakePicture();
    ghost var index := d.UpdateFlows();
    StaleShown(d, before, index, row, live);
  }
}
