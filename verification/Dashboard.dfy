/**
 * internal/tui/dashboard.go, updateFlows, sortFlows and applyFilters: a sorted view with a sticky
 * selection that is reconciled with the aggregator's table in place.
 */
module Dashboards {
  import opened Base
  import opened Text
  import opened Packet
  import opened FlowKeys
  import opened Conversations
  import opened Runs
  import opened Flows
  import opened RingBuffers
  import opened Aggregator

  // ------------------------------------------------------------ flow identity

  /** fmt.Sprintf("%s|%s|%s"): unlike the table key it depends on the orientation. */
  function FlowId(f: Flow): string {
    IPString(f.srcIP) + "|" + (IPString(f.dstIP) + "|" + f.protocol)
  }

  /** The three texts of an id in their order. */
  lemma FlowIdSpelled(f: Flow)
    ensures FlowId(f) == IPString(f.srcIP) + "|" + IPString(f.dstIP) + "|" + f.protocol
  {
    hide IPString;
    var a, b, c := IPString(f.srcIP), IPString(f.dstIP), f.protocol;
    assert a + ("|" + (b + ("|" + c))) == a + "|" + b + "|" + c;
    assert b + "|" + c == b + ("|" + c);
  }

  /** The table key the flow's own fields spell. */
  function OwnKey(f: Flow): string {
    KeyText(IPString(f.srcIP), IPString(f.dstIP), f.protocol)
  }

  /** An id determines the addresses and the protocol name it was built from. */
  lemma IdDeterminesFields(f: Flow, g: Flow)
    requires FlowId(f) == FlowId(g)
    ensures f.srcIP == g.srcIP && f.dstIP == g.dstIP && f.protocol == g.protocol
  {
    hide IPString;
    IPStringAlphabet(f.srcIP);
    IPStringAlphabet(f.dstIP);
    IPStringAlphabet(g.srcIP);
    IPStringAlphabet(g.dstIP);
    SplitAtSeparator(IPString(f.srcIP), IPString(f.dstIP) + "|" + f.protocol,
                     IPString(g.srcIP), IPString(g.dstIP) + "|" + g.protocol, '|');
    SplitAtSeparator(IPString(f.dstIP), f.protocol, IPString(g.dstIP), g.protocol, '|');
    IPStringInjective(f.srcIP, g.srcIP);
    IPStringInjective(f.dstIP, g.dstIP);
  }

  /** Equal ids mean equal keys; the converse fails for the two orientations of a conversation. */
  lemma SameIdSameKey(f: Flow, g: Flow)
    requires FlowId(f) == FlowId(g)
    ensures OwnKey(f) == OwnKey(g)
  {
    IdDeterminesFields(f, g);
    hide FlowId, KeyText, IPString;
  }

  /** Every flow sits in the table under the key its own fields spell. */
  lemma TableKeysAreOwnKeys(a: FlowAggregator, k: string)
    requires a.Valid() && k in a.flows
    ensures OwnKey(a.flows[k]) == k
  {
    hide KeyText, IPString, IPFromUint32, ProtocolName, Live;
    var c := Live(a.run, a.flowTimeout)[k];
    assert a.Shows(a.flows[k], c);
    LiveWellFormed(a.run, a.flowTimeout, k);
    assert c[0] in c;
    assert a.flows[k].Identified();
  }

  predicate DistinctIds(s: seq<Flow>) {
    forall i, j | 0 <= i < j < |s| :: FlowId(s[i]) != FlowId(s[j])
  }

  function Ids(s: seq<Flow>): set<string> {
    set f | f in s :: FlowId(f)
  }

  /** A snapshot that lists each table entry once shows every id once. */
  lemma SnapshotIdsDistinct(a: FlowAggregator, s: seq<Flow>)
    requires a.Valid()
    requires (forall f <- s :: f in a.flows.Values) && (forall k <- a.flows :: a.flows[k] in s)
    requires |s| == |a.flows|
    ensures DistinctIds(s)
  {
    hide FlowId, OwnKey, FlowAggregator.Valid;
    var keys := seq(|s|, i requires 0 <= i < |s| => OwnKey(s[i]));
    forall i | 0 <= i < |s|
      ensures keys[i] in a.flows && a.flows[keys[i]] == s[i]
    {
      assert s[i] in s;
      var k :| k in a.flows && a.flows[k] == s[i];
      TableKeysAreOwnKeys(a, k);
    }
    forall k | k in a.flows.Keys
      ensures k in keys
    {
      var i :| 0 <= i < |s| && s[i] == a.flows[k];
      TableKeysAreOwnKeys(a, k);
      assert keys[i] == k;
    }
    CoveringIsInjective(keys, a.flows.Keys);
    forall i, j | 0 <= i < j < |s|
      ensures FlowId(s[i]) != FlowId(s[j])
    {
      assert OwnKey(s[i]) == keys[i] != keys[j] == OwnKey(s[j]);
      if FlowId(s[i]) == FlowId(s[j]) {
        SameIdSameKey(s[i], s[j]);
      }
    }
  }

  /** A list as long as the set it covers has no repetition. */
  lemma {:induction false} CoveringIsInjective(s: seq<string>, keys: set<string>)
    requires |s| == |keys| && (forall k <- keys :: k in s)
    ensures forall i, j | 0 <= i < j < |s| :: s[i] != s[j]
    decreases |s|
  {
    if s != [] {
      var x, rest := Last(s), Front(s);
      assert s == rest + [x];
      forall k | k in keys - {x}
        ensures k in rest
      {
        assert k in s;
      }
      assert x !in rest by {
        if x in rest {
          SetNoLargerThanList(rest, keys);
        }
      }
      assert x in keys by {
        if x !in keys {
          assert keys - {x} == keys;
          SetNoLargerThanList(rest, keys);
        }
      }
      CoveringIsInjective(rest, keys - {x});
    }
  }

  lemma {:induction false} SetNoLargerThanList(s: seq<string>, keys: set<string>)
    requires forall k <- keys :: k in s
    ensures |keys| <= |s|
    decreases |s|
  {
    if s == [] {
      assert keys == {};
    } else {
      var x := Last(s);
      forall k | k in keys - {x}
        ensures k in Front(s)
      {
        assert k in s;
      }
      SetNoLargerThanList(Front(s), keys - {x});
    }
  }

  // -------------------------------------------------------- filters on lists

  /** The flows whose id is (or is not) among ids, in order. */
  function Select(s: seq<Flow>, ids: set<string>, wanted: bool): seq<Flow> {
    if s == [] then []
    else Select(Front(s), ids, wanted) + (if (FlowId(Last(s)) in ids) == wanted then [Last(s)] else [])
  }

  lemma SelectNone(s: seq<Flow>, ids: set<string>)
    ensures Select(s[..0], ids, true) == []
  {
  }

  lemma SelectNext(s: seq<Flow>, i: nat, ids: set<string>)
    requires i < |s|
    ensures Select(s[..i + 1], ids, true) ==
            if FlowId(s[i]) in ids then Select(s[..i], ids, true) + [s[i]] else Select(s[..i], ids, true)
  {
    assert s[..i + 1] == s[..i] + [s[i]];
    FrontLast(s[..i], s[i]);
  }

  /** Select goes row by row and keeps the order. */
  lemma {:induction false} SelectAppend(s: seq<Flow>, t: seq<Flow>, ids: set<string>, wanted: bool)
    ensures Select(s + t, ids, wanted) == Select(s, ids, wanted) + Select(t, ids, wanted)
    decreases |t|
  {
    hide FlowId;
    if t == [] {
      assert s + t == s && Select(t, ids, wanted) == [];
    } else {
      assert Front(s + t) == s + Front(t) && Last(s + t) == Last(t);
      SelectAppend(s, Front(t), ids, wanted);
    }
  }

  lemma SelectOne(f: Flow, ids: set<string>, wanted: bool)
    ensures Select([f], ids, wanted) == if (FlowId(f) in ids) == wanted then [f] else []
  {
    hide FlowId;
    assert Front([f]) == [];
  }

  lemma {:induction false} SelectMembers(s: seq<Flow>, ids: set<string>, wanted: bool)
    ensures forall f <- Select(s, ids, wanted) :: f in s && (FlowId(f) in ids) == wanted
    ensures forall f <- s | (FlowId(f) in ids) == wanted :: f in Select(s, ids, wanted)
    ensures |Select(s, ids, wanted)| <= |s|
    decreases |s|
  {
    hide FlowId;
    if s != [] {
      SelectMembers(Front(s), ids, wanted);
      assert s == Front(s) + [Last(s)];
    }
  }

  lemma {:induction false} SelectDistinct(s: seq<Flow>, ids: set<string>, wanted: bool)
    requires DistinctIds(s)
    ensures DistinctIds(Select(s, ids, wanted))
    decreases |s|
  {
    hide FlowId;
    if s != [] {
      var t := Select(Front(s), ids, wanted);
      SelectDistinct(Front(s), ids, wanted);
      SelectMembers(Front(s), ids, wanted);
      forall i | 0 <= i < |t|
        ensures FlowId(t[i]) != FlowId(Last(s))
      {
        assert t[i] in t;
        var j :| 0 <= j < |Front(s)| && Front(s)[j] == t[i];
        assert s[j] == t[i];
      }
    }
  }

  // ------------------------------------------------------------------ sorting

  datatype SortKey = ByBytes | ByPackets | ByDuration | ByLatest

  function NextKey(key: SortKey): SortKey {
    match key
    case ByBytes => ByPackets
    case ByPackets => ByDuration
    case ByDuration => ByLatest
    case ByLatest => ByBytes
  }

  /** The quantity sortFlows orders by, largest first. */
  function Rank(f: Flow, key: SortKey): int
    reads f
  {
    match key
    case ByLatest => f.lastPacketTime
    case ByPackets => f.packetCount
    case ByDuration => f.lastPacketTime - f.firstPacketTime
    case ByBytes => f.byteCount
  }

  predicate Descending(s: seq<Flow>, rank: map<Flow, int>)
    requires forall f <- s :: f in rank
  {
    forall i, j | 0 <= i < j < |s| :: rank[s[i]] >= rank[s[j]]
  }

  function Insert(f: Flow, s: seq<Flow>, rank: map<Flow, int>): (r: seq<Flow>)
    requires f in rank && forall g <- s :: g in rank
    ensures multiset(r) == multiset(s) + multiset{f}
    ensures forall g <- r :: g in rank
  {
    if s == [] || rank[f] > rank[s[0]] then [f] + s
    else
      assert s == [s[0]] + s[1..];
      [s[0]] + Insert(f, s[1..], rank)
  }

  /** Stands for sort.Slice: some descending permutation. */
  function Sort(s: seq<Flow>, rank: map<Flow, int>): (r: seq<Flow>)
    requires forall f <- s :: f in rank
    ensures multiset(r) == multiset(s)
    ensures forall f <- r :: f in rank
  {
    if s == [] then []
    else
      assert s == [s[0]] + s[1..];
      Insert(s[0], Sort(s[1..], rank), rank)
  }

  lemma ConsDescending(f: Flow, s: seq<Flow>, rank: map<Flow, int>)
    requires f in rank && (forall g <- s :: g in rank) && Descending(s, rank)
    requires forall g <- s :: rank[g] <= rank[f]
    ensures Descending([f] + s, rank)
  {
    forall i, j | 0 <= i < j < |[f] + s|
      ensures rank[([f] + s)[i]] >= rank[([f] + s)[j]]
    {
      assert ([f] + s)[j] == s[j - 1] && s[j - 1] in s;
      assert i > 0 ==> ([f] + s)[i] == s[i - 1];
    }
  }

  lemma {:induction false} InsertDescending(f: Flow, s: seq<Flow>, rank: map<Flow, int>)
    requires f in rank && (forall g <- s :: g in rank) && Descending(s, rank)
    ensures Descending(Insert(f, s, rank), rank)
    decreases |s|
  {
    if s == [] || rank[f] > rank[s[0]] {
      forall g | g in s
        ensures rank[g] <= rank[f]
      {
        var i :| 0 <= i < |s| && s[i] == g;
        assert i > 0 ==> rank[s[0]] >= rank[s[i]];
      }
      ConsDescending(f, s, rank);
    } else {
      var rest := s[1..];
      var t := Insert(f, rest, rank);
      InsertDescending(f, rest, rank);
      forall g | g in t
        ensures rank[g] <= rank[s[0]]
      {
        assert g in multiset(t);
        if g != f {
          var i :| 0 <= i < |rest| && rest[i] == g;
          assert s[i + 1] == g;
        }
      }
      ConsDescending(s[0], t, rank);
    }
  }

  lemma {:induction false} SortDescending(s: seq<Flow>, rank: map<Flow, int>)
    requires forall f <- s :: f in rank
    ensures Descending(Sort(s, rank), rank)
    decreases |s|
  {
    if s != [] {
      SortDescending(s[1..], rank);
      InsertDescending(s[0], Sort(s[1..], rank), rank);
    }
  }

  lemma PermutationKeepsIds(s: seq<Flow>, t: seq<Flow>)
    requires multiset(s) == multiset(t)
    ensures |s| == |t|
    ensures forall f :: f in s <==> f in t
    ensures Ids(s) == Ids(t)
  {
    hide FlowId;
    assert |s| == |multiset(s)| && |t| == |multiset(t)|;
    forall f
      ensures f in s <==> f in t
    {
      assert f in s <==> f in multiset(s);
    }
  }

  // ---------------------------------------------------------------- the view

  /** The twelve fields updateFlows copies. */
  datatype Stats = Stats(
    byteCount: uint64,
    packetCount: uint64,
    forwardBytes: uint64,
    reverseBytes: uint64,
    forwardPackets: uint64,
    reversePackets: uint64,
    lastPacketTime: Time,
    dnsQueries: seq<DNSQuery>,
    dnsQueryNames: map<Domain, uint64>,
    dnsFailures: uint64,
    dnsLastQuery: Time,
    packetHistory: RingBuffer<PacketRecord>)

  ghost function StatsOf(f: Flow): Stats
    reads f
  {
    Stats(f.byteCount, f.packetCount, f.forwardBytes, f.reverseBytes, f.forwardPackets, f.reversePackets,
          f.lastPacketTime, f.dnsQueries, f.dnsQueryNames, f.dnsFailures, f.dnsLastQuery, f.packetHistory)
  }

  /** The packets behind a row and its visible fields, as far as updateFlows leaves them alone. */
  datatype Uncopied = Uncopied(
    events: Conversation,
    state: FlowState,
    stateChanges: seq<TCPStateChange>,
    tcpFlags: uint8,
    srcPorts: map<Port, uint64>,
    dstPorts: map<Port, uint64>,
    topSrcPort: Port,
    topDstPort: Port,
    firstPacketTime: Time)

  ghost function UncopiedOf(f: Flow): Uncopied
    reads f`events, f`state, f`stateChanges, f`tcpFlags
    reads f`srcPorts, f`dstPorts, f`topSrcPort, f`topDstPort, f`firstPacketTime
  {
    Uncopied(f.events, f.state, f.stateChanges, f.tcpFlags, f.srcPorts, f.dstPorts, f.topSrcPort, f.topDstPort,
             f.firstPacketTime)
  }

  /** The view at one moment: its rows, what they show, and the selected index. */
  datatype Picture = Picture(rows: seq<Flow>, stats: seq<Stats>, uncopied: seq<Uncopied>, selected: nat)

  /** Since the picture was taken, rows kept their uncopied fields, and rows no longer live all fields. */
  ghost predicate OnlyRefreshed(before: Picture, index: map<string, Flow>)
    requires |before.rows| == |before.stats| == |before.uncopied|
    reads before.rows
  {
    forall i | 0 <= i < |before.rows| ::
      && UncopiedOf(before.rows[i]) == before.uncopied[i]
      && (FlowId(before.rows[i]) !in index ==> StatsOf(before.rows[i]) == before.stats[i])
  }

  /** f shows the statistics of the live flow with its id. */
  ghost predicate Refreshed(f: Flow, index: map<string, Flow>)
    reads f, if FlowId(f) in index then {index[FlowId(f)]} else {}
  {
    FlowId(f) in index && StatsOf(f) == StatsOf(index[FlowId(f)])
  }

  method CopyCounters(current: Flow, live: Flow)
    modifies current`byteCount, current`packetCount, current`forwardBytes, current`reverseBytes
    modifies current`forwardPackets, current`reversePackets
    ensures current.byteCount == old(live.byteCount) && current.packetCount == old(live.packetCount)
    ensures current.forwardBytes == old(live.forwardBytes) && current.reverseBytes == old(live.reverseBytes)
    ensures current.forwardPackets == old(live.forwardPackets) && current.reversePackets == old(live.reversePackets)
    ensures current == live ==> unchanged(current)
  {
    current.byteCount := live.byteCount;
    current.packetCount := live.packetCount;
    current.forwardBytes := live.forwardBytes;
    current.reverseBytes := live.reverseBytes;
    current.forwardPackets := live.forwardPackets;
    current.reversePackets := live.reversePackets;
  }

  method CopyDns(current: Flow, live: Flow)
    modifies current`dnsQueries, current`dnsQueryNames, current`dnsFailures, current`dnsLastQuery
    ensures current.dnsQueries == old(live.dnsQueries) && current.dnsQueryNames == old(live.dnsQueryNames)
    ensures current.dnsFailures == old(live.dnsFailures) && current.dnsLastQuery == old(live.dnsLastQuery)
    ensures current == live ==> unchanged(current)
  {
    current.dnsQueries := live.dnsQueries;
    current.dnsQueryNames := live.dnsQueryNames;
    current.dnsFailures := live.dnsFailures;
    current.dnsLastQuery := live.dnsLastQuery;
  }

  /** Copies the live flow's statistics; copying a flow onto itself changes nothing. */
  method CopyStats(current: Flow, live: Flow)
    modifies current
    ensures StatsOf(current) == old(StatsOf(live))
    ensures current == live ==> unchanged(current)
    ensures UncopiedOf(current) == old(UncopiedOf(current))
  {
    hide UncopiedOf;
    CopyCounters(current, live);
    current.lastPacketTime := live.lastPacketTime;
    CopyDns(current, live);
    current.packetHistory := live.packetHistory;
  }

  /** newFlowMap: the snapshot by id. */
  method IndexById(snapshot: seq<Flow>) returns (index: map<string, Flow>)
    requires DistinctIds(snapshot)
    ensures IndexOf(index, snapshot)
  {
    hide FlowId;
    index := map[];
    var i := 0;
    while i < |snapshot|
      invariant 0 <= i <= |snapshot|
      invariant forall id <- index :: FlowId(index[id]) == id && index[id] in snapshot[..i]
      invariant forall j | 0 <= j < i :: FlowId(snapshot[j]) in index && index[FlowId(snapshot[j])] == snapshot[j]
    {
      index := index[FlowId(snapshot[i]) := snapshot[i]];
      i := i + 1;
    }
  }

  class Dashboard {
    const aggregator: FlowAggregator
    /** d.flows: a slice over a backing array that it may share with allFlows. */
    var backing: array<Flow>
    var size: nat
    var allFlows: array<Flow>
    var paused: bool
    var sortBy: SortKey
    var filterProto: string
    var selectedFlow: nat
    var selectedFlowId: string

    /** The view's own objects are not part of the aggregator. */
    ghost predicate Valid()
      reads `size, `backing, `allFlows, aggregator
    {
      && size <= backing.Length
      && this !in aggregator.Repr && backing !in aggregator.Repr && allFlows !in aggregator.Repr
    }

    /** The displayed list. */
    ghost function Shown(): seq<Flow>
      requires size <= backing.Length
      reads `size, `backing, backing
    {
      backing[..size]
    }

    ghost function TakePicture(): (r: Picture)
      requires size <= backing.Length
      reads `size, `backing, `selectedFlow, backing, Shown()
      ensures r.rows == Shown() && |r.rows| == |r.stats| == |r.uncopied| && r.selected == selectedFlow
    {
      var rows := Shown();
      Picture(rows,
              seq(|rows|, i requires 0 <= i < |rows| reads rows => StatsOf(rows[i])),
              seq(|rows|, i requires 0 <= i < |rows| reads rows => UncopiedOf(rows[i])),
              selectedFlow)
    }

    /** The picture is one of the rows displayed now. */
    ghost predicate Pictured(before: Picture)
      requires size <= backing.Length
      reads `size, `backing, backing
    {
      before.rows == Shown() && |before.rows| == |before.stats| == |before.uncopied|
    }

    lemma PictureIsCurrent(index: map<string, Flow>)
      requires size <= backing.Length
      ensures Pictured(TakePicture()) && OnlyRefreshed(TakePicture(), index)
    {
      hide FlowId, StatsOf, UncopiedOf;
    }

    /** No id is displayed twice, neither now nor after the filter is re-applied. */
    ghost predicate Consistent()
      reads `size, `backing, `allFlows, aggregator, backing, allFlows
      ensures Consistent() ==> size <= backing.Length
    {
      && Valid()
      && DistinctIds(Shown()) && DistinctIds(allFlows[..])
      && (backing == allFlows ==> size == allFlows.Length)
    }

    constructor (aggregator: FlowAggregator)
      ensures Consistent() && this.aggregator == aggregator
      ensures Shown() == [] && !paused && sortBy == ByBytes && filterProto == "" && selectedFlowId == ""
      ensures allFlows[..] == []
      ensures fresh(backing) && fresh(allFlows)
    {
      this.aggregator := aggregator;
      backing := new Flow[] [];
      size := 0;
      allFlows := new Flow[] [];
      paused, sortBy, filterProto := false, ByBytes, "";
      selectedFlow, selectedFlowId := 0, "";
    }

    /** Refreshes one surviving flow and writes it to the next slot. */
    method KeepAt(slot: nat, current: Flow, index: map<string, Flow>, ghost before: Picture)
      requires |before.rows| == |before.stats| == |before.uncopied| && OnlyRefreshed(before, index)
      requires slot < backing.Length && FlowId(current) in index
      requires forall id <- index :: FlowId(index[id]) == id
      requires forall j | 0 <= j < slot :: FlowId(backing[j]) != FlowId(current) && Refreshed(backing[j], index)
      modifies backing, current
      ensures backing[..] == old(backing[..])[slot := current]
      ensures forall j | 0 <= j <= slot :: Refreshed(backing[j], index)
      ensures forall f <- index.Values :: unchanged(f)
      ensures OnlyRefreshed(before, index)
    {
      hide FlowId, StatsOf, UncopiedOf;
      CopyStats(current, index[FlowId(current)]);
      backing[slot] := current;
    }

    /** The first i rows are compacted into the first kept slots; the rest is still in place. */
    ghost predicate HalfCompacted(before: Picture, index: map<string, Flow>, kept: nat, i: nat)
      requires |before.rows| == |before.stats| == |before.uncopied|
      reads `backing, backing, before.rows, index.Values
    {
      && kept <= i <= |before.rows| <= backing.Length
      && (forall j | i <= j < |before.rows| :: backing[j] == before.rows[j])
      && backing[..kept] == Select(before.rows[..i], index.Keys, true)
      && (forall f <- before.rows :: f in backing[..kept] ==> Refreshed(f, index))
      && OnlyRefreshed(before, index)
    }

    /** The loop body: keep and refresh the i-th row if it is still live. */
    method CompactRow(i: nat, kept: nat, index: map<string, Flow>, ghost before: Picture) returns (kept': nat)
      requires |before.rows| == |before.stats| == |before.uncopied| && DistinctIds(before.rows)
      requires HalfCompacted(before, index, kept, i) && i < |before.rows|
      requires forall id <- index :: FlowId(index[id]) == id
      modifies backing, before.rows
      ensures HalfCompacted(before, index, kept', i + 1) && kept' <= i + 1
      ensures forall f <- index.Values :: unchanged(f)
    {
      hide FlowId, StatsOf, UncopiedOf, Refreshed, Select, OnlyRefreshed;
      var current := backing[i];
      kept' := kept;
      SelectNext(before.rows, i, index.Keys);
      if FlowId(current) in index {
        EarlierIdsDiffer(before.rows, i, index.Keys);
        assert forall j | 0 <= j < kept :: backing[j] in backing[..kept];
        KeepAt(kept, current, index, before);
        kept' := kept + 1;
      }
    }

    /**
     * `kept := d.flows[:0]`: the survivors are written over the front of the array that is being
     * read. Dropped flows leave stale slots behind the new length.
     */
    method Compact(index: map<string, Flow>, ghost before: Picture)
      requires size <= backing.Length && Pictured(before) && OnlyRefreshed(before, index)
      requires DistinctIds(Shown())
      requires forall id <- index :: FlowId(index[id]) == id
      modifies `size, backing, Shown()
      ensures size <= old(size) && backing == old(backing)
      ensures Shown() == Select(old(Shown()), index.Keys, true)
      ensures forall f <- Shown() :: Refreshed(f, index)
      ensures forall f <- index.Values :: unchanged(f)
      ensures OnlyRefreshed(before, index)
    {
      hide FlowId, Refreshed, Select, OnlyRefreshed, DistinctIds, HalfCompacted;
      var n := size;
      var kept: nat, i: nat := 0, 0;
      CompactStart(before, index);
      while i < n
        invariant 0 <= i <= n == size == |before.rows| && kept <= i
        invariant HalfCompacted(before, index, kept, i)
        invariant forall f <- index.Values :: unchanged(f)
      {
        kept := CompactRow(i, kept, index, before);
        i := i + 1;
      }
      CompactDone(before, index, kept);
      size := kept;
    }

    lemma CompactStart(before: Picture, index: map<string, Flow>)
      requires size <= backing.Length && Pictured(before) && OnlyRefreshed(before, index)
      ensures HalfCompacted(before, index, 0, 0)
    {
      hide FlowId, OnlyRefreshed;
      SelectNone(before.rows, index.Keys);
    }

    lemma CompactDone(before: Picture, index: map<string, Flow>, kept: nat)
      requires |before.rows| == |before.stats| == |before.uncopied|
      requires HalfCompacted(before, index, kept, |before.rows|)
      ensures backing[..kept] == Select(before.rows, index.Keys, true)
      ensures forall f <- backing[..kept] :: Refreshed(f, index)
      ensures OnlyRefreshed(before, index)
    {
      hide FlowId, Refreshed, OnlyRefreshed, Select;
      assert before.rows[..|before.rows|] == before.rows;
      SelectMembers(before.rows, index.Keys, true);
    }

    /** d.flows = append(d.flows, f): in place while the backing array has room, else into a new one. */
    method Append(f: Flow)
      requires size <= backing.Length
      modifies `size, `backing, backing
      ensures size <= backing.Length && Shown() == old(Shown()) + [f]
      ensures backing == old(backing) || fresh(backing)
    {
      if size < backing.Length {
        backing[size] := f;
      } else {
        var s := backing[..size] + [f];
        backing := new Flow[|s|](i requires 0 <= i < |s| => s[i]);
        assert backing[..] == s;
      }
      size := size + 1;
    }

    /** existingMap: the ids on display. */
    method ShownIds() returns (ids: set<string>)
      requires size <= backing.Length
      ensures ids == Ids(Shown())
    {
      hide FlowId;
      ids := {};
      var i := 0;
      while i < size
        invariant 0 <= i <= size
        invariant ids == Ids(backing[..i])
      {
        assert backing[..i + 1] == backing[..i] + [backing[i]];
        ids := ids + {FlowId(backing[i])};
        i := i + 1;
      }
    }

    method AddNew(snapshot: seq<Flow>)
      requires size <= backing.Length
      modifies `size, `backing, backing
      ensures size <= backing.Length
      ensures Shown() == old(Shown()) + Select(snapshot, Ids(old(Shown())), false)
      ensures backing == old(backing) || fresh(backing)
    {
      hide FlowId, Ids;
      var existing := ShownIds();
      var i := 0;
      while i < |snapshot|
        invariant 0 <= i <= |snapshot| && size <= backing.Length
        invariant backing == old(backing) || fresh(backing)
        invariant Shown() == old(Shown()) + Select(snapshot[..i], existing, false)
      {
        assert snapshot[..i + 1] == snapshot[..i] + [snapshot[i]];
        FrontLast(snapshot[..i], snapshot[i]);
        if FlowId(snapshot[i]) !in existing {
          Append(snapshot[i]);
        }
        i := i + 1;
      }
      assert snapshot[..i] == snapshot;
    }

    /** sort.Slice(d.flows, ...): a descending permutation of the displayed list. */
    method SortFlows()
      requires size <= backing.Length
      modifies backing
      ensures multiset(Shown()) == multiset(old(Shown()))
      ensures Sorted()
      ensures forall i, j | 0 <= i < j < size ::
                && (sortBy == ByBytes ==> backing[i].byteCount >= backing[j].byteCount)
                && (sortBy == ByPackets ==> backing[i].packetCount >= backing[j].packetCount)
                && (sortBy == ByLatest ==> backing[i].lastPacketTime >= backing[j].lastPacketTime)
                && (sortBy == ByDuration ==>
                      backing[i].lastPacketTime - backing[i].firstPacketTime >=
                      backing[j].lastPacketTime - backing[j].firstPacketTime)
    {
      var s := backing[..size];
      var rank := map f | f in s :: Rank(f, sortBy);
      var t := Sort(s, rank);
      SortDescending(s, rank);
      assert |t| == |multiset(t)| == |multiset(s)| == size;
      forall i | 0 <= i < size {
        backing[i] := t[i];
      }
      assert backing[..size] == t;
      forall i, j | 0 <= i < j < size
        ensures Rank(backing[i], sortBy) >= Rank(backing[j], sortBy)
      {
        assert t[i] in t && t[j] in t;
        assert rank[t[i]] >= rank[t[j]];
      }
      SortedSpelled();
    }

    /** What the order means for each sort key. */
    lemma SortedSpelled()
      requires size <= backing.Length && Sorted()
      ensures forall i, j | 0 <= i < j < size ::
                && (sortBy == ByBytes ==> backing[i].byteCount >= backing[j].byteCount)
                && (sortBy == ByPackets ==> backing[i].packetCount >= backing[j].packetCount)
                && (sortBy == ByLatest ==> backing[i].lastPacketTime >= backing[j].lastPacketTime)
                && (sortBy == ByDuration ==>
                      backing[i].lastPacketTime - backing[i].firstPacketTime >=
                      backing[j].lastPacketTime - backing[j].firstPacketTime)
    {
      forall i, j | 0 <= i < j < size
        ensures Rank(backing[i], sortBy) >= Rank(backing[j], sortBy)
      {
      }
    }

    /** Moves the selection to the first row with the selected id; without one it stays. */
    method TrackSelection()
      requires size <= backing.Length
      modifies `selectedFlow
      ensures selectedFlowId in Ids(Shown()) ==> selectedFlow < size && FlowId(backing[selectedFlow]) == selectedFlowId
      ensures selectedFlowId !in Ids(Shown()) ==> selectedFlow == old(selectedFlow)
    {
      hide FlowId;
      var i := 0;
      while i < size
        invariant 0 <= i <= size
        invariant forall j | 0 <= j < i :: FlowId(backing[j]) != selectedFlowId
      {
        if FlowId(backing[i]) == selectedFlowId {
          selectedFlow := i;
          assert backing[i] in Shown();
          return;
        }
        i := i + 1;
      }
    }

    /** The displayed list is in descending order of the chosen quantity. */
    ghost predicate Sorted()
      requires size <= backing.Length
      reads `size, `backing, `sortBy, backing, Shown()
    {
      forall i, j | 0 <= i < j < size :: Rank(backing[i], sortBy) >= Rank(backing[j], sortBy)
    }

    /** The selection is on the row with the selected id, or where it was when there is no such row. */
    ghost predicate Follows(index: map<string, Flow>, before: nat)
      requires size <= backing.Length
      reads `size, `backing, `selectedFlow, `selectedFlowId, backing
    {
      if selectedFlowId != "" && selectedFlowId in index then
        selectedFlow < size && FlowId(backing[selectedFlow]) == selectedFlowId
      else selectedFlow == before
    }

    /** The view shows every live conversation once, with its live statistics. */
    ghost predicate InSync(index: map<string, Flow>)
      requires size <= backing.Length
      reads `size, `backing, backing, Shown(), index.Values
    {
      && DistinctIds(Shown())
      && Ids(Shown()) == index.Keys
      && (forall f <- Shown() :: Refreshed(f, index))
    }

    /** updateFlows up to the sort: drop, refresh, add. */
    method Reconcile(snapshot: seq<Flow>, index: map<string, Flow>, ghost before: Picture)
      requires size <= backing.Length && DistinctIds(Shown())
      requires Pictured(before) && OnlyRefreshed(before, index)
      requires IndexOf(index, snapshot)
      modifies `size, `backing, backing, Shown()
      ensures size <= backing.Length && InSync(index)
      ensures backing == old(backing) || fresh(backing)
      ensures Shown() == Reconciled(old(Shown()), snapshot, index.Keys)
      ensures OnlyRefreshed(before, index)
      ensures forall f <- index.Values :: unchanged(f)
    {
      hide FlowId, StatsOf, Refreshed, Select, Ids, DistinctIds, OnlyRefreshed;
      Compact(index, before);
      ghost var kept := Shown();
      ghost var added := Select(snapshot, Ids(kept), false);
      AddNew(snapshot);
      assert Shown() == kept + added;
      ReconciledIds(before.rows, snapshot, index.Keys);
      SelectMembers(snapshot, Ids(kept), false);
      AllRefreshed(kept, added, index);
    }

    /** Reconcile, seen from the aggregator: nothing it owns changes. */
    method Synchronise(snapshot: seq<Flow>, index: map<string, Flow>, ghost before: Picture)
      requires Valid() && aggregator.Valid() && DistinctIds(Shown())
      requires Pictured(before) && OnlyRefreshed(before, index)
      requires IndexOf(index, snapshot)
      requires forall k <- aggregator.flows :: aggregator.flows[k] in snapshot
      modifies `size, `backing, backing, Shown()
      ensures Valid() && aggregator.Valid() && InSync(index)
      ensures backing == old(backing) || fresh(backing)
      ensures Shown() == Reconciled(old(Shown()), snapshot, index.Keys)
      ensures OnlyRefreshed(before, index)
      ensures unchanged(aggregator) && forall k <- aggregator.flows :: unchanged(aggregator.flows[k])
    {
      hide FlowId, InSync, DistinctIds, Ids, Reconciled, OnlyRefreshed, FlowAggregator.Valid, Flow.Valid;
      OwnedByTable(aggregator);
      Reconcile(snapshot, index, before);
      forall k | k in aggregator.flows
        ensures unchanged(aggregator.flows[k])
      {
        assert index[FlowId(aggregator.flows[k])] in index.Values;
      }
      TableUntouched(aggregator);
    }

    /** Sorting rearranges a synchronised view. */
    method SortInSync(ghost index: map<string, Flow>)
      requires size <= backing.Length && InSync(index)
      modifies backing
      ensures InSync(index) && multiset(Shown()) == multiset(old(Shown()))
      ensures Sorted()
    {
      hide FlowId, Refreshed, Rank;
      ghost var before := Shown();
      SortFlows();
      PermutationKeepsIds(before, Shown());
      PermutationKeepsDistinct(before, Shown());
    }

    /** The last part of updateFlows: sort, then follow the selected id. */
    method Arrange(ghost index: map<string, Flow>)
      requires size <= backing.Length && InSync(index)
      modifies backing, `selectedFlow
      ensures InSync(index) && multiset(Shown()) == multiset(old(Shown())) && Sorted()
      ensures Follows(index, old(selectedFlow))
    {
      hide FlowId, Refreshed, DistinctIds, Ids, Rank;
      if size > 0 {
        SortInSync(index);
        if selectedFlowId != "" {
          TrackSelection();
        }
      }
      NoRowsNoIds();
    }

    lemma NoRowsNoIds()
      requires size <= backing.Length
      ensures size == 0 ==> Ids(Shown()) == {}
    {
    }

    lemma ConsistentIsValid()
      requires Consistent()
      ensures Valid() && DistinctIds(Shown())
    {
    }

    /** The aggregator's flows and their index by id. */
    method TakeSnapshot() returns (snapshot: seq<Flow>, index: map<string, Flow>)
      requires aggregator.Valid()
      ensures IndexOf(index, snapshot) && Indexes(index, aggregator.flows)
      ensures forall k <- aggregator.flows :: aggregator.flows[k] in snapshot
      ensures multiset(snapshot) == multiset(aggregator.flows.Values)
    {
      hide FlowId, FlowAggregator.Valid, DistinctIds, Indexes, Ids;
      snapshot := aggregator.GetAllFlows();
      SnapshotIdsDistinct(aggregator, snapshot);
      index := IndexById(snapshot);
      SnapshotIndexes(index, aggregator.flows, snapshot);
      DistinctMultiset(snapshot, aggregator.flows.Values);
    }

    /**
     * What an unpaused updateFlows does to the view: the rows are a permutation of the surviving
     * rows and the newcomers, show every live id once with its live statistics, are sorted, and the
     * selection follows its id; nothing but those statistics changes in a row.
     */
    ghost predicate Reconciles(before: Picture, index: map<string, Flow>)
      requires size <= backing.Length && |before.rows| == |before.stats| == |before.uncopied|
      reads `size, `backing, `allFlows, `sortBy, `selectedFlow, `selectedFlowId, backing, allFlows
      reads Shown(), before.rows, index.Values, aggregator`flows
    {
      && Indexes(index, aggregator.flows) && InSync(index)
      && multiset(allFlows[..]) == multiset(aggregator.flows.Values)
      && multiset(Shown()) == multiset(Reconciled(before.rows, allFlows[..], index.Keys))
      && AmongRows(Shown(), before.rows, aggregator.flows.Values)
      && OnlyRefreshed(before, index)
      && Sorted() && Follows(index, before.selected)
    }

    /** Reconciles the view with the aggregator's table, then sorts and follows the selection. */
    method UpdateFlows() returns (ghost index: map<string, Flow>)
      requires Consistent() && aggregator.Valid()
      modifies this, backing, Shown()
      ensures forall f <- old(Shown()) :: UncopiedOf(f) == old(UncopiedOf(f))
      ensures Consistent()
      ensures !old(paused) ==> forall i, j | 0 <= i < j < size ::
                && (sortBy == ByBytes ==> backing[i].byteCount >= backing[j].byteCount)
                && (sortBy == ByPackets ==> backing[i].packetCount >= backing[j].packetCount)
                && (sortBy == ByLatest ==> backing[i].lastPacketTime >= backing[j].lastPacketTime)
                && (sortBy == ByDuration ==>
                      backing[i].lastPacketTime - backing[i].firstPacketTime >=
                      backing[j].lastPacketTime - backing[j].firstPacketTime)
      ensures !old(paused) ==>
                if selectedFlowId != "" && selectedFlowId in Ids(Shown()) then
                  selectedFlow < size && FlowId(backing[selectedFlow]) == selectedFlowId
                else selectedFlow == old(selectedFlow)
      ensures paused == old(paused) && sortBy == old(sortBy) && selectedFlowId == old(selectedFlowId)
      ensures filterProto == old(filterProto)
      ensures backing == old(backing) || fresh(backing)
      ensures allFlows == old(allFlows) || fresh(allFlows)
      ensures old(paused) ==> unchanged(this) && unchanged(backing) && forall f <- old(Shown()) :: unchanged(f)
      ensures !old(paused) ==> fresh(allFlows) && Reconciles(old(TakePicture()), index)
      ensures aggregator.Valid() && unchanged(aggregator)
      ensures forall k <- aggregator.flows :: unchanged(aggregator.flows[k])
    {
      hide FlowId, FlowAggregator.Valid, DistinctIds, Consistent, Reconciles, TakePicture;
      ConsistentIsValid();
      index := map[];
      if paused {
        return;
      }
      index := Refresh();
      ghost var before := old(TakePicture());
      UncopiedKept(before, index);
      PictureShows();
      ReconcilesSpelled(before, index);
    }

    /** What a picture says of its rows, one by one. */
    twostate lemma PictureShows()
      requires old(size <= backing.Length)
      ensures forall i | 0 <= i < |old(Shown())| :: old(TakePicture()).uncopied[i] == old(UncopiedOf(Shown()[i]))
    {
      hide UncopiedOf;
    }

    lemma ReconcilesSpelled(before: Picture, index: map<string, Flow>)
      requires size <= backing.Length && |before.rows| == |before.stats| == |before.uncopied|
      requires Reconciles(before, index)
      ensures forall i, j | 0 <= i < j < size ::
                && (sortBy == ByBytes ==> backing[i].byteCount >= backing[j].byteCount)
                && (sortBy == ByPackets ==> backing[i].packetCount >= backing[j].packetCount)
                && (sortBy == ByLatest ==> backing[i].lastPacketTime >= backing[j].lastPacketTime)
                && (sortBy == ByDuration ==>
                      backing[i].lastPacketTime - backing[i].firstPacketTime >=
                      backing[j].lastPacketTime - backing[j].firstPacketTime)
      ensures if selectedFlowId != "" && selectedFlowId in Ids(Shown()) then
                selectedFlow < size && FlowId(backing[selectedFlow]) == selectedFlowId
              else selectedFlow == before.selected
    {
      hide FlowId, Indexes, Reconciled, StatsOf, OnlyRefreshed, Rank, Sorted, DistinctIds, Refreshed;
      SortedSpelled();
    }

    lemma UncopiedKept(before: Picture, index: map<string, Flow>)
      requires size <= backing.Length && |before.rows| == |before.stats| == |before.uncopied|
      requires Reconciles(before, index)
      ensures forall i | 0 <= i < |before.rows| :: UncopiedOf(before.rows[i]) == before.uncopied[i]
    {
      hide FlowId, Indexes, InSync, Reconciled, UncopiedOf, StatsOf, Sorted, Follows;
    }

    /** updateFlows when the view is not paused. */
    method Refresh() returns (ghost index: map<string, Flow>)
      requires Valid() && DistinctIds(Shown()) && aggregator.Valid()
      modifies `size, `backing, `allFlows, `selectedFlow, backing, Shown()
      ensures Consistent() && Reconciles(old(TakePicture()), index)
      ensures backing == old(backing) || fresh(backing)
      ensures fresh(allFlows)
      ensures aggregator.Valid() && unchanged(aggregator)
      ensures forall k <- aggregator.flows :: unchanged(aggregator.flows[k])
    {
      hide FlowId, FlowAggregator.Valid, InSync, DistinctIds, Indexes, Ids, Consistent, Reconciled, Reconciles,
           OnlyRefreshed, TakePicture;
      ghost var before := TakePicture();
      var snapshot, newFlowMap := TakeSnapshot();
      index := newFlowMap;
      PictureIsCurrent(index);
      Synchronise(snapshot, newFlowMap, before);
      Settle(snapshot, newFlowMap, before);
    }

    /** Sorting, selecting and storing the snapshot complete a reconciled view. */
    method Settle(snapshot: seq<Flow>, ghost index: map<string, Flow>, ghost before: Picture)
      requires |before.rows| == |before.stats| == |before.uncopied| && before.selected == selectedFlow
      requires Valid() && InSync(index) && Indexes(index, aggregator.flows) && OnlyRefreshed(before, index)
      requires DistinctIds(snapshot) && multiset(snapshot) == multiset(aggregator.flows.Values)
      requires Shown() == Reconciled(before.rows, snapshot, index.Keys)
      modifies backing, `selectedFlow, `allFlows
      ensures Consistent() && Reconciles(before, index) && fresh(allFlows)
    {
      hide FlowId, InSync, DistinctIds, Indexes, Ids, Consistent, Reconciled, Follows, Sorted, AmongRows, OnlyRefreshed;
      Arrange(index);
      RowsKnown(before.rows, snapshot, index.Keys, Shown(), aggregator.flows.Values);
      ShownDistinct(index);
      StoreSnapshot(snapshot);
    }

    /** d.allFlows = newFlows, a freshly allocated slice. */
    method StoreSnapshot(snapshot: seq<Flow>)
      requires Valid() && DistinctIds(Shown()) && DistinctIds(snapshot)
      modifies `allFlows
      ensures Consistent() && fresh(allFlows) && allFlows[..] == snapshot
    {
      hide DistinctIds;
      allFlows := new Flow[|snapshot|](i requires 0 <= i < |snapshot| => snapshot[i]);
      assert allFlows[..] == snapshot;
    }

    lemma ShownDistinct(index: map<string, Flow>)
      requires size <= backing.Length && InSync(index)
      ensures DistinctIds(Shown())
    {
    }

    /** The "p" key. */
    method TogglePause()
      requires Consistent()
      modifies `paused
      ensures Consistent() && paused == !old(paused)
    {
      hide DistinctIds;
      paused := !paused;
    }

    /** The arrow keys: the neighbouring row, if there is one, becomes the selected row and id. */
    method MoveSelection(down: bool)
      requires Consistent()
      modifies `selectedFlow, `selectedFlowId
      ensures Consistent()
      ensures selectedFlow == (if down && old(selectedFlow) + 1 < size then old(selectedFlow) + 1
                               else if !down && old(selectedFlow) > 0 then old(selectedFlow) - 1
                               else old(selectedFlow))
      ensures selectedFlow != old(selectedFlow) && selectedFlow < size ==>
                selectedFlowId == FlowId(backing[selectedFlow])
      ensures selectedFlow == old(selectedFlow) || selectedFlow >= size ==> selectedFlowId == old(selectedFlowId)
    {
      hide DistinctIds, FlowId;
      if down {
        if selectedFlow + 1 < size {
          selectedFlow := selectedFlow + 1;
          selectedFlowId := FlowId(backing[selectedFlow]);
        }
      } else if selectedFlow > 0 {
        selectedFlow := selectedFlow - 1;
        if selectedFlow < size {
          selectedFlowId := FlowId(backing[selectedFlow]);
        }
      }
    }

    /** The "s" key: the next sort order, the list re-sorted, the selection back at the top. */
    method CycleSort()
      requires Consistent()
      modifies `sortBy, backing, `selectedFlow, `selectedFlowId
      ensures sortBy == if old(sortBy) == ByBytes then ByPackets else if old(sortBy) == ByPackets then ByDuration
                        else if old(sortBy) == ByDuration then ByLatest else ByBytes
      ensures Consistent() && multiset(Shown()) == multiset(old(Shown()))
      ensures multiset(allFlows[..]) == multiset(old(allFlows[..]))
      ensures Sorted()
      ensures forall i, j | 0 <= i < j < size ::
                && (sortBy == ByBytes ==> backing[i].byteCount >= backing[j].byteCount)
                && (sortBy == ByPackets ==> backing[i].packetCount >= backing[j].packetCount)
                && (sortBy == ByLatest ==> backing[i].lastPacketTime >= backing[j].lastPacketTime)
                && (sortBy == ByDuration ==>
                      backing[i].lastPacketTime - backing[i].firstPacketTime >=
                      backing[j].lastPacketTime - backing[j].firstPacketTime)
      ensures selectedFlow == 0 && selectedFlowId == ""
    {
      hide FlowId, Rank, Consistent;
      sortBy := NextKey(sortBy);
      Resort();
      SortedSpelled();
      selectedFlow, selectedFlowId := 0, "";
    }

    /** The "enter" key of the filter dialog. */
    method EnterFilter(proto: string)
      requires Consistent()
      modifies `filterProto, `backing, `size, `selectedFlow, `selectedFlowId, allFlows
      ensures Consistent() && filterProto == proto
      ensures backing == allFlows || fresh(backing)
      ensures multiset(allFlows[..]) == multiset(old(allFlows[..]))
      ensures multiset(Shown()) == multiset(OfProtocol(old(allFlows[..]), proto))
      ensures forall f :: f in Shown() <==> f in old(allFlows[..]) && (proto == "" || f.protocol == proto)
      ensures Sorted()
      ensures forall i, j | 0 <= i < j < size ::
                && (sortBy == ByBytes ==> backing[i].byteCount >= backing[j].byteCount)
                && (sortBy == ByPackets ==> backing[i].packetCount >= backing[j].packetCount)
                && (sortBy == ByLatest ==> backing[i].lastPacketTime >= backing[j].lastPacketTime)
                && (sortBy == ByDuration ==>
                      backing[i].lastPacketTime - backing[i].firstPacketTime >=
                      backing[j].lastPacketTime - backing[j].firstPacketTime)
      ensures selectedFlow == 0 && selectedFlowId == ""
    {
      hide FlowId, Rank, Consistent, OfProtocol, Sorted;
      ghost var all := allFlows[..];
      filterProto := proto;
      ApplyFilters();
      Resort();
      FilterSpelled(Shown(), all, proto);
      SortedSpelled();
      selectedFlow, selectedFlowId := 0, "";
    }

    /** sortFlows outside a refresh; it may permute the snapshot array as well. */
    method Resort()
      requires Consistent()
      modifies backing
      ensures Consistent() && multiset(Shown()) == multiset(old(Shown()))
      ensures multiset(allFlows[..]) == multiset(old(allFlows[..]))
      ensures Sorted()
    {
      hide FlowId, Rank, DistinctIds;
      ghost var before := Shown();
      SortFlows();
      PermutationKeepsDistinct(before, Shown());
      if backing == allFlows {
        assert allFlows[..] == Shown() && old(allFlows[..]) == before;
      }
    }

    /** applyFilters: with no filter the view shares the array of the snapshot. */
    method ApplyFilters()
      requires Consistent()
      modifies `backing, `size
      ensures Consistent()
      ensures filterProto == "" ==> backing == allFlows && size == allFlows.Length
      ensures filterProto != "" ==> fresh(backing)
      ensures Shown() == OfProtocol(allFlows[..], filterProto)
    {
      hide FlowId, DistinctIds;
      OfProtocolDistinct(allFlows[..], filterProto);
      if filterProto == "" {
        backing, size := allFlows, allFlows.Length;
        assert allFlows[..allFlows.Length] == allFlows[..];
        OfAnyProtocol(allFlows[..]);
      } else {
        var filtered: seq<Flow> := [];
        var i := 0;
        while i < allFlows.Length
          invariant 0 <= i <= allFlows.Length
          invariant filtered == OfProtocol(allFlows[..i], filterProto)
        {
          assert allFlows[..i + 1] == allFlows[..i] + [allFlows[i]];
          FrontLast(allFlows[..i], allFlows[i]);
          if allFlows[i].protocol == filterProto {
            filtered := filtered + [allFlows[i]];
          }
          i := i + 1;
        }
        assert allFlows[..i] == allFlows[..];
        backing := new Flow[|filtered|](i requires 0 <= i < |filtered| => filtered[i]);
        size := |filtered|;
        assert backing[..size] == filtered;
      }
    }
  }

  /** index lists the flows of the table by id. */
  ghost predicate Indexes(index: map<string, Flow>, table: map<string, Flow>) {
    && (forall k <- table :: FlowId(table[k]) in index && index[FlowId(table[k])] == table[k])
    && (forall id <- index :: FlowId(index[id]) == id && index[id] in table.Values)
  }

  lemma SnapshotIndexes(index: map<string, Flow>, table: map<string, Flow>, snapshot: seq<Flow>)
    requires (forall f <- snapshot :: f in table.Values) && (forall k <- table :: table[k] in snapshot)
    requires forall id <- index :: FlowId(index[id]) == id && index[id] in snapshot
    requires forall f <- snapshot :: FlowId(f) in index && index[FlowId(f)] == f
    ensures Indexes(index, table)
  {
    hide FlowId;
  }

  /** index lists the snapshot by id, and the snapshot has no id twice. */
  ghost predicate IndexOf(index: map<string, Flow>, snapshot: seq<Flow>) {
    && DistinctIds(snapshot) && index.Keys == Ids(snapshot)
    && (forall id <- index :: FlowId(index[id]) == id && index[id] in snapshot)
    && (forall f <- snapshot :: FlowId(f) in index && index[FlowId(f)] == f)
  }

  /** The rows that are still live, in their order, then the live flows that are not on display yet. */
  ghost function Reconciled(before: seq<Flow>, snapshot: seq<Flow>, ids: set<string>): seq<Flow> {
    var kept := Select(before, ids, true);
    kept + Select(snapshot, Ids(kept), false)
  }

  /** Every row was displayed before or is a flow of the snapshot; the live ones displayed before stay. */
  lemma ReconciledMembers(before: seq<Flow>, snapshot: seq<Flow>, ids: set<string>)
    ensures forall f <- Reconciled(before, snapshot, ids) :: f in before || f in snapshot
    ensures forall f <- before | FlowId(f) in ids :: f in Reconciled(before, snapshot, ids)
  {
    hide FlowId;
    var kept := Select(before, ids, true);
    SelectMembers(before, ids, true);
    SelectMembers(snapshot, Ids(kept), false);
  }

  /** Every row is one of the earlier rows or a live flow: no object is made up. */
  ghost predicate AmongRows(shown: seq<Flow>, before: seq<Flow>, live: set<Flow>) {
    forall f <- shown :: f in before || f in live
  }

  lemma RowsKnown(before: seq<Flow>, snapshot: seq<Flow>, ids: set<string>, shown: seq<Flow>, live: set<Flow>)
    requires multiset(shown) == multiset(Reconciled(before, snapshot, ids))
    requires multiset(snapshot) == multiset(live)
    ensures AmongRows(shown, before, live)
  {
    hide FlowId, Reconciled;
    var reconciled := Reconciled(before, snapshot, ids);
    ReconciledMembers(before, snapshot, ids);
    forall f | f in shown
      ensures f in before || f in live
    {
      assert f in multiset(shown);
      assert f in reconciled;
      assert f in snapshot ==> f in multiset(snapshot);
    }
  }

  lemma {:induction false} DistinctMultiset(s: seq<Flow>, all: set<Flow>)
    requires DistinctIds(s)
    requires (forall f <- s :: f in all) && (forall f <- all :: f in s)
    ensures multiset(s) == multiset(all)
    decreases |s|
  {
    hide FlowId;
    if s == [] {
      assert all == {};
    } else {
      var init, f := Front(s), Last(s);
      assert s == init + [f];
      forall g | g in init
        ensures g != f
      {
        var i :| 0 <= i < |init| && init[i] == g;
        assert s[i] == g && FlowId(s[i]) != FlowId(s[|s| - 1]);
      }
      DistinctMultiset(init, all - {f});
      assert all == all - {f} + {f};
    }
  }

  /** Survivors plus newcomers show each live id once. */
  lemma ReconciledIds(before: seq<Flow>, snapshot: seq<Flow>, ids: set<string>)
    requires DistinctIds(before) && DistinctIds(snapshot) && ids == Ids(snapshot)
    ensures var now := Reconciled(before, snapshot, ids);
            DistinctIds(now) && Ids(now) == ids
  {
    hide FlowId;
    var kept := Select(before, ids, true);
    var added := Select(snapshot, Ids(kept), false);
    var now := kept + added;
    SelectMembers(before, ids, true);
    SelectDistinct(before, ids, true);
    SelectMembers(snapshot, Ids(kept), false);
    SelectDistinct(snapshot, Ids(kept), false);
    forall i, j | 0 <= i < j < |now|
      ensures FlowId(now[i]) != FlowId(now[j])
    {
      if i < |kept| <= j {
        assert kept[i] in kept && FlowId(kept[i]) in Ids(kept);
        assert added[j - |kept|] in added;
      }
    }
    forall id | id in ids
      ensures id in Ids(now)
    {
      var f :| f in snapshot && FlowId(f) == id;
      if id !in Ids(kept) {
        assert f in added && f in now;
      } else {
        var g :| g in kept && FlowId(g) == id;
        assert g in now;
      }
    }
    forall id | id in Ids(now)
      ensures id in ids
    {
      var f :| f in now && FlowId(f) == id;
      assert f in kept || f in added;
    }
  }

  /** Every flow in the table owns itself, its ring buffer and that buffer's array. */
  lemma OwnedByTable(a: FlowAggregator)
    requires a.Valid()
    ensures forall k <- a.flows ::
              var f := a.flows[k];
              f.Repr == {f, f.packetHistory, f.packetHistory.packets} && f.Repr <= a.Repr
  {
    hide Flow.Valid, Live;
    forall k | k in a.flows
      ensures var f := a.flows[k];
              f.Repr == {f, f.packetHistory, f.packetHistory.packets} && f.Repr <= a.Repr
    {
      assert a.Shows(a.flows[k], Live(a.run, a.flowTimeout)[k]);
      a.flows[k].OwnedObjects();
    }
  }

  lemma AllRefreshed(kept: seq<Flow>, added: seq<Flow>, index: map<string, Flow>)
    requires forall f <- kept :: Refreshed(f, index)
    requires forall f <- added :: FlowId(f) in index && index[FlowId(f)] == f
    ensures forall f <- kept + added :: Refreshed(f, index)
  {
    hide FlowId, StatsOf;
  }

  /** No flow kept so far has the id of the i-th one. */
  lemma EarlierIdsDiffer(s: seq<Flow>, i: nat, ids: set<string>)
    requires i < |s| && DistinctIds(s)
    ensures forall f <- Select(s[..i], ids, true) :: f in s && FlowId(f) != FlowId(s[i])
  {
    hide FlowId;
    SelectMembers(s[..i], ids, true);
    forall f | f in Select(s[..i], ids, true)
      ensures f in s && FlowId(f) != FlowId(s[i])
    {
      assert f in s[..i];
      var j :| 0 <= j < i && s[j] == f;
    }
  }

  /** The rows a protocol filter leaves; the empty filter leaves all. */
  function OfProtocol(s: seq<Flow>, proto: string): seq<Flow> {
    if s == [] then []
    else OfProtocol(Front(s), proto) + (if proto == "" || Last(s).protocol == proto then [Last(s)] else [])
  }

  lemma {:induction false} OfAnyProtocol(s: seq<Flow>)
    ensures OfProtocol(s, "") == s
    decreases |s|
  {
    if s != [] {
      OfAnyProtocol(Front(s));
      assert OfProtocol(s, "") == OfProtocol(Front(s), "") + [Last(s)] == s;
    }
  }

  lemma {:induction false} OfProtocolMembers(s: seq<Flow>, proto: string)
    ensures forall f :: f in OfProtocol(s, proto) <==> f in s && (proto == "" || f.protocol == proto)
    decreases |s|
  {
    if s != [] {
      OfProtocolMembers(Front(s), proto);
      assert s == Front(s) + [Last(s)];
    }
  }

  /** The filter goes row by row and keeps the order. */
  lemma {:induction false} OfProtocolAppend(s: seq<Flow>, t: seq<Flow>, proto: string)
    ensures OfProtocol(s + t, proto) == OfProtocol(s, proto) + OfProtocol(t, proto)
    ensures forall f :: OfProtocol([f], proto) == if proto == "" || f.protocol == proto then [f] else []
    decreases |t|
  {
    assert OfProtocol([], proto) == [];
    if t == [] {
      assert s + t == s;
    } else {
      assert Front(s + t) == s + Front(t) && Last(s + t) == Last(t);
      OfProtocolAppend(s, Front(t), proto);
    }
  }

  /** Which rows a filtered list holds. */
  lemma FilterSpelled(shown: seq<Flow>, all: seq<Flow>, proto: string)
    requires multiset(shown) == multiset(OfProtocol(all, proto))
    ensures forall f :: f in shown <==> f in all && (proto == "" || f.protocol == proto)
  {
    hide OfProtocol, FlowId;
    PermutationKeepsIds(shown, OfProtocol(all, proto));
    OfProtocolMembers(all, proto);
  }

  lemma {:induction false} OfProtocolDistinct(s: seq<Flow>, proto: string)
    requires DistinctIds(s)
    ensures DistinctIds(OfProtocol(s, proto))
    ensures forall f <- OfProtocol(s, proto) :: f in s
    decreases |s|
  {
    hide FlowId;
    if s != [] {
      var t := OfProtocol(Front(s), proto);
      OfProtocolDistinct(Front(s), proto);
      assert s == Front(s) + [Last(s)];
      forall i | 0 <= i < |t|
        ensures FlowId(t[i]) != FlowId(Last(s))
      {
        assert t[i] in t;
        var j :| 0 <= j < |Front(s)| && Front(s)[j] == t[i];
        assert s[j] == t[i];
      }
    }
  }

  /**
   * A refresh ignores the protocol filter: the refreshed view satisfies it exactly when every
   * flow of the table has that protocol.
   */
  lemma FilterSurvivesRefreshIff(d: Dashboard, index: map<string, Flow>, proto: string)
    requires d.size <= d.backing.Length && d.InSync(index) && Indexes(index, d.aggregator.flows)
    ensures (forall f <- d.Shown() :: f.protocol == proto) <==>
            (forall k <- d.aggregator.flows :: d.aggregator.flows[k].protocol == proto)
  {
    hide FlowId, StatsOf, DistinctIds;
    forall f | f in d.Shown()
      ensures FlowId(f) in index && f.protocol == index[FlowId(f)].protocol
    {
      assert Refreshed(f, index);
      IdDeterminesFields(f, index[FlowId(f)]);
    }
    forall k | k in d.aggregator.flows
      ensures exists f :: f in d.Shown() && f.protocol == d.aggregator.flows[k].protocol
    {
      var g := d.aggregator.flows[k];
      assert FlowId(g) in Ids(d.Shown());
      var f :| f in d.Shown() && FlowId(f) == FlowId(g);
      IdDeterminesFields(f, g);
    }
  }

  lemma {:induction false} DistinctIdsCounted(s: seq<Flow>)
    requires DistinctIds(s)
    ensures |Ids(s)| == |s|
    decreases |s|
  {
    hide FlowId;
    if s == [] {
      assert Ids(s) == {};
    } else {
      var init, f := Front(s), Last(s);
      assert s == init + [f];
      assert DistinctIds(init);
      DistinctIdsCounted(init);
      forall g | g in init
        ensures FlowId(g) != FlowId(f)
      {
        var i :| 0 <= i < |init| && init[i] == g;
        assert s[i] == g;
      }
      assert Ids(s) == Ids(init) + {FlowId(f)};
    }
  }

  /** Reordering keeps ids distinct. */
  lemma PermutationKeepsDistinct(s: seq<Flow>, t: seq<Flow>)
    requires DistinctIds(s) && multiset(s) == multiset(t)
    ensures DistinctIds(t)
  {
    hide FlowId;
    DistinctIdsCounted(s);
    PermutationKeepsIds(s, t);
    var ids := seq(|t|, i requires 0 <= i < |t| => FlowId(t[i]));
    forall k | k in Ids(t)
      ensures k in ids
    {
      var f :| f in t && FlowId(f) == k;
      var i :| 0 <= i < |t| && t[i] == f;
      assert ids[i] == k;
    }
    CoveringIsInjective(ids, Ids(t));
    forall i, j | 0 <= i < j < |t|
      ensures FlowId(t[i]) != FlowId(t[j])
    {
      assert ids[i] != ids[j];
    }
  }
}
