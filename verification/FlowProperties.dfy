/** What the per-flow summaries promise, for conversations of any length. */
module FlowProperties {
  import opened Base
  import opened Packet
  import opened FlowKeys
  import opened Conversations

  // ---------------------------------------------------------------- direction

  /** Every absorbed packet has exactly the flow's addresses or exactly the swapped ones. */
  lemma PacketsMatchFlowAddresses(c: Conversation, i: nat)
    requires WellFormed(c) && i < |c|
    ensures DirectionOf(c[0], c[i]) == Forward <==> SameDirection(c[i].evt, c[0].evt)
    ensures DirectionOf(c[0], c[i]) == Reverse ==> OppositeDirection(c[i].evt, c[0].evt)
    ensures ProtocolName(c[i].evt.protocol) == ProtocolName(c[0].evt.protocol)
  {
    assert c[i] in c;
    FlowKeyEqual(c[i].evt, c[0].evt);
  }

  lemma {:induction false} DirectionsPartition(first: Stamped, c: Conversation)
    ensures |c| == |Travelling(first, c, Forward)| + |Travelling(first, c, Reverse)|
    ensures Bytes(c) == Bytes(Travelling(first, c, Forward)) + Bytes(Travelling(first, c, Reverse))
  {
    if c != [] {
      DirectionsPartition(first, Front(c));
      var d := DirectionOf(first, Last(c));
      var other := if d == Forward then Reverse else Forward;
      BytesSnoc(Travelling(first, Front(c), d), Last(c));
      assert Travelling(first, c, other) == Travelling(first, Front(c), other);
    }
  }

  /** PacketCount and ByteCount are the sums of their directional parts, modulo 2^64. */
  lemma CountersAddUp(first: Stamped, c: Conversation)
    ensures var k := CountersOf(first, c);
            && k.packetCount == U64(k.forwardPackets + k.reversePackets)
            && k.byteCount == U64(k.forwardBytes + k.reverseBytes)
  {
    DirectionsPartition(first, c);
    hide Travelling, Bytes, U64;
    var fwd, rev := Travelling(first, c, Forward), Travelling(first, c, Reverse);
    U64Add(|fwd|, |rev|);
    U64Add(|rev|, U64(|fwd|));
    U64Add(Bytes(fwd), Bytes(rev));
    U64Add(Bytes(rev), U64(Bytes(fwd)));
  }

  lemma {:induction false} SelfAddressedNeverReverse(c: Conversation, n: nat)
    requires WellFormed(c) && n <= |c|
    requires c[0].evt.saddr == c[0].evt.daddr
    ensures Travelling(c[0], c[..n], Reverse) == []
    decreases n
  {
    if n > 0 {
      assert Front(c[..n]) == c[..n - 1] && Last(c[..n]) == c[n - 1];
      assert c[n - 1] in c;
      NotForwardIsReverse(c[n - 1].evt, c[0].evt);
      SelfAddressedNeverReverse(c, n - 1);
    }
  }

  // -------------------------------------------------------------------- ports

  /** Number of packets that used port p. */
  function Uses(ps: seq<Port>, p: Port): nat {
    multiset(ps)[p]
  }

  lemma UsesSnoc(ps: seq<Port>, p: Port)
    requires ps != []
    ensures Uses(ps, p) == Uses(Front(ps), p) + (if p == Last(ps) then 1 else 0)
    ensures Uses(ps, p) <= |ps|
  {
    assert ps == Front(ps) + [Last(ps)];
    UsesBounded(ps, p);
  }

  lemma {:induction false} UsesBounded(ps: seq<Port>, p: Port)
    ensures Uses(ps, p) <= |ps|
  {
    if ps != [] {
      assert ps == Front(ps) + [Last(ps)];
      UsesBounded(Front(ps), p);
    }
  }

  predicate NoCounterWraps(ps: seq<Port>) {
    forall p: Port :: Uses(ps, p) < TWO_64
  }

  lemma NoCounterWrapsFront(ps: seq<Port>)
    requires ps != [] && NoCounterWraps(ps)
    ensures NoCounterWraps(Front(ps))
  {
    forall p: Port
      ensures Uses(Front(ps), p) < TWO_64
    {
      UsesSnoc(ps, p);
      assert Uses(ps, p) < TWO_64;
    }
  }

  predicate AllBelow(ps: seq<Port>, bound: nat) {
    forall q: Port :: Uses(ps, q) < bound
  }

  /** Port p reached the count that is still the maximum with packet i - 1, before any other port. */
  predicate FirstToReachMaximum(ps: seq<Port>, p: Port, i: nat) {
    && 0 < i <= |ps|
    && ps[i - 1] == p
    && Uses(ps[..i], p) == Uses(ps, p)
    && (forall q: Port :: Uses(ps, q) <= Uses(ps, p))
    && AllBelow(ps[..i - 1], Uses(ps, p))
  }

  /** The running top port is the port that first reached the final maximum. */
  lemma {:induction false} TopPortIsFirstMaximum(ps: seq<Port>) returns (i: nat)
    requires ps != [] && NoCounterWraps(ps)
    ensures FirstToReachMaximum(ps, TopPort(ps), i)
    decreases |ps|
  {
    var init, p := Front(ps), Last(ps);
    NoCounterWrapsFront(ps);
    forall q: Port
      ensures Uses(ps, q) == Uses(init, q) + (if q == p then 1 else 0)
      ensures U64(Uses(ps, q)) == Uses(ps, q)
    {
      UsesSnoc(ps, q);
      assert Uses(ps, q) < TWO_64;
    }
    assert ps[..|ps|] == ps && ps[..|ps| - 1] == init;
    if init == [] {
      i := 1;
      assert forall q: Port :: Uses(init, q) == 0;
    } else {
      var j := TopPortIsFirstMaximum(init);
      var top := TopPort(init);
      assert ps[..j] == init[..j] && ps[..j - 1] == init[..j - 1];
      assert forall q: Port :: Uses(init, q) <= Uses(init, top);
      if TopPort(ps) == p {
        i := |ps|;
      } else {
        i := j;
        assert Uses(ps, top) == Uses(init, top);
      }
    }
  }

  /** No port's displayed counter exceeds the displayed counter of the top port. */
  predicate TopIsMaximal(ps: seq<Port>) {
    forall q: Port :: U64(Uses(ps, q)) <= U64(Uses(ps, TopPort(ps)))
  }

  predicate TopIsMaximalThroughout(ps: seq<Port>) {
    forall i | 0 <= i <= |ps| :: TopIsMaximal(ps[..i])
  }

  lemma OneFullCounter(ps: seq<Port>, p: Port, q: Port)
    requires |ps| <= TWO_64 && Uses(ps, p) >= TWO_64
    ensures U64(Uses(ps, q)) == 0
  {
    UsesBounded(ps, p);
    if q != p {
      UsesPair(ps, p, q);
    }
  }

  lemma {:induction false} UsesPair(ps: seq<Port>, p: Port, q: Port)
    requires p != q
    ensures Uses(ps, p) + Uses(ps, q) <= |ps|
  {
    if ps != [] {
      UsesSnoc(ps, p);
      UsesSnoc(ps, q);
      UsesPair(Front(ps), p, q);
    }
  }

  lemma BelowTwo64(n: nat)
    requires n < TWO_64
    ensures U64(n) == n
  {
  }

  lemma TopIsMaximalUpTo2To64(ps: seq<Port>)
    requires |ps| <= TWO_64
    ensures TopIsMaximal(ps)
  {
    hide U64;
    if ps == [] || !NoCounterWraps(ps) {
      FullOrEmpty(ps);
    } else {
      var i := TopPortIsFirstMaximum(ps);
      hide Uses, TopPort;
      forall q: Port
        ensures U64(Uses(ps, q)) <= U64(Uses(ps, TopPort(ps)))
      {
        assert Uses(ps, q) <= Uses(ps, TopPort(ps)) < TWO_64;
        BelowTwo64(Uses(ps, q));
        BelowTwo64(Uses(ps, TopPort(ps)));
      }
    }
  }

  /** Without packets, and when one port has used up all 2^64, every counter shows zero. */
  lemma FullOrEmpty(ps: seq<Port>)
    requires |ps| <= TWO_64 && (ps == [] || !NoCounterWraps(ps))
    ensures forall q: Port :: U64(Uses(ps, q)) == 0
  {
    if ps != [] {
      var p: Port :| Uses(ps, p) >= TWO_64;
      forall q: Port
        ensures U64(Uses(ps, q)) == 0
      {
        OneFullCounter(ps, p, q);
      }
    }
  }

  /** One packet on port 2, then k packets on port 1. */
  function OvertakingPorts(k: nat): seq<Port> {
    [2] + seq(k, _ => 1)
  }

  lemma {:induction false} OvertakingTop(k: nat)
    ensures Uses(OvertakingPorts(k), 1) == k && Uses(OvertakingPorts(k), 2) == 1
    ensures TopPort(OvertakingPorts(k)) == if k < 2 then 2 else 1
    decreases k
  {
    var ps := OvertakingPorts(k);
    if k == 0 {
      assert ps == [2];
      assert TopPort(Front(ps)) == 0;
    } else {
      assert Front(ps) == OvertakingPorts(k - 1) && Last(ps) == 1;
      OvertakingTop(k - 1);
      UsesSnoc(ps, 1);
      UsesSnoc(ps, 2);
    }
  }

  /**
   * The running top port is a maximum of the displayed histogram after every packet of every port
   * sequence of length n exactly when n <= 2^64: with one packet more a wrapped counter keeps the top.
   */
  lemma TopPortMaximalIff(n: nat)
    ensures (forall ps: seq<Port> | |ps| == n :: TopIsMaximalThroughout(ps)) <==> n <= TWO_64
  {
    if n <= TWO_64 {
      forall ps: seq<Port>, i | |ps| == n && 0 <= i <= n
        ensures TopIsMaximal(ps[..i])
      {
        TopIsMaximalUpTo2To64(ps[..i]);
      }
    } else {
      var ps := OvertakingPorts(n - 1);
      OvertakingTop(TWO_64);
      assert ps[..TWO_64 + 1] == OvertakingPorts(TWO_64);
      assert U64(Uses(ps[..TWO_64 + 1], 2)) == 1 && U64(Uses(ps[..TWO_64 + 1], 1)) == 0;
      assert !TopIsMaximal(ps[..TWO_64 + 1]);
      assert !TopIsMaximalThroughout(ps);
    }
  }

  ghost predicate TopIsFirst(ps: seq<Port>) {
    exists i: nat :: FirstToReachMaximum(ps, TopPort(ps), i)
  }

  /** After every packet the running top port is the one that first reached the current maximum. */
  ghost predicate TopIsFirstThroughout(ps: seq<Port>) {
    forall i | 0 < i <= |ps| :: TopIsFirst(ps[..i])
  }

  function SamePort(k: nat, p: Port): seq<Port> {
    seq(k, _ => p)
  }

  lemma {:induction false} SamePortTop(k: nat, p: Port)
    requires k > 0
    ensures Uses(SamePort(k, p), p) == k && forall q: Port | q != p :: Uses(SamePort(k, p), q) == 0
    ensures TopPort(SamePort(k, p)) == p
    decreases k
  {
    var ps := SamePort(k, p);
    if k == 1 {
      assert ps == [p] && Front(ps) == [];
      assert TopPort(Front(ps)) == 0;
    } else {
      assert Front(ps) == SamePort(k - 1, p) && Last(ps) == p;
      SamePortTop(k - 1, p);
      forall q: Port
        ensures Uses(ps, q) == Uses(Front(ps), q) + (if q == p then 1 else 0)
      {
        UsesSnoc(ps, q);
      }
    }
  }

  /** A counter that wrapped within 2^64 packets belongs to the only port there is. */
  lemma {:induction false} FullCounterIsOnlyPort(ps: seq<Port>, p: Port)
    requires Uses(ps, p) >= |ps|
    ensures ps == SamePort(|ps|, p)
    decreases |ps|
  {
    if ps != [] {
      UsesSnoc(ps, p);
      UsesBounded(Front(ps), p);
      FullCounterIsOnlyPort(Front(ps), p);
      assert ps == Front(ps) + [p];
    }
  }

  lemma TopIsFirstUpTo2To64(ps: seq<Port>) returns (j: nat)
    requires 0 < |ps| <= TWO_64
    ensures FirstToReachMaximum(ps, TopPort(ps), j)
  {
    if NoCounterWraps(ps) {
      j := TopPortIsFirstMaximum(ps);
    } else {
      var p: Port :| Uses(ps, p) >= TWO_64;
      FullCounterIsOnlyPort(ps, p);
      SamePortTop(|ps|, p);
      j := |ps|;
      assert ps[..j] == ps;
      var before := ps[..j - 1];
      forall q: Port
        ensures Uses(before, q) < Uses(ps, p)
      {
        UsesBounded(before, q);
      }
    }
  }

  /**
   * Exact bound for "the port that first reached the maximum": it holds after every packet of every
   * port sequence of length n iff n <= 2^64. Behind 2^64 packets on one port, a single packet on
   * another takes over.
   */
  lemma TopPortFirstMaximumIff(n: nat)
    ensures (forall ps: seq<Port> | |ps| == n :: TopIsFirstThroughout(ps)) <==> n <= TWO_64
  {
    if n <= TWO_64 {
      forall ps: seq<Port>, i | |ps| == n && 0 < i <= n
        ensures TopIsFirst(ps[..i])
      {
        var j := TopIsFirstUpTo2To64(ps[..i]);
      }
    } else {
      var wrapped := SamePort(TWO_64, 1);
      var ps := wrapped + SamePort(n - TWO_64, 2);
      var bad := wrapped + [2];
      assert ps[..TWO_64 + 1] == bad;
      assert Front(bad) == wrapped && Last(bad) == 2;
      SamePortTop(TWO_64, 1);
      UsesSnoc(bad, 1);
      UsesSnoc(bad, 2);
      assert TopPort(bad) == 2 && Uses(bad, 2) == 1 < Uses(bad, 1);
      assert !TopIsFirst(bad);
      assert !TopIsFirstThroughout(ps);
    }
  }

  ghost function SumOf<T>(m: map<T, uint64>): nat
    decreases |m|
  {
    if m == map[] then 0
    else
      var k :| k in m;
      m[k] + SumOf(m - {k})
  }

  lemma SumEmpty<T>()
    ensures SumOf<T>(map[]) == 0
  {
  }

  lemma {:induction false} SumRemove<T>(m: map<T, uint64>, k: T)
    requires k in m
    ensures SumOf(m) == m[k] + SumOf(m - {k})
    decreases |m|
  {
    var k' :| k' in m && SumOf(m) == m[k'] + SumOf(m - {k'});
    if k' != k {
      SumRemove(m - {k'}, k);
      SumRemove(m - {k}, k');
      assert m - {k'} - {k} == m - {k} - {k'};
    }
  }

  lemma SumUpdate<T>(m: map<T, uint64>, k: T, v: uint64)
    ensures SumOf(m[k := v]) + CountOf(m, k) == SumOf(m) + v
  {
    hide SumOf;
    SumRemove(m[k := v], k);
    if k in m {
      SumRemove(m, k);
      assert m[k := v] - {k} == m - {k};
    } else {
      assert m[k := v] - {k} == m;
    }
  }

  /** The counters of a histogram add up to the number of entries, modulo 2^64. */
  lemma {:induction false} HistogramSum<T>(s: seq<T>)
    ensures U64(SumOf(Histogram(s))) == U64(|s|)
    decreases |s|
  {
    if s == [] {
      assert Histogram(s) == map[];
    } else {
      var init, x := Front(s), Last(s);
      assert s == init + [x];
      hide Histogram, SumOf;
      HistogramSum(init);
      HistogramSnoc(init, x);
      var m := Histogram(init);
      SumUpdate(m, x, U64(CountOf(m, x) + 1));
      OneMore(SumOf(m), |init|, CountOf(m, x), SumOf(Histogram(s)));
    }
  }

  lemma OneMore(sum: nat, n: nat, count: uint64, sum': nat)
    requires U64(sum) == U64(n) && sum' + count == sum + U64(count + 1)
    ensures U64(sum') == U64(n + 1)
  {
    U64Add(sum, 1);
    U64Add(n, 1);
    if count == TWO_64 - 1 {
      assert sum == sum' + TWO_64 - 1;
    }
  }

  /** Port histograms sum to PacketCount, port 0 included, and the DNS tallies to the log's length. */
  lemma HistogramsSumUp(first: Stamped, c: Conversation)
    ensures U64(SumOf(PortUseOf(SrcPorts(c)).ports)) == CountersOf(first, c).packetCount
    ensures U64(SumOf(PortUseOf(DstPorts(c)).ports)) == CountersOf(first, c).packetCount
    ensures U64(SumOf(DnsTallyOf(c).names)) == U64(|DnsTallyOf(c).queries|)
  {
    hide SumOf, Histogram, Queries, TopPort, U64;
    HistogramSum(SrcPorts(c));
    HistogramSum(DstPorts(c));
    HistogramSum(Names(Queries(c)));
  }

  // ------------------------------------------------------------------ history

  /** The history holds min(n, capacity) records: it equals the displayed counter unless that wrapped. */
  lemma HistoryLength(c: Conversation, capacity: nat)
    requires c != [] && capacity < TWO_64
    ensures |LastN(Records(c[0], c), capacity)| == Min(|c|, capacity)
    ensures |LastN(Records(c[0], c), capacity)| == Min(CountersOf(c[0], c).packetCount, capacity)
            <==> |c| < TWO_64 || |c| % TWO_64 >= capacity
  {
    RecordsLength(c[0], c);
    WrappedMin(|c|, capacity);
    hide Records, Bytes, Travelling, U64;
    assert CountersOf(c[0], c).packetCount == U64(|c|);
  }

  lemma WrappedMin(n: nat, capacity: nat)
    requires capacity < TWO_64
    ensures Min(n, capacity) == Min(U64(n), capacity) <==> n < TWO_64 || n % TWO_64 >= capacity
    ensures U64(n) <= n
  {
    if n < TWO_64 {
      assert U64(n) == n;
    }
  }

  lemma RecordsLength(first: Stamped, c: Conversation)
    ensures |Records(first, c)| == |c|
  {
  }

  function WithDirection(rs: seq<PacketRecord>, d: Direction): seq<PacketRecord> {
    if rs == [] then []
    else WithDirection(Front(rs), d) + (if Last(rs).direction == d then [Last(rs)] else [])
  }

  /** Records carry the direction their packet was counted under. */
  lemma {:induction false} RecordsMatchCounters(first: Stamped, c: Conversation, d: Direction)
    ensures |WithDirection(Records(first, c), d)| == |Travelling(first, c, d)|
    decreases |c|
  {
    if c != [] {
      assert Front(Records(first, c)) == Records(first, Front(c));
      RecordsMatchCounters(first, Front(c), d);
    }
  }

  /** Until the buffer is full the history shows as many records per direction as were counted. */
  lemma HistoryDirectionsMatch(c: Conversation, capacity: nat, d: Direction)
    requires c != [] && |c| <= capacity < TWO_64
    ensures var k := CountersOf(c[0], c);
            |WithDirection(LastN(Records(c[0], c), capacity), d)| ==
            if d == Forward then k.forwardPackets else k.reversePackets
  {
    hide Travelling, Bytes, WithDirection, Records;
    RecordsMatchCounters(c[0], c, d);
    DirectionsPartition(c[0], c);
    assert |Records(c[0], c)| == |c| by {
      RecordsLength(c[0], c);
    }
  }

  // ---------------------------------------------------------------------- TCP

  /** A conversation displayed as "tcp" consists of protocol-6 packets; any other has none. */
  lemma TcpByName(c: Conversation, i: nat)
    requires WellFormed(c) && i < |c|
    ensures ProtocolName(c[0].evt.protocol) == "tcp" <==> c[i].evt.protocol == TCP
  {
    assert c[i] in c;
    TcpProtocolIsExclusive(c[i].evt, c[0].evt);
    ProtocolNameEqual(c[0].evt.protocol, TCP);
  }

  /** Three transitions for each round of the packet counter, as far as it has got in the last one. */
  function Transitions(n: nat): nat {
    3 * (n / TWO_64) + Min(n % TWO_64, 3)
  }

  /** Exact number of transitions, wrap-around of the packet counter included. */
  lemma {:induction false} ChangeCount(c: Conversation)
    ensures |Changes(c)| == Transitions(|c|)
    decreases |c|
  {
    hide StageAfter, Transitions;
    if c == [] {
      NoTransitions();
    } else {
      ChangeCount(Front(c));
      ChangeStep(|c|);
    }
  }

  lemma NoTransitions()
    ensures Transitions(0) == 0
  {
  }

  lemma ChangeStep(n: nat)
    requires n > 0
    ensures Transitions(n) == Transitions(n - 1) + if StageAfter(n - 1) != StageAfter(n) then 1 else 0
  {
    if n % TWO_64 == 0 {
      assert (n - 1) % TWO_64 == TWO_64 - 1 && n / TWO_64 == (n - 1) / TWO_64 + 1;
    } else {
      assert (n - 1) % TWO_64 == n % TWO_64 - 1 && n / TWO_64 == (n - 1) / TWO_64;
    }
  }

  lemma FirstStages()
    ensures StageAfter(0) == New && StageAfter(1) == Syn
  {
  }

  /** The change log is a contiguous chain from "new" to the current state. */
  lemma {:induction false} ChangesChain(c: Conversation)
    requires c != []
    ensures Changes(c) != []
    ensures Changes(c)[0].oldState == New
    ensures Last(Changes(c)).newState == StageAfter(|c|)
    ensures forall i | 0 < i < |Changes(c)| :: Changes(c)[i].oldState == Changes(c)[i - 1].newState
    ensures forall i | 0 <= i < |Changes(c)| :: Changes(c)[i].oldState != Changes(c)[i].newState
    decreases |c|
  {
    FirstStages();
    hide U64, StageAfter, StateName;
    if |c| == 1 {
      assert Changes(Front(c)) == [];
    } else {
      ChangesChain(Front(c));
    }
  }

  /** The cap of 100 log entries truncates nothing exactly up to 33 * 2^64 + 1 packets. */
  lemma ChangeLogComplete(c: Conversation)
    requires c != [] && c[0].evt.protocol == TCP
    ensures TcpLifeOf(c[0], c).stateChanges == Changes(c) <==> |c| <= 33 * TWO_64 + 1
  {
    hide Changes;
    ChangeCount(c);
    assert |c| == TWO_64 * (|c| / TWO_64) + |c| % TWO_64;
  }

  function StageRank(s: FlowState): nat {
    match s
    case New => 0
    case Syn => 1
    case SynAck => 2
    case Established => 3
    case Closed => 4
  }

  /**
   * The TCP state never regresses along a conversation of n packets exactly when n <= 2^64: the
   * packet after that sees the counter at 1 again and falls back to "syn".
   */
  lemma StageMonotoneIff(n: nat)
    ensures (forall i, j | 0 <= i <= j <= n :: StageRank(StageAfter(i)) <= StageRank(StageAfter(j))) <==> n <= TWO_64
  {
    if n > TWO_64 {
      assert StageRank(StageAfter(TWO_64)) == 3 && StageRank(StageAfter(TWO_64 + 1)) == 1;
    }
  }

  /** Non-TCP flows stay "new" with an empty log, and no summary is ever "closed". */
  lemma LiveStates(c: Conversation)
    requires WellFormed(c)
    ensures var t := TcpLifeOf(c[0], c);
            && t.state != Closed
            && (ProtocolName(c[0].evt.protocol) != "tcp" <==> t.state == New)
            && (t.state == New ==> t.stateChanges == [] && t.tcpFlags == 0)
            && (t.state != New ==> t.tcpFlags == TCP && t.stateChanges != [])
  {
    TcpByName(c, 0);
    ChangesChain(c);
  }

  // ---------------------------------------------------------------------- DNS

  /** The log entries that ask for d. */
  function AskingFor(qs: seq<DNSQuery>, d: Domain): seq<DNSQuery> {
    if qs == [] then []
    else AskingFor(Front(qs), d) + (if Last(qs).domain == d then [Last(qs)] else [])
  }

  lemma {:induction false} AskingForCounted(qs: seq<DNSQuery>, d: Domain)
    ensures multiset(Names(qs))[d] == |AskingFor(qs, d)|
    decreases |qs|
  {
    if qs != [] {
      AskingForCounted(Front(qs), d);
      assert Names(qs) == Names(Front(qs)) + [Last(qs).domain];
    }
  }

  lemma HistogramCount<T>(s: seq<T>, x: T)
    ensures CountOf(Histogram(s), x) == U64(multiset(s)[x])
    ensures x in Histogram(s) <==> x in s
  {
    assert x !in s ==> multiset(s)[x] == 0 && U64(0) == 0;
  }

  lemma NamesMember(qs: seq<DNSQuery>, d: Domain)
    ensures d in Names(qs) <==> exists q <- qs :: q.domain == d
    ensures |multiset(Names(qs))| == |qs|
  {
    if d in Names(qs) {
      var i :| 0 <= i < |qs| && Names(qs)[i] == d;
      assert qs[i] in qs;
    }
    if q :| q in qs && q.domain == d {
      var i :| 0 <= i < |qs| && qs[i] == q;
      assert Names(qs)[i] == d;
    }
  }

  /** Tallies are the multiplicities of the log, entry by entry. */
  lemma TalliesAgreeWithLog(c: Conversation, d: Domain)
    ensures var t := DnsTallyOf(c);
            && (d in t.names <==> exists q <- t.queries :: q.domain == d)
            && CountOf(t.names, d) == U64(multiset(Names(t.queries))[d])
            && |multiset(Names(t.queries))| == |t.queries|
  {
    hide Queries, U64, Failures, LastQueryTime, Histogram, Names, CountOf;
    HistogramCount(Names(Queries(c)), d);
    NamesMember(Queries(c), d);
  }

  /** A log entry is a failure iff the packet it came from is a response with a non-zero code. */
  lemma FailedMeansNonZeroCode(e: Stamped, i: nat)
    requires i < |QueriesOf(e)|
    ensures Dns.Parse(e.evt.payload).Some?
    ensures var r := Dns.Parse(e.evt.payload).value;
            Failed(QueriesOf(e)[i]) <==> r.isResponse && r.responseCode != 0
  {
    var r := Dns.Parse(e.evt.payload).value;
    Dns.FailureCode(r.responseCode);
  }

  /** Questions a packet contributes to DNSFailures: all of them, when it is a response with RCODE != 0. */
  function FailedQuestions(e: Stamped): nat {
    match Dns.Parse(e.evt.payload)
    case None => 0
    case Some(r) => if QueriesOf(e) != [] && r.isResponse && r.responseCode != 0 then |r.questions| else 0
  }

  function TotalFailedQuestions(c: Conversation): nat {
    if c == [] then 0 else TotalFailedQuestions(Front(c)) + FailedQuestions(Last(c))
  }

  lemma {:induction false} FailuresAllOrNone(qs: seq<DNSQuery>, all: bool)
    requires forall i | 0 <= i < |qs| :: Failed(qs[i]) == all
    ensures |Failures(qs)| == if all then |qs| else 0
  {
    hide Failed;
    if qs != [] {
      FailuresAllOrNone(Front(qs), all);
    }
  }

  lemma FailuresOfPacket(e: Stamped)
    ensures |Failures(QueriesOf(e))| == FailedQuestions(e)
  {
    forall i | 0 <= i < |QueriesOf(e)|
      ensures Failed(QueriesOf(e)[i]) == (FailedQuestions(e) > 0)
    {
      FailedMeansNonZeroCode(e, i);
    }
    FailuresAllOrNone(QueriesOf(e), FailedQuestions(e) > 0);
  }

  /** DNSFailures is the number of questions in responses whose RCODE is not zero. */
  lemma {:induction false} FailuresByResponseCode(c: Conversation)
    ensures DnsTallyOf(c).failures == U64(TotalFailedQuestions(c))
    ensures |Failures(Queries(c))| == TotalFailedQuestions(c)
  {
    hide QueriesOf, FailedQuestions, Failed, Histogram, Names, LastQueryTime, U64;
    if c != [] {
      FailuresByResponseCode(Front(c));
      FailuresOfPacket(Last(c));
      FailuresAppend(Queries(Front(c)), QueriesOf(Last(c)));
    }
  }

  /** Packets without a payload never enter the log. */
  lemma {:induction false} NoPayloadNoQueries(c: Conversation)
    requires forall e <- c :: e.evt.payload == []
    ensures DnsTallyOf(c) == DnsTally([], map[], 0, ZERO_TIME)
    decreases |c|
  {
    if c != [] {
      assert Last(c) in c;
      assert forall e <- Front(c) :: e in c;
      NoPayloadNoQueries(Front(c));
      assert Queries(c) == [];
      assert Names([]) == [];
    }
  }
}
