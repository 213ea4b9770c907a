/**
 * Runs of the aggregator: processEvent and closeIdleFlows take the lock in some serial order.
 * A run is that order; everything a flow shows is a function of the run.
 */
module Runs {
  import opened Base
  import opened FlowKeys
  import opened Conversations

  /** An arrival carries the key processEvent computed for it. */
  datatype Step = Arrive(key: string, e: Stamped) | Sweep(now: Time)

  type Run = seq<Step>

  /** now.Sub(flow.LastPacketTime) > flowTimeout */
  predicate Expired(last: Time, now: Time, timeout: Time) {
    now - last > timeout
  }

  /** Every arrival is filed under its own key. */
  predicate Keyed(run: Run) {
    forall i | 0 <= i < |run| && run[i].Arrive? :: run[i].key == FlowKey(run[i].e.evt)
  }

  predicate IsArrival(s: Step, k: string) {
    s.Arrive? && s.key == k
  }

  function Get(m: map<string, Conversation>, k: string): Conversation {
    if k in m then m[k] else []
  }

  /** The flow table as the two critical sections transform it. */
  function Live(run: Run, timeout: Time): (m: map<string, Conversation>)
    ensures forall k <- m :: m[k] != []
  {
    if run == [] then map[]
    else AfterStep(Live(Front(run), timeout), Last(run), timeout)
  }

  function IdleKeys(m: map<string, Conversation>, now: Time, timeout: Time): set<string>
    requires forall k <- m :: m[k] != []
  {
    set k | k in m && Expired(Last(m[k]).now, now, timeout)
  }

  function AfterStep(m: map<string, Conversation>, s: Step, timeout: Time): (r: map<string, Conversation>)
    requires forall k <- m :: m[k] != []
    ensures forall k <- r :: r[k] != []
  {
    match s
    case Arrive(k, e) => m[k := Get(m, k) + [e]]
    case Sweep(now) => m - IdleKeys(m, now, timeout)
  }

  /** Step b of the run is a sweep that evicts conversation c of key k. */
  ghost predicate EvictedAt(run: Run, timeout: Time, k: string, c: Conversation, b: nat) {
    && b < |run|
    && k in Live(run[..b], timeout) && Live(run[..b], timeout)[k] == c
    && k !in Live(run[..b + 1], timeout)
  }

  /** The run has evicted conversation c of key k. */
  ghost predicate WasEvicted(run: Run, timeout: Time, k: string, c: Conversation) {
    exists b: nat :: EvictedAt(run, timeout, k, c, b)
  }

  /** What was evicted stays evicted, whatever happens next. */
  lemma EvictedForGood(run: Run, step: Step, timeout: Time, k: string, c: Conversation)
    requires WasEvicted(run, timeout, k, c)
    ensures WasEvicted(run + [step], timeout, k, c)
  {
    hide Live;
    var b: nat :| EvictedAt(run, timeout, k, c, b);
    assert (run + [step])[..b] == run[..b] && (run + [step])[..b + 1] == run[..b + 1];
    assert EvictedAt(run + [step], timeout, k, c, b);
  }

  lemma EvictedNow(run: Run, step: Step, timeout: Time, k: string)
    requires k in Live(run, timeout) && k !in Live(run + [step], timeout)
    ensures WasEvicted(run + [step], timeout, k, Live(run, timeout)[k])
  {
    hide Live;
    assert (run + [step])[..|run|] == run && (run + [step])[..|run| + 1] == run + [step];
    assert EvictedAt(run + [step], timeout, k, Live(run, timeout)[k], |run|);
  }

  // -------------------------------------- conversations, independent of the table

  /** Step i is the latest packet of conversation k among the first n steps. */
  predicate LatestArrival(run: Run, k: string, n: nat, i: nat) {
    i < n <= |run| && IsArrival(run[i], k) && forall m | i < m < n :: !IsArrival(run[m], k)
  }

  /** Step j is a sweep that comes more than the timeout after the latest packet of k. */
  ghost predicate IdleSweep(run: Run, timeout: Time, k: string, j: nat) {
    && j < |run|
    && run[j].Sweep?
    && exists i: nat :: LatestArrival(run, k, j, i) && Expired(run[i].e.now, run[j].now, timeout)
  }

  /** The packets of k since position b start a fresh conversation and were never swept away. */
  ghost predicate SinceEviction(run: Run, timeout: Time, k: string, b: nat) {
    && b <= |run|
    && (b == 0 || IdleSweep(run, timeout, k, b - 1))
    && (forall j | b <= j < |run| :: !IdleSweep(run, timeout, k, j))
  }

  function ArrivalsOf(run: Run, k: string): Conversation {
    if run == [] then []
    else ArrivalsOf(Front(run), k) + (if IsArrival(Last(run), k) then [Last(run).e] else [])
  }

  lemma {:induction false} LatestArrivalIsLast(run: Run, k: string, b: nat, n: nat)
    requires b <= n <= |run|
    ensures ArrivalsOf(run[b..n], k) == [] ==> forall i | b <= i < n :: !IsArrival(run[i], k)
    ensures ArrivalsOf(run[b..n], k) != [] ==>
              exists i: nat :: b <= i && LatestArrival(run, k, n, i) && run[i].e == Last(ArrivalsOf(run[b..n], k))
    decreases n
  {
    if b < n {
      assert Front(run[b..n]) == run[b..n - 1] && Last(run[b..n]) == run[n - 1];
      LatestArrivalIsLast(run, k, b, n - 1);
      if IsArrival(run[n - 1], k) {
        assert LatestArrival(run, k, n, n - 1);
      } else if ArrivalsOf(run[b..n - 1], k) != [] {
        var i: nat :| b <= i && LatestArrival(run, k, n - 1, i) && run[i].e == Last(ArrivalsOf(run[b..n - 1], k));
        LatestStays(run, k, n, i);
      }
    }
  }

  lemma LatestStays(run: Run, k: string, n: nat, i: nat)
    requires 0 < n <= |run| && LatestArrival(run, k, n - 1, i) && !IsArrival(run[n - 1], k)
    ensures LatestArrival(run, k, n, i)
  {
  }

  lemma LatestArrivalPrefix(run: Run, k: string, n: nat, j: nat, i: nat)
    requires j < n <= |run|
    ensures LatestArrival(run, k, j, i) <==> LatestArrival(run[..n], k, j, i)
  {
  }

  lemma IdleSweepPrefix(run: Run, timeout: Time, k: string, n: nat, j: nat)
    requires j < n <= |run|
    ensures IdleSweep(run, timeout, k, j) <==> IdleSweep(run[..n], timeout, k, j)
  {
    forall i: nat
      ensures LatestArrival(run, k, j, i) <==> LatestArrival(run[..n], k, j, i)
      ensures LatestArrival(run, k, j, i) ==> i < j && run[..n][i] == run[i]
    {
      LatestArrivalPrefix(run, k, n, j, i);
    }
    hide LatestArrival, IsArrival;
  }

  lemma SinceEvictionPrefix(run: Run, timeout: Time, k: string, b: nat)
    requires run != [] && SinceEviction(run, timeout, k, b) && b < |run|
    ensures SinceEviction(Front(run), timeout, k, b)
  {
    hide IdleSweep;
    forall j | 0 <= j < |run| - 1
      ensures IdleSweep(run, timeout, k, j) <==> IdleSweep(Front(run), timeout, k, j)
    {
      IdleSweepPrefix(run, timeout, k, |run| - 1, j);
    }
  }

  lemma {:induction false} SinceEvictionExists(run: Run, timeout: Time, k: string) returns (b: nat)
    ensures SinceEviction(run, timeout, k, b)
    decreases |run|
  {
    hide IdleSweep;
    if run == [] {
      b := 0;
    } else if IdleSweep(run, timeout, k, |run| - 1) {
      b := |run|;
    } else {
      b := SinceEvictionExists(Front(run), timeout, k);
      forall j | 0 <= j < |run| - 1
        ensures IdleSweep(run, timeout, k, j) <==> IdleSweep(Front(run), timeout, k, j)
      {
        IdleSweepPrefix(run, timeout, k, |run| - 1, j);
      }
    }
  }

  /**
   * The flow table holds, for every key, exactly the packets of that conversation since its last
   * eviction; a key is absent iff there are none.
   */
  lemma {:induction false} LiveIsSinceEviction(run: Run, timeout: Time, k: string, b: nat)
    requires SinceEviction(run, timeout, k, b)
    ensures Get(Live(run, timeout), k) == ArrivalsOf(run[b..], k)
    ensures k in Live(run, timeout) <==> ArrivalsOf(run[b..], k) != []
    decreases |run|
  {
    if run == [] {
    } else if b == |run| {
      SweptAway(run, timeout, k);
    } else {
      var init := Front(run);
      SinceEvictionPrefix(run, timeout, k, b);
      LiveIsSinceEviction(init, timeout, k, b);
      assert Front(run[b..]) == init[b..] && Last(run[b..]) == Last(run);
      if Last(run).Sweep? && k in Live(init, timeout) {
        SurvivesSweep(run, timeout, k, b);
      }
    }
  }

  /** An idle sweep leaves no trace of the conversation. */
  lemma {:induction false} SweptAway(run: Run, timeout: Time, k: string)
    requires run != [] && IdleSweep(run, timeout, k, |run| - 1)
    ensures k !in Live(run, timeout)
    decreases |run|, 0
  {
    hide SinceEviction;
    var init, n := Front(run), |run| - 1;
    var b := SinceEvictionExists(init, timeout, k);
    LiveIsSinceEviction(init, timeout, k, b);
    BoundaryInRange(init, timeout, k, b);
    LatestArrivalIsLast(run, k, b, n);
    assert init[b..] == run[b..n];
    if k in Live(init, timeout) {
      var i: nat :| LatestArrival(run, k, n, i) && Expired(run[i].e.now, run[n].now, timeout);
      var i': nat :| b <= i' && LatestArrival(run, k, n, i') && run[i'].e == Last(ArrivalsOf(run[b..n], k));
      assert i == i' by {
        LatestArrivalUnique(run, k, n, i, i');
      }
      assert k in IdleKeys(Live(init, timeout), run[n].now, timeout);
    }
  }

  lemma BoundaryInRange(run: Run, timeout: Time, k: string, b: nat)
    requires SinceEviction(run, timeout, k, b)
    ensures b <= |run|
  {
  }

  lemma LatestArrivalUnique(run: Run, k: string, n: nat, i: nat, i': nat)
    requires LatestArrival(run, k, n, i) && LatestArrival(run, k, n, i')
    ensures i == i'
  {
    hide IsArrival;
  }

  /** A sweep that is not an idle sweep for k keeps its flow. */
  lemma SurvivesSweep(run: Run, timeout: Time, k: string, b: nat)
    requires run != [] && Last(run).Sweep? && b < |run|
    requires !IdleSweep(run, timeout, k, |run| - 1)
    requires k in Live(Front(run), timeout)
    requires Get(Live(Front(run), timeout), k) == ArrivalsOf(Front(run)[b..], k)
    ensures !Expired(Last(Live(Front(run), timeout)[k]).now, Last(run).now, timeout)
  {
    var n := |run| - 1;
    LatestArrivalIsLast(run, k, b, n);
    assert Front(run)[b..] == run[b..n];
    var i: nat :| b <= i && LatestArrival(run, k, n, i) && run[i].e == Last(ArrivalsOf(run[b..n], k));
  }

  /** All packets filed under one key carry that key. */
  lemma {:induction false} LiveWellFormed(run: Run, timeout: Time, k: string)
    requires Keyed(run) && k in Live(run, timeout)
    ensures WellFormed(Live(run, timeout)[k])
    ensures forall e <- Live(run, timeout)[k] :: FlowKey(e.evt) == k
    decreases |run|
  {
    hide FlowKey;
    if k in Live(Front(run), timeout) {
      LiveWellFormed(Front(run), timeout, k);
    }
  }

  // ------------------------------------------------------------- conservation

  function Arrivals(run: Run): Conversation {
    if run == [] then []
    else Arrivals(Front(run)) + (if Last(run).Arrive? then [Last(run).e] else [])
  }

  /** A quantity that adds up packet by packet, such as the number of packets or their bytes. */
  ghost predicate Additive(w: Conversation -> nat) {
    w([]) == 0 && forall c: Conversation, e :: w(c + [e]) == w(c) + w([e])
  }

  ghost function Total(m: map<string, Conversation>, w: Conversation -> nat): nat
    decreases |m|
  {
    if m == map[] then 0
    else
      var k :| k in m;
      w(m[k]) + Total(m - {k}, w)
  }

  lemma TotalEmpty(w: Conversation -> nat)
    ensures Total(map[], w) == 0
  {
  }

  lemma {:induction false} TotalRemove(m: map<string, Conversation>, w: Conversation -> nat, k: string)
    requires k in m
    ensures Total(m, w) == w(m[k]) + Total(m - {k}, w)
    decreases |m|
  {
    var k' :| k' in m && Total(m, w) == w(m[k']) + Total(m - {k'}, w);
    if k' != k {
      TotalRemove(m - {k'}, w, k);
      TotalRemove(m - {k}, w, k');
      assert m - {k'} - {k} == m - {k} - {k'};
    }
  }

  lemma UnionRemove<K, V>(m: map<K, V>, n: map<K, V>, k: K)
    requires m.Keys !! n.Keys && k in n
    ensures k in m + n && (m + n)[k] == n[k]
    ensures m.Keys !! (n - {k}).Keys
    ensures m + n - {k} == m + (n - {k})
    ensures |n - {k}| < |n|
  {
    assert (n - {k}).Keys == n.Keys - {k};
  }

  lemma {:induction false} TotalUnion(
    m: map<string, Conversation>, n: map<string, Conversation>, w: Conversation -> nat)
    requires m.Keys !! n.Keys
    ensures Total(m + n, w) == Total(m, w) + Total(n, w)
    decreases |n|
  {
    hide Total;
    if n == map[] {
      assert m + n == m;
      TotalEmpty(w);
    } else {
      var k :| k in n;
      TotalRemove(m + n, w, k);
      TotalRemove(n, w, k);
      UnionRemove(m, n, k);
      TotalUnion(m, n - {k}, w);
    }
  }

  /** What the flows removed by sweeps so far add up to. */
  ghost function Evicted(run: Run, timeout: Time, w: Conversation -> nat): nat {
    if run == [] then 0
    else
      Evicted(Front(run), timeout, w) +
      if Last(run).Sweep? then Total(Live(Front(run), timeout) - Live(run, timeout).Keys, w) else 0
  }

  /** Every packet ever counted is in exactly one live or evicted flow. */
  lemma {:induction false} Conservation(run: Run, timeout: Time, w: Conversation -> nat)
    requires Additive(w)
    ensures w(Arrivals(run)) == Total(Live(run, timeout), w) + Evicted(run, timeout, w)
    decreases |run|
  {
    hide Total;
    if run == [] {
      TotalEmpty(w);
    } else {
      Conservation(Front(run), timeout, w);
      var before, after := Live(Front(run), timeout), Live(run, timeout);
      match Last(run)
      case Arrive(k, e) =>
        var c := Get(before, k);
        assert w(c + [e]) == w(c) + w([e]);
        assert w(Arrivals(run)) == w(Arrivals(Front(run))) + w([e]);
        TotalRemove(after, w, k);
        if k in before {
          TotalRemove(before, w, k);
          assert after - {k} == before - {k};
        } else {
          assert after - {k} == before;
        }
      case Sweep(now) =>
        TotalUnion(after, before - after.Keys, w);
        assert after + (before - after.Keys) == before;
        assert Arrivals(run) == Arrivals(Front(run));
    }
  }

  function Packets(c: Conversation): nat {
    |c|
  }

  lemma PacketsAdditive()
    ensures Additive(Packets)
  {
  }

  lemma BytesAdditive()
    ensures Additive(Bytes)
  {
    forall c: Conversation, e
      ensures Bytes(c + [e]) == Bytes(c) + Bytes([e])
    {
      FrontLast(c, e);
      FrontLast([], e);
      assert [] + [e] == [e];
    }
  }

  lemma WrapSum(x: nat, y: nat, y': nat)
    requires U64(y) == U64(y')
    ensures U64(U64(x) + y') == U64(x + y)
  {
    U64Add(x, y');
    U64Add(y, x);
    U64Add(y', x);
  }

  // -------------------------------------------------------------------- clock

  /**
   * Clock readings: at[i] is when step i holds the lock. A sweep reads the clock under the lock;
   * processEvent reads it at most delay earlier, after the previous event was finished.
   */
  predicate Timely(run: Run, at: seq<Time>, delay: nat) {
    && |at| == |run|
    && (forall i, j | 0 <= i <= j < |run| :: at[i] <= at[j])
    && (forall i | 0 <= i < |run| :: run[i].Sweep? ==> run[i].now == at[i])
    && (forall i | 0 <= i < |run| :: run[i].Arrive? ==> at[i] - delay <= run[i].e.now <= at[i])
    && (forall i, j | 0 <= i < j < |run| && run[i].Arrive? && run[j].Arrive? :: at[i] <= run[j].e.now)
  }

  /** One more critical section at time t keeps the run timely. */
  lemma TimelySnoc(run: Run, at: seq<Time>, delay: nat, step: Step, t: Time, delay': nat)
    requires Timely(run, at, delay) && delay <= delay' && forall i | 0 <= i < |at| :: at[i] <= t
    requires step.Sweep? ==> step.now == t
    requires step.Arrive? ==> t - delay' <= step.e.now <= t
    requires step.Arrive? ==> forall i | 0 <= i < |run| && run[i].Arrive? :: at[i] <= step.e.now
    ensures Timely(run + [step], at + [t], delay')
  {
  }

  predicate Ordered(c: Conversation) {
    forall i, j | 0 <= i <= j < |c| :: c[i].now <= c[j].now
  }

  /** A sweep happened, or the run started, at most period before time t. */
  predicate SweptWithin(run: Run, at: seq<Time>, t: Time, period: nat)
    requires |at| == |run|
  {
    || (forall i | 0 <= i < |run| :: t - at[i] <= period)
    || (exists j | 0 <= j < |run| :: run[j].Sweep? && t - at[j] <= period)
  }

  /** Step i delivered packet e. */
  predicate Delivered(run: Run, e: Stamped, i: nat) {
    i < |run| && run[i].Arrive? && run[i].e == e
  }

  lemma TimelyPrefix(run: Run, at: seq<Time>, delay: nat)
    requires run != [] && Timely(run, at, delay)
    ensures Timely(Front(run), at[..|run| - 1], delay)
  {
  }

  /** Flows list their packets in time order, and their latest packet is one of the run. */
  lemma {:induction false} LiveClock(run: Run, at: seq<Time>, delay: nat, timeout: Time, k: string) returns (i: nat)
    requires Timely(run, at, delay) && k in Live(run, timeout)
    ensures Ordered(Live(run, timeout)[k])
    ensures Delivered(run, Last(Live(run, timeout)[k]), i)
    decreases |run|
  {
    var n := |run| - 1;
    var before, c := Live(Front(run), timeout), Live(run, timeout)[k];
    TimelyPrefix(run, at, delay);
    if k in before {
      i := LiveClock(Front(run), at[..n], delay, timeout, k);
      assert Last(before[k]).now <= at[i];
    }
    if IsArrival(run[n], k) {
      assert c == Get(before, k) + [run[n].e];
      i := n;
    }
  }

  /** No sweep so far has seen the latest packet of a live flow older than the timeout (or the lock delay). */
  lemma {:induction false} LiveIdleBound(run: Run, at: seq<Time>, delay: nat, timeout: Time, k: string, j: nat)
    requires Timely(run, at, delay) && k in Live(run, timeout)
    requires j < |run| && run[j].Sweep?
    ensures at[j] - Last(Live(run, timeout)[k]).now <= (if timeout >= delay then timeout else delay)
    decreases |run|
  {
    var n := |run| - 1;
    var before := Live(Front(run), timeout);
    TimelyPrefix(run, at, delay);
    if IsArrival(run[n], k) {
      assert Last(Live(run, timeout)[k]) == run[n].e;
    } else if j < n {
      assert Front(run)[j] == run[j];
      LiveIdleBound(Front(run), at[..n], delay, timeout, k, j);
    }
  }

  /** FirstPacketTime <= LastPacketTime in every live flow. */
  lemma FirstBeforeLast(run: Run, at: seq<Time>, delay: nat, timeout: Time, k: string)
    requires Timely(run, at, delay) && k in Live(run, timeout)
    ensures var c := Live(run, timeout)[k];
            CountersOf(c[0], c).firstPacketTime <= CountersOf(c[0], c).lastPacketTime
  {
    var i := LiveClock(run, at, delay, timeout, k);
  }

  /** No live flow has been idle longer than the sweep period plus the timeout (or the lock delay). */
  lemma StalenessBound(run: Run, at: seq<Time>, delay: nat, timeout: Time, k: string, t: Time, period: nat)
    requires Timely(run, at, delay) && k in Live(run, timeout)
    requires forall i | 0 <= i < |run| :: at[i] <= t
    requires SweptWithin(run, at, t, period)
    ensures t - Last(Live(run, timeout)[k]).now <= period + (if timeout >= delay then timeout else delay)
  {
    var i := LiveClock(run, at, delay, timeout, k);
    if j :| 0 <= j < |run| && run[j].Sweep? && t - at[j] <= period {
      LiveIdleBound(run, at, delay, timeout, k, j);
    }
  }
}
