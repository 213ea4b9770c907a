/**
 * internal/monitor/monitor.go readLoop, the bounded event channel, and aggregateLoop with its
 * sweeper, as a state machine over every interleaving of the goroutines.
 */
module Pipeline {
  import opened Base
  import opened Packet
  import opened Conversations
  import opened Runs
  import opened KernelRecord
  import FlowProperties
  import Aggregator

  const CHANNEL_CAPACITY: nat := 10000

  type Sample = Octets

  /** Where readLoop is: at the top, blocked in Read, holding a sample, holding an event, returned. */
  datatype Reader =
    | AtTop
    | Reading
    | HasSample(sample: Sample)
    | HasEvent(sample: Sample, evt: PacketEvent)
    | ReaderDone

  /**
   * aggregateLoop waits, holds a received event, has read the clock for it and is on its way to the
   * table's lock, or returned.
   */
  datatype Consumer = Waiting | Holding(evt: PacketEvent) | Locking(evt: PacketEvent, now: Time) | ConsumerDone

  /** What became of a sample that was read. */
  datatype Fate = Accepted | Malformed | Dropped | LostAtStop

  datatype Entry = Entry(sample: Sample, fate: Fate)

  datatype State = State(
    reader: Reader,
    consumer: Consumer,
    channel: seq<PacketEvent>,
    readerStopped: bool,
    aggregatorStopped: bool,
    sweeperDone: bool,
    droppedInUserspace: uint64,
    clock: Time,
    run: Run,
    at: seq<Time>,
    samples: seq<Sample>,
    log: seq<Entry>)

  const INITIAL: State := State(AtTop, Waiting, [], false, false, false, 0, ZERO_TIME, [], [], [], [])

  datatype Action =
    | SeeStop | StartRead | ReadClosed | ReadError | ReadSample(sample: Sample)
    | Parse | Send | GiveUp | Drop
    | StopReader | StopAggregator
    | ConsumerReturns | Receive | ReadClock | Process
    | Tick | SweeperReturns
    | TimePasses(now: Time)

  /** A select takes its default branch only when no other case is ready. */
  predicate Enabled(s: State, a: Action) {
    match a
    case SeeStop => s.reader.AtTop? && s.readerStopped
    case StartRead => s.reader.AtTop? && !s.readerStopped
    case ReadClosed => s.reader.Reading? && s.readerStopped
    case ReadError => s.reader.Reading?
    case ReadSample(_) => s.reader.Reading?
    case Parse => s.reader.HasSample?
    case Send => s.reader.HasEvent? && |s.channel| < CHANNEL_CAPACITY
    case GiveUp => s.reader.HasEvent? && s.readerStopped
    case Drop => s.reader.HasEvent? && |s.channel| >= CHANNEL_CAPACITY && !s.readerStopped
    case StopReader => true
    case StopAggregator => true
    case ConsumerReturns => s.consumer.Waiting? && s.aggregatorStopped
    case Receive => s.consumer.Waiting? && s.channel != []
    case ReadClock => s.consumer.Holding?
    case Process => s.consumer.Locking?
    case Tick => !s.sweeperDone
    case SweeperReturns => !s.sweeperDone && s.aggregatorStopped
    case TimePasses(now) => s.clock <= now
  }

  /** The critical section of processEvent. */
  function Arrival(c: Consumer): Step
    requires c.Locking?
  {
    Arrive(FlowKeys.FlowKey(c.evt), Stamped(c.evt, c.now))
  }

  function Next(s: State, a: Action): State
    requires Enabled(s, a)
  {
    match a
    case SeeStop => s.(reader := ReaderDone)
    case StartRead => s.(reader := Reading)
    case ReadClosed => s.(reader := ReaderDone)
    case ReadError => s.(reader := AtTop)
    case ReadSample(sample) => s.(reader := HasSample(sample), samples := s.samples + [sample])
    case Parse =>
      var sample := s.reader.sample;
      (match ParsePacketEvent(sample)
       case Parsed(evt) => s.(reader := HasEvent(sample, evt))
       case ShortSample(_) => s.(reader := AtTop, log := s.log + [Entry(sample, Malformed)]))
    case Send =>
      s.(reader := AtTop, channel := s.channel + [s.reader.evt], log := s.log + [Entry(s.reader.sample, Accepted)])
    case GiveUp => s.(reader := ReaderDone, log := s.log + [Entry(s.reader.sample, LostAtStop)])
    case Drop =>
      s.(reader := AtTop, droppedInUserspace := U64(s.droppedInUserspace + 1),
         log := s.log + [Entry(s.reader.sample, Dropped)])
    case StopReader => s.(readerStopped := true)
    case StopAggregator => s.(aggregatorStopped := true)
    case ConsumerReturns => s.(consumer := ConsumerDone)
    case Receive => s.(consumer := Holding(s.channel[0]), channel := s.channel[1..])
    case ReadClock => s.(consumer := Locking(s.consumer.evt, s.clock))
    case Process => s.(consumer := Waiting, run := s.run + [Arrival(s.consumer)], at := s.at + [s.clock])
    case Tick => s.(run := s.run + [Sweep(s.clock)], at := s.at + [s.clock])
    case SweeperReturns => s.(sweeperDone := true)
    case TimePasses(now) => s.(clock := now)
  }

  ghost predicate Reachable(s: State) {
    exists trace: seq<State> :: IsTrace(trace) && Last(trace) == s
  }

  ghost predicate Steps(s: State, s': State) {
    exists a :: Enabled(s, a) && s' == Next(s, a)
  }

  ghost predicate IsTrace(trace: seq<State>) {
    && trace != []
    && trace[0] == INITIAL
    && forall i | 0 < i < |trace| :: Steps(trace[i - 1], trace[i])
  }

  // ------------------------------------------------------------------ history

  function WithFate(log: seq<Entry>, f: Fate): seq<Sample> {
    if log == [] then []
    else WithFate(Front(log), f) + (if Last(log).fate == f then [Last(log).sample] else [])
  }

  /** The events of well-formed samples, in order. */
  function EventsOf(samples: seq<Sample>): seq<PacketEvent> {
    if samples == [] then []
    else
      EventsOf(Front(samples)) +
      match ParsePacketEvent(Last(samples))
      case Parsed(evt) => [evt]
      case ShortSample(_) => []
  }

  function SamplesOf(log: seq<Entry>): seq<Sample> {
    if log == [] then [] else SamplesOf(Front(log)) + [Last(log).sample]
  }

  function ProcessedEvents(run: Run): seq<PacketEvent> {
    if run == [] then []
    else ProcessedEvents(Front(run)) + (if Last(run).Arrive? then [Last(run).e.evt] else [])
  }

  /** The sample readLoop is working on. */
  function InHand(r: Reader): seq<Sample> {
    if r.HasSample? || r.HasEvent? then [r.sample] else []
  }

  function Received(c: Consumer): seq<PacketEvent> {
    if c.Holding? || c.Locking? then [c.evt] else []
  }

  // ---------------------------------------------------------------- invariant

  ghost predicate Inv(s: State) {
    && |s.channel| <= CHANNEL_CAPACITY
    && s.samples == SamplesOf(s.log) + InHand(s.reader)
    && ProcessedEvents(s.run) + Received(s.consumer) + s.channel == EventsOf(WithFate(s.log, Accepted))
    && (s.reader.HasEvent? ==> ParsePacketEvent(s.reader.sample) == Parsed(s.reader.evt))
    && s.droppedInUserspace == U64(|WithFate(s.log, Dropped)|)
    && |WithFate(s.log, LostAtStop)| <= (if s.reader.ReaderDone? then 1 else 0)
    && (forall i | 0 <= i < |s.log| :: s.log[i].fate == Malformed <==> |s.log[i].sample| < RECORD_SIZE)
  }

  lemma LogSnoc(log: seq<Entry>, e: Entry)
    ensures SamplesOf(log + [e]) == SamplesOf(log) + [e.sample]
    ensures forall f ::
              WithFate(log + [e], f) == if e.fate == f then WithFate(log, f) + [e.sample] else WithFate(log, f)
  {
    FrontLast(log, e);
  }

  lemma EventsSnoc(samples: seq<Sample>, sample: Sample)
    ensures EventsOf(samples + [sample]) ==
            EventsOf(samples) + (match ParsePacketEvent(sample) case Parsed(evt) => [evt] case ShortSample(_) => [])
  {
    hide ParsePacketEvent;
    FrontLast(samples, sample);
  }

  lemma RunSnoc(run: Run, step: Step)
    ensures ProcessedEvents(run + [step]) == ProcessedEvents(run) + (if step.Arrive? then [step.e.evt] else [])
  {
    FrontLast(run, step);
  }

  /** The reader's moves keep the invariant. */
  lemma ReaderKeepsInv(s: State, a: Action)
    requires Inv(s) && Enabled(s, a)
    requires a.Parse? || a.Send? || a.GiveUp? || a.Drop?
    ensures Inv(Next(s, a))
  {
    hide ParsePacketEvent, EventsOf, WithFate, SamplesOf, ProcessedEvents, U64;
    var sample := s.reader.sample;
    ParseRejectsIffShort(sample);
    match a
    case Parse =>
      LogSnoc(s.log, Entry(sample, Malformed));
    case Send =>
      LogSnoc(s.log, Entry(sample, Accepted));
      EventsSnoc(WithFate(s.log, Accepted), sample);
      assert ProcessedEvents(s.run) + Received(s.consumer) + (s.channel + [s.reader.evt]) ==
             ProcessedEvents(s.run) + Received(s.consumer) + s.channel + [s.reader.evt];
    case GiveUp =>
      LogSnoc(s.log, Entry(sample, LostAtStop));
    case Drop =>
      LogSnoc(s.log, Entry(sample, Dropped));
      U64Add(|WithFate(s.log, Dropped)|, 1);
  }

  /** All other moves keep it, whatever the interleaving. */
  lemma OthersKeepInv(s: State, a: Action)
    requires Inv(s) && Enabled(s, a)
    requires !(a.Parse? || a.Send? || a.GiveUp? || a.Drop?)
    ensures Inv(Next(s, a))
  {
    hide ParsePacketEvent, EventsOf, WithFate, SamplesOf, ProcessedEvents, U64, FlowKeys.FlowKey;
    match a
    case Receive =>
      assert s.channel == [s.channel[0]] + s.channel[1..];
    case Process =>
      RunSnoc(s.run, Arrival(s.consumer));
    case Tick =>
      RunSnoc(s.run, Sweep(s.clock));
      assert ProcessedEvents(s.run) + [] == ProcessedEvents(s.run);
    case ReadSample(sample) =>
      assert SamplesOf(s.log) + [sample] == SamplesOf(s.log) + [] + [sample];
    case _ =>
  }

  lemma StepKeepsInv(s: State, s': State)
    requires Inv(s) && Steps(s, s')
    ensures Inv(s')
  {
    hide Inv, FlowKeys.FlowKey, ParsePacketEvent;
    var a :| Enabled(s, a) && s' == Next(s, a);
    if a.Parse? || a.Send? || a.GiveUp? || a.Drop? {
      ReaderKeepsInv(s, a);
    } else {
      OthersKeepInv(s, a);
    }
  }

  lemma {:induction false} TraceKeepsInv(trace: seq<State>)
    requires IsTrace(trace)
    ensures Inv(Last(trace))
    decreases |trace|
  {
    if |trace| == 1 {
      assert EventsOf(WithFate([], Accepted)) == [];
      assert Inv(INITIAL);
    } else {
      hide Inv, Steps;
      assert IsTrace(Front(trace));
      TraceKeepsInv(Front(trace));
      assert Steps(trace[|trace| - 2], trace[|trace| - 1]);
      StepKeepsInv(Last(Front(trace)), Last(trace));
    }
  }

  // -------------------------------------------------------------------- clock

  /** The longest time any processed event has waited for the lock. */
  function LockDelay(run: Run, at: seq<Time>): nat
    requires |at| == |run|
  {
    if run == [] then 0
    else
      var before := LockDelay(Front(run), Front(at));
      if Last(run).Arrive? && Last(at) - Last(run).e.now > before then Last(at) - Last(run).e.now else before
  }

  /** Every critical section so far happened at a clock reading, and the run is timely. */
  ghost predicate Clocked(s: State) {
    && |s.at| == |s.run| && Timely(s.run, s.at, LockDelay(s.run, s.at))
    && (forall i | 0 <= i < |s.at| :: s.at[i] <= s.clock)
    && (s.consumer.Locking? ==>
          && s.consumer.now <= s.clock
          && forall i | 0 <= i < |s.run| && s.run[i].Arrive? :: s.at[i] <= s.consumer.now)
  }

  /** A critical section at the current reading of the clock. */
  lemma SectionTimely(run: Run, at: seq<Time>, step: Step, clock: Time)
    requires |at| == |run| && Timely(run, at, LockDelay(run, at)) && forall i | 0 <= i < |at| :: at[i] <= clock
    requires step.Sweep? ==> step.now == clock
    requires step.Arrive? ==> step.e.now <= clock
    requires step.Arrive? ==> forall i | 0 <= i < |run| && run[i].Arrive? :: at[i] <= step.e.now
    ensures Timely(run + [step], at + [clock], LockDelay(run + [step], at + [clock]))
    ensures forall i | 0 <= i < |at + [clock]| :: (at + [clock])[i] <= clock
  {
    hide Timely;
    FrontLast(run, step);
    FrontLast(at, clock);
    TimelySnoc(run, at, LockDelay(run, at), step, clock, LockDelay(run + [step], at + [clock]));
  }

  lemma StepKeepsClocked(s: State, a: Action)
    requires Clocked(s) && Enabled(s, a)
    ensures Clocked(Next(s, a))
  {
    hide ParsePacketEvent, FlowKeys.FlowKey, Timely, U64, LockDelay;
    if a.Process? {
      SectionTimely(s.run, s.at, Arrival(s.consumer), s.clock);
    } else if a.Tick? {
      SectionTimely(s.run, s.at, Sweep(s.clock), s.clock);
    }
  }

  lemma {:induction false} TraceKeepsClocked(trace: seq<State>)
    requires IsTrace(trace)
    ensures Clocked(Last(trace))
    decreases |trace|
  {
    hide Clocked;
    if |trace| == 1 {
      InitialClocked();
    } else {
      assert IsTrace(Front(trace));
      TraceKeepsClocked(Front(trace));
      assert Steps(trace[|trace| - 2], trace[|trace| - 1]);
      var a :| Enabled(Last(Front(trace)), a) && Last(trace) == Next(Last(Front(trace)), a);
      StepKeepsClocked(Last(Front(trace)), a);
    }
  }

  lemma InitialClocked()
    ensures Clocked(INITIAL)
  {
  }

  /** The clock readings of every reachable state are ordered as `Timely` says, whatever the interleaving. */
  lemma ReachableTimely(s: State)
    requires Reachable(s)
    ensures |s.at| == |s.run| && Timely(s.run, s.at, LockDelay(s.run, s.at))
    ensures forall i | 0 <= i < |s.at| :: s.at[i] <= s.clock
  {
    hide Timely;
    var trace: seq<State> :| IsTrace(trace) && Last(trace) == s;
    TraceKeepsClocked(trace);
  }

  /** In every reachable state FirstPacketTime <= LastPacketTime in every live flow. */
  lemma FirstNeverAfterLast(s: State, timeout: Time, k: string)
    requires Reachable(s) && k in Live(s.run, timeout)
    ensures var c := Live(s.run, timeout)[k];
            CountersOf(c[0], c).firstPacketTime <= CountersOf(c[0], c).lastPacketTime
  {
    hide Timely, Live;
    ReachableTimely(s);
    FirstBeforeLast(s.run, s.at, LockDelay(s.run, s.at), timeout, k);
  }

  /**
   * In every reachable state whose latest sweep (or start) is at most period ago, no live flow has
   * been idle longer than period plus the timeout, or the longest wait for the lock if that is more.
   */
  lemma IdleBound(s: State, timeout: Time, k: string, period: nat)
    requires Reachable(s) && k in Live(s.run, timeout)
    requires |s.at| == |s.run|
    requires || (forall i | 0 <= i < |s.at| :: s.clock - s.at[i] <= period)
             || (exists j | 0 <= j < |s.run| :: s.run[j].Sweep? && s.clock - s.at[j] <= period)
    ensures var delay := LockDelay(s.run, s.at);
            s.clock - Last(Live(s.run, timeout)[k]).now <= period + if timeout >= delay then timeout else delay
  {
    hide Timely, Live;
    ReachableTimely(s);
    StalenessBound(s.run, s.at, LockDelay(s.run, s.at), timeout, k, s.clock, period);
  }

  // ----------------------------------------------------------------- theorems

  lemma ReachableInv(s: State)
    requires Reachable(s)
    ensures Inv(s)
  {
    var trace: seq<State> :| IsTrace(trace) && Last(trace) == s;
    TraceKeepsInv(trace);
  }

  /**
   * In every reachable state the processed events, the one in the consumer's hand and the channel
   * contents are, in order, the events of the accepted samples; the channel never overflows.
   */
  lemma OrderPreserved(s: State)
    requires Reachable(s)
    ensures ProcessedEvents(s.run) + Received(s.consumer) + s.channel == EventsOf(WithFate(s.log, Accepted))
    ensures s.samples == SamplesOf(s.log) + InHand(s.reader)
    ensures |s.channel| <= 10000
  {
    ReachableInv(s);
  }

  lemma {:induction false} FatesPartition(log: seq<Entry>)
    ensures |SamplesOf(log)| == |log| ==
            |WithFate(log, Accepted)| + |WithFate(log, Malformed)|
            + |WithFate(log, Dropped)| + |WithFate(log, LostAtStop)|
  {
    if log != [] {
      FatesPartition(Front(log));
    }
  }

  lemma {:induction false} AcceptedAreWellFormed(log: seq<Entry>)
    requires forall i | 0 <= i < |log| :: log[i].fate == Malformed <==> |log[i].sample| < RECORD_SIZE
    ensures |EventsOf(WithFate(log, Accepted))| == |WithFate(log, Accepted)|
  {
    hide ParsePacketEvent;
    if log != [] {
      var init, e := Front(log), Last(log);
      assert log == init + [e];
      LogSnoc(init, e);
      assert forall i | 0 <= i < |init| :: init[i] == log[i];
      AcceptedAreWellFormed(init);
      ParseRejectsIffShort(e.sample);
      EventsSnoc(WithFate(init, Accepted), e.sample);
    }
  }

  lemma {:induction false} ProcessedAreArrivals(run: Run)
    ensures |ProcessedEvents(run)| == |Arrivals(run)|
    ensures forall i | 0 <= i < |Arrivals(run)| :: ProcessedEvents(run)[i] == Arrivals(run)[i].evt
  {
    if run != [] {
      ProcessedAreArrivals(Front(run));
    }
  }

  /**
   * Every sample read is processed, received, queued, malformed, dropped, or (at most one of them)
   * in the reader's hand or lost at stop; the drop counter shows the drops modulo 2^64.
   */
  lemma PipelineConservation(s: State)
    requires Reachable(s)
    ensures |s.samples| ==
            |Arrivals(s.run)| + |Received(s.consumer)| + |s.channel| + |WithFate(s.log, Malformed)|
            + |WithFate(s.log, Dropped)| + |WithFate(s.log, LostAtStop)| + |InHand(s.reader)|
    ensures |WithFate(s.log, LostAtStop)| + |InHand(s.reader)| <= 1
    ensures s.droppedInUserspace == U64(|WithFate(s.log, Dropped)|)
  {
    hide U64, ParsePacketEvent, WithFate, SamplesOf, EventsOf, Arrivals, ProcessedEvents;
    ReachableInv(s);
    FatesPartition(s.log);
    AcceptedAreWellFormed(s.log);
    ProcessedAreArrivals(s.run);
  }

  // --------------------------------------------------------------------- stop

  /** Samples read, and the one that a Read in progress may still deliver. */
  function ReadAtMost(s: State): nat {
    |s.samples| + if s.reader.Reading? then 1 else 0
  }

  /** A stop request stands, and after it the reader begins no further Read. */
  lemma StopEndsReading(s: State, a: Action)
    requires s.readerStopped && Enabled(s, a)
    ensures Next(s, a).readerStopped && |s.samples| <= ReadAtMost(Next(s, a)) <= ReadAtMost(s)
  {
    hide ParsePacketEvent, FlowKeys.FlowKey;
  }

  /** A stopped reader is never stuck: wherever it is, its next move leads towards its return. */
  lemma StoppedReaderReturns(s: State)
    ensures Next(s, StopReader).readerStopped && Next(s, StopReader).reader == s.reader
    ensures s.readerStopped && s.reader.AtTop? ==> Enabled(s, SeeStop) && Next(s, SeeStop).reader.ReaderDone?
    ensures s.readerStopped && s.reader.Reading? ==> Enabled(s, ReadClosed) && Next(s, ReadClosed).reader.ReaderDone?
    ensures s.readerStopped && s.reader.HasEvent? ==> Enabled(s, GiveUp) && Next(s, GiveUp).reader.ReaderDone?
    ensures s.reader.HasSample? ==>
              Enabled(s, Parse) && (Next(s, Parse).reader.AtTop? || Next(s, Parse).reader.HasEvent?)
  {
    hide ParsePacketEvent;
  }

  /** A reader that has returned reads, sends, drops and logs nothing more. */
  lemma ReaderReturnIsFinal(s: State, a: Action)
    requires Enabled(s, a) && s.reader.ReaderDone?
    ensures var s' := Next(s, a);
            && s'.reader.ReaderDone? && s'.samples == s.samples && s'.log == s.log
            && |s'.channel| <= |s.channel| && s'.droppedInUserspace == s.droppedInUserspace
  {
    hide ParsePacketEvent, FlowKeys.FlowKey;
  }

  /** An aggregator loop that has returned receives and processes nothing more. */
  lemma ConsumerReturnIsFinal(s: State, a: Action)
    requires Enabled(s, a) && s.consumer.ConsumerDone?
    ensures var s' := Next(s, a);
            s'.consumer.ConsumerDone? && Arrivals(s'.run) == Arrivals(s.run) && |s'.channel| >= |s.channel|
  {
    hide ParsePacketEvent, FlowKeys.FlowKey, Arrivals;
    if a.Tick? {
      SweepArrivesNothing(s.run, s.clock);
    }
  }

  /** A sweeper that has returned sweeps no more. */
  lemma SweeperReturnIsFinal(s: State, a: Action)
    requires Enabled(s, a) && s.sweeperDone
    ensures Next(s, a).sweeperDone && (Next(s, a).run == s.run || Last(Next(s, a).run).Arrive?)
  {
    hide ParsePacketEvent, FlowKeys.FlowKey;
  }

  /** Neither loop of the aggregator returns before it is told to stop. */
  lemma ReturnsOnlyWhenStopped(s: State, a: Action)
    requires Enabled(s, a) && !s.aggregatorStopped
    ensures Next(s, a).sweeperDone == s.sweeperDone
    ensures Next(s, a).consumer.ConsumerDone? <==> s.consumer.ConsumerDone?
  {
    hide ParsePacketEvent, FlowKeys.FlowKey;
  }

  lemma SweepArrivesNothing(run: Run, now: Time)
    ensures Arrivals(run + [Sweep(now)]) == Arrivals(run)
  {
    FrontLast(run, Sweep(now));
  }

  // -------------------------------------------------------------------- drops

  /** A drop happens only when a full channel's worth of samples has been accepted. */
  ghost predicate DropsAfterFull(s: State) {
    WithFate(s.log, Dropped) != [] ==> |WithFate(s.log, Accepted)| >= CHANNEL_CAPACITY
  }

  lemma StepKeepsDropsAfterFull(s: State, a: Action)
    requires Inv(s) && DropsAfterFull(s) && Enabled(s, a)
    ensures DropsAfterFull(Next(s, a))
  {
    hide ParsePacketEvent, EventsOf, WithFate, SamplesOf, ProcessedEvents, U64, FlowKeys.FlowKey;
    match a
    case Parse =>
      LogSnoc(s.log, Entry(s.reader.sample, Malformed));
    case Send =>
      LogSnoc(s.log, Entry(s.reader.sample, Accepted));
    case GiveUp =>
      LogSnoc(s.log, Entry(s.reader.sample, LostAtStop));
    case Drop =>
      LogSnoc(s.log, Entry(s.reader.sample, Dropped));
      AcceptedAreWellFormed(s.log);
    case _ =>
  }

  lemma {:induction false} TraceKeepsDropsAfterFull(trace: seq<State>)
    requires IsTrace(trace)
    ensures DropsAfterFull(Last(trace))
    decreases |trace|
  {
    hide Inv;
    if |trace| > 1 {
      hide DropsAfterFull;
      assert IsTrace(Front(trace));
      TraceKeepsDropsAfterFull(Front(trace));
      TraceKeepsInv(Front(trace));
      assert Steps(trace[|trace| - 2], trace[|trace| - 1]);
      var a :| Enabled(Last(Front(trace)), a) && Last(trace) == Next(Last(Front(trace)), a);
      StepKeepsDropsAfterFull(Last(Front(trace)), a);
    }
  }

  /** Once there are drops, at most the samples beyond the first 10000 have been dropped. */
  lemma DropsBounded(s: State)
    requires Reachable(s)
    ensures |WithFate(s.log, Dropped)| > 0 ==> |WithFate(s.log, Dropped)| + 10000 <= |s.samples|
  {
    hide ParsePacketEvent, WithFate, SamplesOf, EventsOf, ProcessedEvents;
    var trace: seq<State> :| IsTrace(trace) && Last(trace) == s;
    TraceKeepsDropsAfterFull(trace);
    TraceKeepsInv(trace);
    FatesPartition(s.log);
  }

  lemma ReachNext(s: State, a: Action)
    requires Reachable(s) && Enabled(s, a)
    ensures Reachable(Next(s, a))
  {
    hide ParsePacketEvent, FlowKeys.FlowKey;
    var trace: seq<State> :| IsTrace(trace) && Last(trace) == s;
    var longer := trace + [Next(s, a)];
    forall i | 0 < i < |longer|
      ensures Steps(longer[i - 1], longer[i])
    {
      assert i < |trace| ==> Steps(trace[i - 1], trace[i]);
    }
    assert IsTrace(longer) && Last(longer) == Next(s, a);
  }

  const SAMPLE: Sample := seq(RECORD_SIZE, _ => 0)

  /** readLoop is about to read, nobody has stopped it, and n samples have been read. */
  ghost predicate ReadSoFar(s: State, n: nat) {
    Reachable(s) && s.reader.AtTop? && !s.readerStopped && |s.samples| == n
  }

  /** readLoop reads and parses one more sample. */
  lemma ReadOne(s: State, n: nat, sample: Sample) returns (s': State)
    requires ReadSoFar(s, n)
    ensures Reachable(s') && |s'.samples| == n + 1 && !s'.readerStopped
    ensures s'.channel == s.channel && s'.droppedInUserspace == s.droppedInUserspace
    ensures if |sample| < RECORD_SIZE then s'.reader.AtTop? else s'.reader.HasEvent?
  {
    hide ParsePacketEvent, Reachable, FlowKeys.FlowKey;
    ParseRejectsIffShort(sample);
    ReachNext(s, StartRead);
    var reading := Next(s, StartRead);
    ReachNext(reading, ReadSample(sample));
    var got := Next(reading, ReadSample(sample));
    ReachNext(got, Parse);
    s' := Next(got, Parse);
  }

  /** The consumer need not run: the channel can fill up. */
  lemma {:induction false} ChannelFills(n: nat) returns (s: State)
    requires n <= CHANNEL_CAPACITY
    ensures ReadSoFar(s, n) && |s.channel| == n && s.droppedInUserspace == 0
    decreases n
  {
    hide FlowKeys.FlowKey;
    if n == 0 {
      s := INITIAL;
      assert IsTrace([INITIAL]) && Last([INITIAL]) == INITIAL;
    } else {
      hide Reachable;
      var before := ChannelFills(n - 1);
      var full := ReadOne(before, n - 1, SAMPLE);
      ReachNext(full, Send);
      s := Next(full, Send);
    }
  }

  /** After 10000 samples the next one can be dropped, and more samples change nothing about that. */
  lemma {:induction false} DropHappens(n: nat) returns (s: State)
    requires n > CHANNEL_CAPACITY
    ensures ReadSoFar(s, n) && s.droppedInUserspace == 1
    decreases n
  {
    hide Reachable, FlowKeys.FlowKey;
    if n == CHANNEL_CAPACITY + 1 {
      var full := ChannelFills(n - 1);
      var over := ReadOne(full, n - 1, SAMPLE);
      ReachNext(over, Drop);
      s := Next(over, Drop);
    } else {
      var before := DropHappens(n - 1);
      s := ReadOne(before, n - 1, []);
    }
  }

  /**
   * The reader's drop counter can show something other than zero, which is all the dashboard ever
   * displays, after n samples exactly when n is more than the channel holds.
   */
  lemma DropsVisibleIff(n: nat)
    ensures (exists s :: Reachable(s) && |s.samples| == n && s.droppedInUserspace != 0) <==> n > 10000
  {
    hide Reachable, WithFate;
    if n > CHANNEL_CAPACITY {
      var s := DropHappens(n);
    }
    forall s | Reachable(s) && |s.samples| == n && s.droppedInUserspace != 0
      ensures n > CHANNEL_CAPACITY
    {
      PipelineConservation(s);
      DropsBounded(s);
    }
  }

  /**
   * With an event in hand the reader sends it exactly while fewer than 10000 events are queued, and
   * drops it exactly when 10000 are and nobody has stopped it.
   */
  lemma SendOrDrop(s: State)
    requires Reachable(s) && s.reader.HasEvent?
    ensures Enabled(s, Send) <==> |s.channel| < 10000
    ensures Enabled(s, Drop) <==> |s.channel| == 10000 && !s.readerStopped
    ensures Enabled(s, Send) ==> Next(s, Send).channel == s.channel + [s.reader.evt]
    ensures Enabled(s, Drop) ==>
              && Next(s, Drop).channel == s.channel
              && Next(s, Drop).droppedInUserspace == (s.droppedInUserspace + 1) % 18446744073709551616
  {
    hide ParsePacketEvent, EventsOf, WithFate, SamplesOf, ProcessedEvents, Reachable;
    ReachableInv(s);
  }

  /** The samples thrown away as malformed are exactly those of fewer than 36 bytes. */
  lemma MalformedIffShort(s: State, i: nat)
    requires Reachable(s) && i < |s.log|
    ensures s.log[i].fate == Malformed <==> |s.log[i].sample| < 36
  {
    ReachableInv(s);
  }

  /**
   * The aggregator's own counters against the samples read: TotalPackets leaves out exactly the
   * samples that are queued, held, malformed, dropped or lost; the drop counter it displays is zero
   * and so agrees with the reader's at least until 10001 samples have been read (DropsVisibleIff).
   */
  lemma TotalsAgainstSamples(s: State, a: Aggregator.FlowAggregator)
    requires Reachable(s) && a.Valid() && a.run == s.run
    ensures var elsewhere := |Received(s.consumer)| + |s.channel| + |WithFate(s.log, Malformed)|
                             + |WithFate(s.log, Dropped)| + |WithFate(s.log, LostAtStop)| + |InHand(s.reader)|;
            elsewhere <= |s.samples| && a.totalPackets == U64(|s.samples| - elsewhere)
    ensures a.droppedPackets == 0
    ensures |s.samples| <= 10000 ==> a.droppedPackets == s.droppedInUserspace
  {
    PipelineConservation(s);
    DropsBounded(s);
    assert a.Totalled();
  }

  // -------------------------------------------------- what the flows ever see

  lemma {:induction false} EventsHaveNoPayload(samples: seq<Sample>)
    ensures forall e <- EventsOf(samples) :: e.payload == []
  {
    hide ParsePacketEvent;
    if samples != [] {
      EventsHaveNoPayload(Front(samples));
      ParseRejectsIffShort(Last(samples));
    }
  }

  lemma {:induction false} LivePacketsArrived(run: Run, timeout: Time, k: string, e: Stamped)
    requires k in Live(run, timeout) && e in Live(run, timeout)[k]
    ensures e in Arrivals(run)
    decreases |run|
  {
    var before := Live(Front(run), timeout);
    if k in before && e in before[k] {
      LivePacketsArrived(Front(run), timeout, k, e);
    }
  }

  /**
   * The kernel record carries no payload, so in every reachable state of the capture pipeline the
   * DNS tally of every live flow is empty: DNS tracking never starts.
   */
  lemma CaptureNeverTalliesDns(s: State, timeout: Time, k: string)
    requires Reachable(s) && k in Live(s.run, timeout)
    ensures DnsTallyOf(Live(s.run, timeout)[k]) == DnsTally([], map[], 0, ZERO_TIME)
  {
    hide ParsePacketEvent, EventsOf, WithFate, ProcessedEvents, Arrivals, Live, DnsTallyOf;
    ReachableInv(s);
    ProcessedAreArrivals(s.run);
    var accepted := EventsOf(WithFate(s.log, Accepted));
    EventsHaveNoPayload(WithFate(s.log, Accepted));
    var c := Live(s.run, timeout)[k];
    forall e | e in c
      ensures e.evt.payload == []
    {
      LivePacketsArrived(s.run, timeout, k, e);
      var i :| 0 <= i < |Arrivals(s.run)| && Arrivals(s.run)[i] == e;
      assert accepted[i] == ProcessedEvents(s.run)[i];
    }
    FlowProperties.NoPayloadNoQueries(c);
  }
}
