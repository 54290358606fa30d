// The in-flight probe table as a state machine: one event for each atomic action (a lock region, a
// channel operation, a clock reading, a metric update) of Probe, writerLoop, readerLoop and
// cleanupLoop, in every interleaving. Instants are nanoseconds on one clock that never goes back.
module ProbeTable {
  import opened Wrappers
  import opened GoNumbers
  import opened Directives
  import opened CaracalRecords

  // ----- state -----

  /** A result in a channel. The key it was searched under, its record and the call it answers are history. */
  datatype Delivery = Delivery(result: ProbeResult, key: ProbeKey, record: Record, cause: nat)

  /** How a call of Probe ends. `blocker` is the call whose entry it collided with. */
  datatype Outcome = Duplicate(blocker: nat) | Replied(delivery: Delivery) | TimedOut | Cancelled

  datatype Phase =
    | Arrived                        // clock read, lock not yet taken
    | Registered                     // entry made, at the first select
    | Enqueued                       // request queued, timer not yet started
    | Waiting(started: int)          // at the second select, timer running
    | Leaving(outcome: Outcome)      // deferred function about to take the lock
    | Discounting(outcome: Outcome)  // entry found and deleted, gauge not yet decremented
    | Rejecting(blocker: nat)        // key found in use, DuplicateProbesTotal not yet incremented
    | Returned(outcome: Outcome)

  /** One call of Probe: its arguments and locals. Its index in `State.calls` names its result channel too. */
  datatype Call = Call(
    pd: Directive,
    ttl: uint8,
    queued: int,                // now := time.Now()
    key: ProbeKey,
    locked: int,                // when the lock was taken to register
    phase: Phase,
    inbox: Option<Delivery>,    // resultCh, of capacity one
    delivered: seq<Delivery>)   // everything ever sent on resultCh
  {
    /** Between registration and the deferred delete. */
    predicate Live() {
      phase.Registered? || phase.Enqueued? || phase.Waiting? || phase.Leaving?
    }

    /** Its key was in use when it took the lock. */
    predicate Rejected() {
      phase.Rejecting? || (phase.Returned? && phase.outcome.Duplicate?)
    }

    predicate HasRegistered() {
      !phase.Arrived? && !Rejected()
    }
  }

  datatype InFlightProbe = InFlightProbe(resultCh: nat, queuedTime: int)

  datatype ProbeRequest = ProbeRequest(pd: Directive, ttl: uint8, resultCh: nat)

  /** A request whose write failed is gone with the writer. */
  datatype Writer = WriterReady | WriterHolding(request: ProbeRequest) | WriterStopped(gone: Option<ProbeRequest>)

  /** `next` counts the offsets already looked up. */
  datatype Reader =
    | Reading
    | Searching(key: ProbeKey, result: ProbeResult, record: Record, cause: nat, next: nat)
    | Delivering(target: nat, delivery: Delivery)

  /** After a sweep that found something the two metrics are updated one after the other. */
  datatype Cleaner =
    | CleanerIdle
    | CleanerSweeping(cutoff: int)
    | CleanerReporting(cleaned: nat)
    | CleanerLowering(cleaned: nat)
    | CleanerStopped

  /** The metrics of the table, and what they are measured against (`registered` and below are history). */
  datatype Meters = Meters(
    inFlightProbes: int,
    duplicateProbes: nat,
    staleProbesCleaned: nat,
    registered: nat,
    ownRemovals: nat,       // deferred deletes that found an entry
    swept: nat)

  /** What became of the records read; only correlationFailures is a metric of the program. */
  datatype Tally = Tally(
    records: nat, rejected: nat, skipped: nat, delivered: nat, dropped: nat, correlationFailures: nat)

  datatype State = State(
    timeout: int,        // ProbeTimeout
    capacity: nat,       // WriteQueueSize
    now: int,
    calls: seq<Call>,
    inFlight: map<ProbeKey, InFlightProbe>,
    queue: seq<ProbeRequest>,
    writer: Writer,
    written: seq<ProbeRequest>,
    enqueued: seq<ProbeRequest>,   // every request ever queued
    reader: Reader,
    cleaner: Cleaner,
    meters: Meters,
    tally: Tally)
  {
    /** The entry under this call's key is its own. */
    predicate Owns(c: nat) {
      && c < |calls|
      && calls[c].key in inFlight
      && inFlight[calls[c].key].resultCh == c
    }
  }

  function Initial(timeout: int, capacity: nat, now: int): State {
    State(timeout, capacity, now, [], map[], [], WriterReady, [], [], Reading, CleanerIdle,
      Meters(0, 0, 0, 0, 0, 0), Tally(0, 0, 0, 0, 0, 0))
  }

  const OFFSETS: seq<int> := [0, -1, 1, -2, 2]

  const STALE_MARGIN: int := 5 * SECOND

  // ----- events -----

  datatype CallerAction =
    | Register | CountDuplicate | Enqueue | AbandonQueue | StartTimer | Receive | Expire | AbandonWait
    | Remove | Discount

  datatype WriterAction = Take | Write | FailWrite | Stop

  datatype ReaderAction =
    | Read(record: Record, line: nat)   // caracal reports on a line it was sent
    | ReadUnusable(record: Record)      // a record without usable timestamps or key
    | LookUp
    | Deliver

  datatype CleanerAction = StartSweep | Sweep | ReportSweep | LowerGauge | StopSweeping

  datatype Event =
    | Tick(to: int)
    | Arrive(pd: Directive, ttl: uint8)   // Probe is called and reads the clock
    | ByCaller(c: nat, caller: CallerAction)
    | ByWriter(writer: WriterAction)
    | ByReader(reader: ReaderAction)
    | ByCleaner(cleaner: CleanerAction)

  predicate CallerEnabled(s: State, c: nat, a: CallerAction) {
    && c < |s.calls|
    && var call := s.calls[c];
       match a
       case Register => call.phase.Arrived?
       case CountDuplicate => call.phase.Rejecting?
       case Enqueue => call.phase.Registered? && |s.queue| < s.capacity
       case AbandonQueue => call.phase.Registered?
       case StartTimer => call.phase.Enqueued?
       case Receive => call.phase.Waiting? && call.inbox.Some?
       case Expire => call.phase.Waiting? && call.phase.started + s.timeout <= s.now
       case AbandonWait => call.phase.Waiting?
       case Remove => call.phase.Leaving?
       case Discount => call.phase.Discounting?
  }

  predicate WriterEnabled(s: State, a: WriterAction) {
    match a
    case Take => s.writer.WriterReady? && s.queue != []
    case Write => s.writer.WriterHolding?
    case FailWrite => s.writer.WriterHolding?
    case Stop => s.writer.WriterReady?
  }

  predicate ReaderEnabled(s: State, a: ReaderAction) {
    match a
    case Read(record, line) =>
      && s.reader.Reading?
      && line < |s.written|
      && Echoes(record, EncodeRequest(s.written[line].pd, s.written[line].ttl))
    case ReadUnusable(record) => s.reader.Reading? && !Classify(record).Accepted?
    case LookUp => s.reader.Searching?
    case Deliver => s.reader.Delivering? && s.reader.target < |s.calls|
  }

  predicate CleanerEnabled(s: State, a: CleanerAction) {
    match a
    case StartSweep => s.cleaner.CleanerIdle?
    case Sweep => s.cleaner.CleanerSweeping?
    case ReportSweep => s.cleaner.CleanerReporting?
    case LowerGauge => s.cleaner.CleanerLowering?
    case StopSweeping => s.cleaner.CleanerIdle?
  }

  /** An event that can happen next. Contexts are cancelled, and writes fail, whenever the environment likes. */
  predicate Enabled(s: State, e: Event) {
    match e
    case Tick(to) => s.now <= to
    case Arrive(_, _) => true
    case ByCaller(c, a) => CallerEnabled(s, c, a)
    case ByWriter(a) => WriterEnabled(s, a)
    case ByReader(a) => ReaderEnabled(s, a)
    case ByCleaner(a) => CleanerEnabled(s, a)
  }

  function SetPhase(s: State, c: nat, p: Phase): (t: State)
    requires c < |s.calls|
    ensures t == s.(calls := t.calls) && |t.calls| == |s.calls|
  {
    s.(calls := s.calls[c := s.calls[c].(phase := p)])
  }

  /** Registration under the lock: a key in use rejects the call. */
  function RegisterCall(s: State, c: nat): State
    requires c < |s.calls| && s.calls[c].phase.Arrived?
  {
    var call := s.calls[c];
    if call.key in s.inFlight then
      SetPhase(s, c, Rejecting(s.inFlight[call.key].resultCh))
    else
      s.(calls := s.calls[c := call.(phase := Registered, locked := s.now)],
         inFlight := s.inFlight[call.key := InFlightProbe(c, call.queued)],
         meters := s.meters.(inFlightProbes := s.meters.inFlightProbes + 1, registered := s.meters.registered + 1))
  }

  /** The deferred delete under the lock: whatever entry is under the key goes, whoever made it. */
  function RemoveEntry(s: State, c: nat): State
    requires c < |s.calls| && s.calls[c].phase.Leaving?
  {
    var key := s.calls[c].key;
    if key in s.inFlight then
      SetPhase(s, c, Discounting(s.calls[c].phase.outcome))
      .(inFlight := s.inFlight - {key}, meters := s.meters.(ownRemovals := s.meters.ownRemovals + 1))
    else
      SetPhase(s, c, Returned(s.calls[c].phase.outcome))
  }

  /** handleResult up to the search; `cause` is the call whose request the record answers. */
  function ReadRecord(s: State, record: Record, cause: nat): State {
    var m := s.tally.(records := s.tally.records + 1);
    match Classify(record)
    case Rejected => s.(tally := m.(rejected := m.rejected + 1))
    case Skipped => s.(tally := m.(skipped := m.skipped + 1))
    case Accepted(key, result) => s.(reader := Searching(key, result, record, cause, 0), tally := m)
  }

  function SearchKey(key: ProbeKey, next: nat): ProbeKey
    requires next < |OFFSETS|
  {
    key.(correlationSecond := key.correlationSecond + OFFSETS[next])
  }

  /** One turn of the loop over the offsets, or its exit when all five have been tried. */
  function LookUpNext(s: State): State
    requires s.reader.Searching?
  {
    var Searching(key, result, record, cause, next) := s.reader;
    if next >= |OFFSETS| then
      s.(reader := Reading, tally := s.tally.(correlationFailures := s.tally.correlationFailures + 1))
    else if SearchKey(key, next) in s.inFlight then
      s.(reader := Delivering(s.inFlight[SearchKey(key, next)].resultCh, Delivery(result, key, record, cause)))
    else
      s.(reader := Searching(key, result, record, cause, next + 1))
  }

  /** The non-blocking send on the result channel found. */
  function DeliverResult(s: State): State
    requires s.reader.Delivering? && s.reader.target < |s.calls|
  {
    var Delivering(target, d) := s.reader;
    var call := s.calls[target];
    if call.inbox.None? then
      s.(reader := Reading,
         calls := s.calls[target := call.(inbox := Some(d), delivered := call.delivered + [d])],
         tally := s.tally.(delivered := s.tally.delivered + 1))
    else
      s.(reader := Reading, tally := s.tally.(dropped := s.tally.dropped + 1))
  }

  function Fresh(inFlight: map<ProbeKey, InFlightProbe>, cutoff: int): (kept: map<ProbeKey, InFlightProbe>)
    ensures kept.Keys <= inFlight.Keys
  {
    map k | k in inFlight && inFlight[k].queuedTime >= cutoff :: inFlight[k]
  }

  /** The lock region of cleanupStaleProbes. */
  function SweepStale(s: State): State
    requires s.cleaner.CleanerSweeping?
  {
    var kept := Fresh(s.inFlight, s.cleaner.cutoff);
    var cleaned := |s.inFlight.Keys - kept.Keys|;
    s.(inFlight := kept,
       cleaner := if cleaned > 0 then CleanerReporting(cleaned) else CleanerIdle,
       meters := s.meters.(swept := s.meters.swept + cleaned))
  }

  function NewCall(pd: Directive, ttl: uint8, now: int): Call {
    Call(pd, ttl, now, BuildProbeKeyFromDirective(pd, ttl, Unix(now)), now, Arrived, None, [])
  }

  function CallerStep(s: State, c: nat, a: CallerAction): State
    requires CallerEnabled(s, c, a)
  {
    match a
    case Register => RegisterCall(s, c)
    case CountDuplicate =>
      SetPhase(s, c, Returned(Duplicate(s.calls[c].phase.blocker)))
      .(meters := s.meters.(duplicateProbes := s.meters.duplicateProbes + 1))
    case Enqueue =>
      var request := ProbeRequest(s.calls[c].pd, s.calls[c].ttl, c);
      SetPhase(s, c, Enqueued).(queue := s.queue + [request], enqueued := s.enqueued + [request])
    case AbandonQueue => SetPhase(s, c, Leaving(Cancelled))
    case StartTimer => SetPhase(s, c, Waiting(s.now))
    case Receive =>
      var call := s.calls[c];
      s.(calls := s.calls[c := call.(phase := Leaving(Replied(call.inbox.value)), inbox := None)])
    case Expire => SetPhase(s, c, Leaving(TimedOut))
    case AbandonWait => SetPhase(s, c, Leaving(Cancelled))
    case Remove => RemoveEntry(s, c)
    case Discount =>
      SetPhase(s, c, Returned(s.calls[c].phase.outcome))
      .(meters := s.meters.(inFlightProbes := s.meters.inFlightProbes - 1))
  }

  function WriterStep(s: State, a: WriterAction): State
    requires WriterEnabled(s, a)
  {
    match a
    case Take => s.(writer := WriterHolding(s.queue[0]), queue := s.queue[1..])
    case Write => s.(writer := WriterReady, written := s.written + [s.writer.request])
    case FailWrite => s.(writer := WriterStopped(Some(s.writer.request)))
    case Stop => s.(writer := WriterStopped(None))
  }

  function ReaderStep(s: State, a: ReaderAction): State
    requires ReaderEnabled(s, a)
  {
    match a
    case Read(record, line) => ReadRecord(s, record, s.written[line].resultCh)
    case ReadUnusable(record) => ReadRecord(s, record, 0)
    case LookUp => LookUpNext(s)
    case Deliver => DeliverResult(s)
  }

  function CleanerStep(s: State, a: CleanerAction): State
    requires CleanerEnabled(s, a)
  {
    match a
    case StartSweep => s.(cleaner := CleanerSweeping(s.now - s.timeout - STALE_MARGIN))
    case Sweep => SweepStale(s)
    case ReportSweep =>
      s.(cleaner := CleanerLowering(s.cleaner.cleaned),
         meters := s.meters.(staleProbesCleaned := s.meters.staleProbesCleaned + s.cleaner.cleaned))
    case LowerGauge =>
      s.(cleaner := CleanerIdle,
         meters := s.meters.(inFlightProbes := s.meters.inFlightProbes - s.cleaner.cleaned))
    case StopSweeping => s.(cleaner := CleanerStopped)
  }

  function Step(s: State, e: Event): State
    requires Enabled(s, e)
  {
    match e
    case Tick(to) => s.(now := to)
    case Arrive(pd, ttl) => s.(calls := s.calls + [NewCall(pd, ttl, s.now)])
    case ByCaller(c, a) => CallerStep(s, c, a)
    case ByWriter(a) => WriterStep(s, a)
    case ByReader(a) => ReaderStep(s, a)
    case ByCleaner(a) => CleanerStep(s, a)
  }

  // ----- runs -----

  /** `events` can happen one after the other from `s`. */
  predicate Feasible(s: State, events: seq<Event>)
    decreases |events|
  {
    events == [] || (Enabled(s, events[0]) && Feasible(Step(s, events[0]), events[1..]))
  }

  function After(s: State, events: seq<Event>): State
    requires Feasible(s, events)
    decreases |events|
  {
    if events == [] then s else After(Step(s, events[0]), events[1..])
  }

  lemma {:induction false} RunSnoc(s: State, events: seq<Event>, e: Event)
    requires Feasible(s, events) && Enabled(After(s, events), e)
    ensures Feasible(s, events + [e])
    ensures After(s, events + [e]) == Step(After(s, events), e)
    decreases |events|
  {
    if events == [] {
      assert (events + [e])[1..] == [];
    } else {
      RunSnoc(Step(s, events[0]), events[1..], e);
      assert (events + [e])[1..] == events[1..] + [e];
    }
  }

  /** The states of runs from an empty table. */
  ghost predicate Reachable(s: State) {
    exists timeout: int, capacity: nat, start: int, events: seq<Event> ::
      && timeout > 0
      && Feasible(Initial(timeout, capacity, start), events)
      && s == After(Initial(timeout, capacity, start), events)
  }

  lemma InitiallyReachable(timeout: int, capacity: nat, now: int)
    requires timeout > 0
    ensures Reachable(Initial(timeout, capacity, now))
  {
    assert Feasible(Initial(timeout, capacity, now), []);
    assert After(Initial(timeout, capacity, now), []) == Initial(timeout, capacity, now);
  }

  lemma ReachableStep(s: State, e: Event)
    requires Reachable(s) && Enabled(s, e)
    ensures Reachable(Step(s, e))
  {
    var timeout: int, capacity: nat, start: int, events: seq<Event> :|
      && timeout > 0
      && Feasible(Initial(timeout, capacity, start), events)
      && s == After(Initial(timeout, capacity, start), events);
    RunSnoc(Initial(timeout, capacity, start), events, e);
    assert Feasible(Initial(timeout, capacity, start), events + [e]);
  }
}
