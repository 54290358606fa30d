// What the probe table guarantees in every run, with the exact conditions under which it does.
module ProbeTableTheorems {
  import opened Directives
  import opened CaracalRecords
  import opened ProbeTable
  import opened ProbeTableInvariants
  import opened Totals

  // ----- who owns an entry -----

  /** Every entry belongs to exactly one call, and that call has not run its deferred delete. */
  lemma EveryEntryHasOneLiveOwner(s: State, k: ProbeKey)
    requires Reachable(s) && k in s.inFlight
    ensures exists c: nat :: s.Owns(c) && s.calls[c].key == k && s.calls[c].Live()
    ensures forall c: nat, d: nat :: s.Owns(c) && s.Owns(d) && s.calls[c].key == k == s.calls[d].key ==> c == d
  {
    InvariantHolds(s);
    assert s.Owns(s.inFlight[k].resultCh);
  }

  /** The deferred delete of `c` is about to take an entry another call made. */
  predicate CrossDeletes(s: State, c: nat) {
    && CallerEnabled(s, c, Remove)
    && s.calls[c].key in s.inFlight
    && !s.Owns(c)
  }

  /** Every registered call took the lock within `bound` of reading the clock. */
  predicate LocksWithin(s: State, bound: int) {
    forall c :: 0 <= c < |s.calls| && s.calls[c].HasRegistered() ==> s.calls[c].locked - s.calls[c].queued <= bound
  }

  /** The largest delay between clock and lock that keeps a call out of the reach of older calls. */
  function PunctualDelay(timeout: int): int {
    timeout + 4 * SECOND + 1
  }

  /** Only a call that was later than that can lose its entry to another call. */
  lemma OnlyLateCallsLoseEntries(s: State, c: nat)
    requires Reachable(s) && CrossDeletes(s, c)
    ensures var victim := s.inFlight[s.calls[c].key].resultCh;
      && victim < |s.calls| && victim != c && s.calls[victim].Live()
      && s.calls[victim].locked - s.calls[victim].queued > PunctualDelay(s.timeout)
  {
    InvariantHolds(s);
    var victim := s.inFlight[s.calls[c].key].resultCh;
    assert Rivals(s, victim, c) && s.Owns(victim);
    assert Late(s, victim);
  }

  /** A run in which a delay one nanosecond longer makes one call delete another's entry. */
  lemma CrossDeletionRun(timeout: int, capacity: nat, pd: Directive) returns (s: State)
    requires timeout > 0
    ensures Reachable(s) && s.timeout == timeout && s.capacity == capacity
    ensures CrossDeletes(s, 0) && s.Owns(1)
    ensures LocksWithin(s, PunctualDelay(timeout) + 1)
    ensures |s.calls| == 2 && s.calls[0].phase.Leaving? && s.calls[1].phase.Registered? && s.queue == []
    ensures s.calls[1].key == s.calls[0].key && s.calls[1].queued == SECOND - 1 && s.now == timeout + STALE_MARGIN + 1
  {
    s := StaleRegistrationRun(timeout, capacity, pd);
    s := Extend(s, ByCaller(1, Register));
    s := Extend(s, ByCaller(0, AbandonQueue));
  }

  /** The first half: call 0 is swept while it still waits for room in the queue, and call 1 has read the clock. */
  lemma StaleRegistrationRun(timeout: int, capacity: nat, pd: Directive) returns (s: State)
    requires timeout > 0
    ensures Reachable(s) && s.timeout == timeout && s.capacity == capacity
    ensures |s.calls| == 2 && s.inFlight == map[] && s.queue == []
    ensures s.calls[0] == NewCall(pd, 1, 0).(phase := Registered)
    ensures s.calls[1] == NewCall(pd, 1, SECOND - 1)
    ensures s.now == timeout + STALE_MARGIN + 1
  {
    s := RegisteredCallRun(timeout, capacity, 0, pd);
    s := Extend(s, Tick(SECOND - 1));
    s := Extend(s, Arrive(pd, 1));
    s := Extend(s, Tick(timeout + STALE_MARGIN + 1));
    s := SweepRun(s);
  }

  /** Call 0 registers the moment it reads the clock. */
  lemma RegisteredCallRun(timeout: int, capacity: nat, start: int, pd: Directive) returns (s: State)
    requires timeout > 0
    ensures Reachable(s)
    ensures s == Initial(timeout, capacity, start).(calls := s.calls, inFlight := s.inFlight, meters := s.meters)
    ensures s.calls == [NewCall(pd, 1, start).(phase := Registered)]
    ensures s.inFlight == map[s.calls[0].key := InFlightProbe(0, start)]
  {
    s := Initial(timeout, capacity, start);
    InitiallyReachable(timeout, capacity, start);
    s := Extend(s, Arrive(pd, 1));
    s := Extend(s, ByCaller(0, Register));
  }

  lemma SweepRun(s: State) returns (t: State)
    requires Reachable(s) && s.cleaner.CleanerIdle?
    ensures Reachable(t) && t == s.(inFlight := t.inFlight, cleaner := t.cleaner, meters := t.meters)
    ensures t.inFlight == Fresh(s.inFlight, s.now - s.timeout - STALE_MARGIN)
  {
    t := Extend(s, ByCleaner(StartSweep));
    t := Extend(t, ByCleaner(Sweep));
  }

  lemma Extend(s: State, e: Event) returns (t: State)
    requires Reachable(s) && Enabled(s, e)
    ensures t == Step(s, e) && Reachable(t)
  {
    t := Step(s, e);
    ReachableStep(s, e);
  }

  /**
   * The deferred delete, which checks no ownership, is safe exactly when no call is delayed by more than
   * ProbeTimeout + 4 s + 1 ns between reading the clock and taking the lock.
   */
  lemma DeferredDeleteIsSafeIffPunctual(timeout: int, bound: int)
    requires timeout > 0
    ensures
      (forall s: State, c: nat ::
        Reachable(s) && s.timeout == timeout && LocksWithin(s, bound) ==> !CrossDeletes(s, c))
      <==> bound <= PunctualDelay(timeout)
  {
    forall s: State, c: nat |
        bound <= PunctualDelay(timeout) && Reachable(s) && s.timeout == timeout && LocksWithin(s, bound)
      ensures !CrossDeletes(s, c)
    {
      if CrossDeletes(s, c) {
        OnlyLateCallsLoseEntries(s, c);
      }
    }
    if bound > PunctualDelay(timeout) {
      var s := CrossDeletionRun(timeout, 1, SOME_DIRECTIVE);
      assert LocksWithin(s, bound) && CrossDeletes(s, 0);
    }
  }

  const SOME_DIRECTIVE: Directive := Directive(1, "agent", [192, 0, 2, 1], Icmp, IcmpHeader(1, 2), 1)

  /** While calls are punctual, the key of a live call that lost its entry stays absent: nobody else can take it. */
  lemma SweptKeysStayAbsent(s: State, c: nat)
    requires Reachable(s) && LocksWithin(s, PunctualDelay(s.timeout))
    requires c < |s.calls| && s.calls[c].Live() && !s.Owns(c)
    ensures s.calls[c].key !in s.inFlight
    ensures s.now > s.calls[c].queued + s.timeout + STALE_MARGIN
  {
    OwnershipHolds(s);
    UnownedKeysAreAbsent(s, c);
  }

  lemma OwnershipHolds(s: State)
    requires Reachable(s)
    ensures Ownership(s)
  {
    InvariantHolds(s);
  }

  lemma UnownedKeysAreAbsent(s: State, c: nat)
    requires Ownership(s) && LocksWithin(s, PunctualDelay(s.timeout))
    requires c < |s.calls| && s.calls[c].Live() && !s.Owns(c)
    ensures s.calls[c].key !in s.inFlight
    ensures s.now > s.calls[c].queued + s.timeout + STALE_MARGIN
  {
    PunctualCallsAreNotLate(s, c);
    OwnersAreRivals(s, c);
    if s.calls[c].key in s.inFlight {
      PunctualOwnersHaveNoRivals(s, s.inFlight[s.calls[c].key].resultCh, c);
    }
  }

  lemma PunctualOwnersHaveNoRivals(s: State, d: nat, c: nat)
    requires Timely(s) && Table(s) && LocksWithin(s, PunctualDelay(s.timeout)) && s.Owns(d)
    ensures !Rivals(s, d, c)
  {
    OwnersAreLive(s, d);
    PunctualCallsAreNotLate(s, d);
  }

  lemma OwnersAreRivals(s: State, c: nat)
    requires EntriesOwned(s) && c < |s.calls| && s.calls[c].Live() && !s.Owns(c)
    ensures s.calls[c].key in s.inFlight ==>
      var d := s.inFlight[s.calls[c].key].resultCh;
      s.Owns(d) && Rivals(s, d, c)
  {
  }

  lemma PunctualCallsAreNotLate(s: State, c: nat)
    requires Timely(s) && c < |s.calls|
    requires s.calls[c].locked - s.calls[c].queued <= PunctualDelay(s.timeout)
    ensures !Late(s, c)
  {
    assert TimelyCall(s.calls[c], s.now);
  }

  lemma OwnersAreLive(s: State, c: nat)
    requires EntriesOwned(s) && s.Owns(c)
    ensures s.calls[c].Live() && s.calls[c].HasRegistered()
  {
  }

  // ----- how long an entry stays -----

  /**
   * The entry of a punctual call is there from its registration to its deferred delete, in every interleaving of
   * sweeps and other calls, as long as ProbeTimeout + 5 s have not passed since the call read the clock.
   */
  lemma EntriesOutliveTheMargin(s: State, c: nat)
    requires Reachable(s)
    requires c < |s.calls| && s.calls[c].Live()
    requires s.calls[c].locked - s.calls[c].queued <= PunctualDelay(s.timeout)
    requires s.now <= s.calls[c].queued + s.timeout + STALE_MARGIN
    ensures s.Owns(c)
  {
    InvariantHolds(s);
    PunctualCallsAreNotLate(s, c);
  }

  /** The timer of `c` started within 5 s of its clock reading and has not fired yet. */
  predicate TimerStillRunning(s: State, c: nat) {
    && c < |s.calls|
    && s.calls[c].phase.Waiting?
    && s.calls[c].phase.started <= s.calls[c].queued + STALE_MARGIN
    && s.now <= s.calls[c].phase.started + s.timeout
  }

  /**
   * A timer started within 5 s of the clock reading protects the entry until it fires exactly when
   * ProbeTimeout is at least 1 s (less one nanosecond). Below that an older call with the same key can
   * have been swept before this one registers, and then deletes its entry.
   */
  lemma TimersProtectEntriesIff(timeout: int)
    requires timeout > 0
    ensures (forall s: State, c: nat :: Reachable(s) && s.timeout == timeout && TimerStillRunning(s, c) ==> s.Owns(c))
      <==> timeout >= SECOND - 1
  {
    forall s: State, c: nat | timeout >= SECOND - 1 && Reachable(s) && s.timeout == timeout && TimerStillRunning(s, c)
      ensures s.Owns(c)
    {
      InvariantHolds(s);
      assert TimelyCall(s.calls[c], s.now);
      EntriesOutliveTheMargin(s, c);
    }
    if timeout < SECOND - 1 {
      var s := CrossDeletionRun(timeout, 1, SOME_DIRECTIVE);
      s := Extend(s, ByCaller(1, Enqueue));
      s := Extend(s, ByCaller(1, StartTimer));
      s := Extend(s, ByCaller(0, Remove));
      assert TimerStillRunning(s, 1) && !s.Owns(1);
    }
  }

  // ----- metrics -----

  /**
   * The gauge never reads below the size of the table and equals it when no decrement is pending; every
   * registration is an entry, an own removal or a swept one; DuplicateProbesTotal counts the calls that returned
   * ErrDuplicatePD, and StaleProbesCleanedTotal is never ahead of the sweep.
   */
  lemma GaugeIsTableSize(s: State)
    requires Reachable(s)
    ensures s.meters.inFlightProbes == |s.inFlight| + Total(s.calls, Undiscounted) + Pending(s.cleaner) >= |s.inFlight|
    ensures Total(s.calls, Registrations) == s.meters.ownRemovals + s.meters.swept + |s.inFlight|
    ensures s.meters.duplicateProbes == Total(s.calls, Rejections)
    ensures s.meters.staleProbesCleaned == s.meters.swept - Unreported(s.cleaner) <= s.meters.swept
    ensures Pending(s.cleaner) == 0 && (forall c :: 0 <= c < |s.calls| ==> !s.calls[c].phase.Discounting?) ==>
      s.meters.inFlightProbes == |s.inFlight| && s.meters.staleProbesCleaned == s.meters.swept
  {
    InvariantHolds(s);
    TotalNonNegative(s.calls, Undiscounted);
    if forall c :: 0 <= c < |s.calls| ==> !s.calls[c].phase.Discounting? {
      TotalZero(s.calls, Undiscounted);
    }
  }

  /**
   * Every record read ends in exactly one of five ways, or is the one being worked on; every delivery counted is
   * one result sent to one call.
   */
  lemma EveryRecordIsAccountedFor(s: State)
    requires Reachable(s)
    ensures s.tally.records == s.tally.rejected + s.tally.skipped + s.tally.delivered + s.tally.dropped
      + s.tally.correlationFailures + (if s.reader.Reading? then 0 else 1)
    ensures s.tally.delivered == Total(s.calls, Deliveries)
  {
    InvariantHolds(s);
  }

  /** Requests reach caracal in the order queued; only one whose write failed is missing, and it is the last. */
  lemma RequestsAreWrittenInOrder(s: State)
    requires Reachable(s)
    ensures s.written <= s.enqueued && |s.queue| <= s.capacity
    ensures |s.enqueued| - |s.written| - |s.queue| == |InWriter(s.writer)| <= 1
  {
    InvariantHolds(s);
  }

  /** When every call has returned, the table is empty and the gauge reads zero once no sweep is unfinished. */
  lemma TableDrains(s: State)
    requires Reachable(s) && Pending(s.cleaner) == 0
    requires forall c :: 0 <= c < |s.calls| ==> s.calls[c].phase.Returned?
    ensures s.inFlight == map[] && s.meters.inFlightProbes == 0
  {
    InvariantHolds(s);
    GaugeIsTableSize(s);
    forall k
      ensures k !in s.inFlight
    {
    }
  }

  // ----- how a call ends -----

  /** How many more steps of its own a call takes at most. */
  function CallRank(call: Call): (rank: nat)
    ensures rank <= 7
    ensures rank == 0 <==> call.phase.Returned?
  {
    match call.phase
    case Arrived => 7
    case Registered => 6
    case Enqueued => 5
    case Waiting(_) => 4
    case Leaving(_) => 3
    case Discounting(_) => 2
    case Rejecting(_) => 1
    case Returned(_) => 0
  }

  /** What a call does next once its context is done, whatever the queue, the clock and its channel say. */
  function CancelledAction(call: Call): CallerAction
    requires !call.phase.Returned?
  {
    match call.phase
    case Arrived => Register
    case Registered => AbandonQueue
    case Enqueued => StartTimer
    case Waiting(_) => AbandonWait
    case Leaving(_) => Remove
    case Discounting(_) => Discount
    case Rejecting(_) => CountDuplicate
  }

  predicate OfCall(e: Event, c: nat) {
    e.ByCaller? && e.c == c
  }

  function OwnSteps(events: seq<Event>, c: nat): nat {
    if events == [] then 0 else OwnSteps(events[1..], c) + (if OfCall(events[0], c) then 1 else 0)
  }

  /** Every step of a call brings its return nearer, and no other step puts it off. */
  lemma StepLowersCallRank(s: State, e: Event, c: nat)
    requires Enabled(s, e) && c < |s.calls|
    ensures c < |Step(s, e).calls|
    ensures OfCall(e, c) ==> CallRank(Step(s, e).calls[c]) < CallRank(s.calls[c])
    ensures !OfCall(e, c) ==> Step(s, e).calls[c].phase == s.calls[c].phase
  {
    match e
    case ByCaller(d, a) =>
      CallerChangesItsCall(s, d, a);
      CallerLowersRank(s, d, a);
    case ByReader(a) => ReaderLeavesTheTable(s, a);
    case _ =>
  }

  lemma CallerLowersRank(s: State, c: nat, a: CallerAction)
    requires CallerEnabled(s, c, a)
    ensures |CallerStep(s, c, a).calls| == |s.calls|
    ensures CallRank(CallerStep(s, c, a).calls[c]) < CallRank(s.calls[c])
  {
  }

  /**
   * A call of Probe whose context is done comes back: until it has returned it always has a next step that waits
   * for nobody, and in no run does it take more than seven steps, whatever everyone else does in between.
   */
  lemma {:induction false} CancelledCallsReturn(s: State, events: seq<Event>, c: nat)
    requires Feasible(s, events) && c < |s.calls|
    ensures c < |After(s, events).calls|
    ensures var call := After(s, events).calls[c];
      && OwnSteps(events, c) + CallRank(call) <= CallRank(s.calls[c]) <= 7
      && (call.phase.Returned? || CallerEnabled(After(s, events), c, CancelledAction(call)))
    decreases |events|
  {
    if events != [] {
      StepLowersCallRank(s, events[0], c);
      CancelledCallsReturn(Step(s, events[0]), events[1..], c);
    }
  }

  /** What a call ends with is decided once. */
  lemma OutcomeStays(s: State, e: Event, c: nat, o: Outcome)
    requires Enabled(s, e) && c < |s.calls| && HasOutcome(s.calls[c], o)
    ensures c < |Step(s, e).calls| && HasOutcome(Step(s, e).calls[c], o)
  {
    match e
    case ByCaller(d, a) => CallerChangesItsCall(s, d, a);
    case ByReader(a) => ReaderLeavesTheTable(s, a);
    case _ =>
  }

  lemma {:induction false} OutcomeIsFinal(s: State, events: seq<Event>, c: nat, o: Outcome)
    requires Feasible(s, events) && c < |s.calls| && HasOutcome(s.calls[c], o)
    ensures c < |After(s, events).calls| && HasOutcome(After(s, events).calls[c], o)
    decreases |events|
  {
    if events != [] {
      OutcomeStays(s, events[0], c, o);
      OutcomeIsFinal(Step(s, events[0]), events[1..], c, o);
    }
  }

  /** Call `c` ends with this outcome, and did not before the event. */
  predicate Decides(s: State, e: Event, c: nat, o: Outcome)
    requires Enabled(s, e)
  {
    && c < |Step(s, e).calls| && HasOutcome(Step(s, e).calls[c], o)
    && !(c < |s.calls| && HasOutcome(s.calls[c], o))
  }

  /**
   * A call times out exactly when its own timer, started after its registration, fires when due; it is cancelled
   * exactly when its own select, with the timer running or before it was started, takes the ctx.Done() case.
   */
  lemma OutcomesAreDecidedByTheSelects(s: State, e: Event, c: nat)
    requires Enabled(s, e)
    ensures Decides(s, e, c, TimedOut) <==>
      && c < |s.calls| && e == ByCaller(c, Expire)
      && s.calls[c].phase.Waiting? && s.now >= s.calls[c].phase.started + s.timeout
    ensures Decides(s, e, c, Cancelled) <==>
      && c < |s.calls|
      && (e == ByCaller(c, AbandonQueue) || e == ByCaller(c, AbandonWait))
      && (s.calls[c].phase.Registered? || s.calls[c].phase.Waiting?)
  {
    match e
    case ByCaller(d, a) => CallerChangesItsCall(s, d, a);
    case ByReader(a) => ReaderLeavesTheTable(s, a);
    case _ =>
  }

  /** No call has timed out before ProbeTimeout has passed since it read the clock. */
  lemma TimeoutsAreNotEarly(s: State, c: nat)
    requires Reachable(s) && c < |s.calls| && HasOutcome(s.calls[c], TimedOut)
    ensures s.now >= s.calls[c].queued + s.timeout
  {
    InvariantHolds(s);
  }

  /** The timer of a waiting call can fire from the instant it is due, and not before. */
  lemma TimersFireWhenDue(s: State, c: nat, to: int)
    requires c < |s.calls| && s.calls[c].phase.Waiting? && s.now <= to
    ensures var t := Step(s, Tick(to));
      CallerEnabled(t, c, Expire) <==> to >= s.calls[c].phase.started + s.timeout
  {
  }

  // ----- the search -----

  /** How many more steps the reader takes for the record it is working on. */
  function ReaderRank(s: State): int {
    match s.reader
    case Reading => 0
    case Searching(_, _, _, _, next) => 8 - next
    case Delivering(_, _) => 1
  }

  /** The reader never blocks on a result: it always has a next step, and at most eight of them for one record. */
  lemma ReaderNeverBlocks(s: State)
    requires Reachable(s) && !s.reader.Reading?
    ensures 0 < ReaderRank(s) <= 8
    ensures s.reader.Searching? ==> ReaderEnabled(s, LookUp) && ReaderRank(ReaderStep(s, LookUp)) < ReaderRank(s)
    ensures s.reader.Delivering? ==> ReaderEnabled(s, Deliver) && ReaderRank(ReaderStep(s, Deliver)) < ReaderRank(s)
  {
    InvariantHolds(s);
    ReaderAdvances(s);
  }

  lemma ReaderAdvances(s: State)
    requires ResultsFit(s)
    ensures s.reader.Searching? ==> ReaderRank(LookUpNext(s)) < ReaderRank(s) <= 8
    ensures s.reader.Delivering? ==> s.reader.target < |s.calls| && ReaderRank(DeliverResult(s)) < ReaderRank(s)
  {
  }

  /** The search has yet to look up the key of `c`, which owns its entry. */
  ghost predicate Ahead(s: State, c: nat) {
    && s.reader.Searching? && s.Owns(c)
    && exists i :: s.reader.next <= i < |OFFSETS| && SearchKey(s.reader.key, i) == s.calls[c].key
  }

  predicate NoRead(e: Event) {
    e.ByReader? ==> e.reader.LookUp? || e.reader.Deliver?
  }

  lemma LookUpAhead(s: State, c: nat)
    requires Ahead(s, c)
    ensures !LookUpNext(s).reader.Reading? && LookUpNext(s).tally == s.tally
    ensures LookUpNext(s).reader.Searching? && s.Owns(c) ==> Ahead(LookUpNext(s), c)
  {
  }

  lemma StepExtends(s: State, e: Event)
    requires EntriesOwned(s) && Correlation(s) && Enabled(s, e)
    ensures Extends(s.calls, Step(s, e).calls)
  {
    match e
    case ByCaller(c, a) => CallerChanges(s, c, a);
    case ByReader(a) => ReaderLeavesTheTable(s, a);
    case _ =>
  }

  lemma MovedKeepsEnded(s: State, t: State, c: nat)
    requires Moved(s, t) && c < |s.calls| <= |t.calls|
    requires s.calls[c].HasRegistered() && !s.calls[c].Live()
    ensures !t.calls[c].Live()
  {
  }

  /** A call that registered and then ended never becomes live again. */
  lemma {:induction false} EndedCallsStayEnded(s: State, events: seq<Event>, c: nat)
    requires Invariant(s) && Feasible(s, events)
    requires c < |s.calls| && s.calls[c].HasRegistered() && !s.calls[c].Live()
    ensures c < |After(s, events).calls| && !After(s, events).calls[c].Live()
    decreases |events|
  {
    if events != [] {
      var t := Step(s, events[0]);
      StepKeepsInvariant(s, events[0]);
      StepExtends(s, events[0]);
      StepMoves(s, events[0]);
      MovedKeepsEnded(s, t, c);
      EndedCallsStayEnded(t, events[1..], c);
    }
  }

  lemma ClockMovesOn(s: State, e: Event)
    requires Timely(s) && Enabled(s, e)
    ensures s.now <= Step(s, e).now && s.timeout == Step(s, e).timeout
  {
    StepMoves(s, e);
  }

  lemma ExtendsTransitive(a: seq<Call>, b: seq<Call>, c: seq<Call>)
    requires Extends(a, b) && Extends(b, c)
    ensures Extends(a, c)
  {
  }

  /** The clock never goes back, ProbeTimeout never changes, and a registered call keeps its times. */
  lemma {:induction false} RunsExtend(s: State, events: seq<Event>)
    requires Invariant(s) && Feasible(s, events)
    ensures var t := After(s, events); s.now <= t.now && s.timeout == t.timeout && Extends(s.calls, t.calls)
    decreases |events|
  {
    if events != [] {
      var t := Step(s, events[0]);
      StepKeepsInvariant(s, events[0]);
      StepExtends(s, events[0]);
      ClockMovesOn(s, events[0]);
      RunsExtend(t, events[1..]);
      ExtendsTransitive(s.calls, t.calls, After(s, events).calls);
    }
  }

  /** Results sent or dropped, and the one about to be. */
  function Handled(s: State): nat {
    s.tally.delivered + s.tally.dropped + (if s.reader.Delivering? then 1 else 0)
  }

  lemma QuietReaderCountsNoFailure(s: State, e: Event)
    requires Enabled(s, e) && NoRead(e) && !s.reader.Searching?
    ensures !Step(s, e).reader.Searching?
    ensures Step(s, e).tally.correlationFailures == s.tally.correlationFailures
    ensures Handled(Step(s, e)) == Handled(s)
  {
    match e
    case ByCaller(c, a) => CallerChangesItsCall(s, c, a);
    case _ =>
  }

  lemma {:induction false} QuietRunCountsNoFailure(s: State, events: seq<Event>)
    requires Feasible(s, events) && (forall i :: 0 <= i < |events| ==> NoRead(events[i])) && !s.reader.Searching?
    ensures After(s, events).tally.correlationFailures == s.tally.correlationFailures
    ensures !After(s, events).reader.Searching?
    ensures Handled(After(s, events)) == Handled(s)
    decreases |events|
  {
    if events != [] {
      QuietReaderCountsNoFailure(s, events[0]);
      QuietRunCountsNoFailure(Step(s, events[0]), events[1..]);
    }
  }

  lemma StepAhead(s: State, e: Event, c: nat)
    requires Enabled(s, e) && NoRead(e) && Ahead(s, c) && c < |Step(s, e).calls|
    requires Step(s, e).calls[c].key == s.calls[c].key && Step(s, e).Owns(c)
    ensures Step(s, e).tally.correlationFailures == s.tally.correlationFailures
    ensures Step(s, e).reader.Searching? ==> Ahead(Step(s, e), c)
    ensures Handled(Step(s, e)) == Handled(s) + (if Step(s, e).reader.Searching? then 0 else 1)
  {
    match e
    case ByCaller(d, a) => CallerChangesItsCall(s, d, a);
    case ByReader(a) => LookUpAhead(s, c);
    case _ =>
  }

  /** `c` is live, was punctual, and ProbeTimeout + 5 s have not passed since it read the clock. */
  predicate LiveInTime(s: State, c: nat) {
    && c < |s.calls| && s.calls[c].Live()
    && s.calls[c].locked - s.calls[c].queued <= PunctualDelay(s.timeout)
    && s.now <= s.calls[c].queued + s.timeout + STALE_MARGIN
  }

  /** What a call is at the end of a run it was before, once registered. */
  lemma LiveInTimeBefore(s: State, events: seq<Event>, c: nat)
    requires Invariant(s) && Feasible(s, events) && LiveInTime(After(s, events), c)
    requires c < |s.calls| && s.calls[c].HasRegistered()
    ensures LiveInTime(s, c)
  {
    RunsExtend(s, events);
    if !s.calls[c].Live() {
      EndedCallsStayEnded(s, events, c);
    }
  }

  lemma AheadStep(s: State, e: Event, c: nat)
    requires Reachable(s) && Enabled(s, e) && NoRead(e) && Ahead(s, c)
    requires LiveInTime(Step(s, e), c)
    ensures Step(s, e).tally.correlationFailures == s.tally.correlationFailures
    ensures Step(s, e).reader.Searching? ==> Ahead(Step(s, e), c)
    ensures Handled(Step(s, e)) == Handled(s) + (if Step(s, e).reader.Searching? then 0 else 1)
  {
    ReachableStep(s, e);
    EntriesOutliveTheMargin(Step(s, e), c);
    InvariantHolds(s);
    StepExtends(s, e);
    StepAhead(s, e, c);
  }

  lemma RegisteredStep(s: State, e: Event, c: nat)
    requires Reachable(s) && Enabled(s, e) && s.Owns(c)
    ensures Reachable(Step(s, e)) && Invariant(Step(s, e))
    ensures c < |Step(s, e).calls| && Step(s, e).calls[c].HasRegistered()
  {
    InvariantHolds(s);
    OwnersAreLive(s, c);
    StepExtends(s, e);
    ReachableStep(s, e);
    InvariantHolds(Step(s, e));
  }

  /** The step before the rest of such a run. */
  lemma FirstOfSearch(s: State, events: seq<Event>, c: nat)
    requires Reachable(s) && events != [] && Feasible(s, events) && Ahead(s, c) && NoRead(events[0])
    requires LiveInTime(After(s, events), c)
    ensures var t := Step(s, events[0]);
      && Reachable(t) && t.tally.correlationFailures == s.tally.correlationFailures
      && (t.reader.Searching? ==> Ahead(t, c))
      && Handled(t) == Handled(s) + (if t.reader.Searching? then 0 else 1)
  {
    RegisteredStep(s, events[0], c);
    LiveInTimeBefore(Step(s, events[0]), events[1..], c);
    AheadStep(s, events[0], c);
  }

  /**
   * No reply is missed. While a punctual call is live and ProbeTimeout + 5 s have not passed since it read the
   * clock, a search that still has its key ahead counts no correlation failure and ends with the result being
   * delivered, or dropped at a full channel, whatever registrations, removals and sweeps come between the five lookups.
   */
  lemma {:induction false} SearchesFindLiveProbes(s: State, events: seq<Event>, c: nat)
    requires Reachable(s) && Feasible(s, events) && Ahead(s, c)
    requires forall i :: 0 <= i < |events| ==> NoRead(events[i])
    requires LiveInTime(After(s, events), c)
    ensures After(s, events).tally.correlationFailures == s.tally.correlationFailures
    ensures After(s, events).reader.Searching? ==> Ahead(After(s, events), c)
    ensures !After(s, events).reader.Searching? ==>
      var m, n := s.tally, After(s, events).tally;
      n.delivered + n.dropped == m.delivered + m.dropped + (if After(s, events).reader.Delivering? then 0 else 1)
    decreases |events|
  {
    if events != [] {
      var t := Step(s, events[0]);
      FirstOfSearch(s, events, c);
      if t.reader.Searching? {
        SearchesFindLiveProbes(t, events[1..], c);
      } else {
        QuietRunCountsNoFailure(t, events[1..]);
      }
    }
  }
}
