// What every event of the probe table keeps, and so what holds in every reachable state.
module ProbeTableInvariants {
  import opened Wrappers
  import opened GoNumbers
  import opened Directives
  import opened CaracalRecords
  import opened ProbeTable
  import opened Totals

  // ----- the four ways an event moves the table -----

  /** The same call, neither registering nor ending in between. */
  ghost predicate SameCall(before: Call, after: Call) {
    && after.key == before.key && after.queued == before.queued
    && after.Live() == before.Live()
    && (before.Live() ==> after.locked == before.locked)
  }

  ghost predicate OthersSame(s: State, t: State, c: nat) {
    && c < |s.calls| && |t.calls| == |s.calls|
    && t.timeout == s.timeout && t.now == s.now
    && t.calls[c].key == s.calls[c].key && t.calls[c].queued == s.calls[c].queued
    && forall d :: 0 <= d < |s.calls| && d != c ==> SameCall(s.calls[d], t.calls[d])
  }

  /** No entry, and no call's part in the table, changes; time may pass and calls may arrive. */
  ghost predicate Unmoved(s: State, t: State) {
    && t.timeout == s.timeout && t.inFlight == s.inFlight && s.now <= t.now
    && |s.calls| <= |t.calls|
    && (forall c :: 0 <= c < |s.calls| ==> SameCall(s.calls[c], t.calls[c]))
    && (forall c :: |s.calls| <= c < |t.calls| ==> !t.calls[c].Live())
  }

  /** Call `c` registers. */
  ghost predicate Entered(s: State, t: State, c: nat) {
    && OthersSame(s, t, c)
    && !s.calls[c].HasRegistered() && !s.calls[c].Live() && t.calls[c].Live() && t.calls[c].locked == s.now
    && s.calls[c].key !in s.inFlight
    && t.inFlight == s.inFlight[s.calls[c].key := InFlightProbe(c, s.calls[c].queued)]
  }

  /** Call `c` runs its deferred delete. */
  ghost predicate Left(s: State, t: State, c: nat) {
    && OthersSame(s, t, c)
    && s.calls[c].Live() && !t.calls[c].Live()
    && t.inFlight == s.inFlight - {s.calls[c].key}
  }

  /** Entries queued more than ProbeTimeout + 5 s ago are swept. */
  ghost predicate Swept(s: State, t: State) {
    && t.timeout == s.timeout && t.now == s.now && t.calls == s.calls
    && t.inFlight.Keys <= s.inFlight.Keys
    && (forall k :: k in t.inFlight ==> t.inFlight[k] == s.inFlight[k])
    && (forall k :: k in s.inFlight && k !in t.inFlight ==> s.inFlight[k].queuedTime < s.now - s.timeout - STALE_MARGIN)
  }

  ghost predicate Moved(s: State, t: State) {
    || Unmoved(s, t)
    || Swept(s, t)
    || (exists c: nat :: Entered(s, t, c))
    || (exists c: nat :: Left(s, t, c))
  }

  lemma CallerMoves(s: State, c: nat, a: CallerAction)
    requires CallerEnabled(s, c, a)
    ensures Moved(s, CallerStep(s, c, a))
  {
    var t := CallerStep(s, c, a);
    if a.Register? && s.calls[c].key !in s.inFlight {
      assert Entered(s, t, c);
    } else if a.Remove? {
      assert t.inFlight == s.inFlight - {s.calls[c].key};
      assert Left(s, t, c);
    } else {
      assert t.inFlight == s.inFlight;
      assert Unmoved(s, t);
    }
  }

  /** Delivering a result changes no call's identity or phase; nothing else in a reader's step does either. */
  lemma ReaderLeavesTheTable(s: State, a: ReaderAction)
    requires ReaderEnabled(s, a)
    ensures var t := ReaderStep(s, a);
      t == s.(calls := t.calls, reader := t.reader, tally := t.tally) && |t.calls| == |s.calls|
    ensures var t := ReaderStep(s, a);
      forall c :: 0 <= c < |s.calls| ==>
        t.calls[c] == s.calls[c].(inbox := t.calls[c].inbox, delivered := t.calls[c].delivered)
        && s.calls[c].delivered <= t.calls[c].delivered
  {
  }

  lemma ReaderMoves(s: State, a: ReaderAction)
    requires ReaderEnabled(s, a)
    ensures Unmoved(s, ReaderStep(s, a))
  {
    ReaderLeavesTheTable(s, a);
  }

  lemma CleanerMoves(s: State, a: CleanerAction)
    requires Timely(s) && CleanerEnabled(s, a)
    ensures Moved(s, CleanerStep(s, a))
  {
    if a.Sweep? {
      assert Swept(s, CleanerStep(s, a));
    } else {
      assert Unmoved(s, CleanerStep(s, a));
    }
  }

  lemma StepMoves(s: State, e: Event)
    requires Timely(s) && Enabled(s, e)
    ensures Moved(s, Step(s, e))
  {
    match e
    case ByCaller(c, a) => CallerMoves(s, c, a);
    case ByReader(a) => ReaderMoves(s, a);
    case ByCleaner(a) => CleanerMoves(s, a);
    case ByWriter(a) => assert Unmoved(s, WriterStep(s, a));
    case _ => assert Unmoved(s, Step(s, e));
  }

  // ----- clock -----

  ghost predicate Timely(s: State) {
    && s.timeout > 0
    && (forall c :: 0 <= c < |s.calls| ==> TimelyCall(s.calls[c], s.now))
    && (forall c :: 0 <= c < |s.calls| && HasOutcome(s.calls[c], TimedOut) ==> s.now >= s.calls[c].queued + s.timeout)
    && (s.cleaner.CleanerSweeping? ==> s.cleaner.cutoff <= s.now - s.timeout - STALE_MARGIN)
  }

  /** The call is returning, or has returned, with this outcome. */
  predicate HasOutcome(call: Call, o: Outcome) {
    match call.phase
    case Leaving(outcome) => outcome == o
    case Discounting(outcome) => outcome == o
    case Returned(outcome) => outcome == o
    case _ => false
  }

  ghost predicate TimelyCall(call: Call, now: int) {
    && call.key == BuildProbeKeyFromDirective(call.pd, call.ttl, Unix(call.queued))
    && call.queued <= call.locked <= now
    && (call.phase.Waiting? ==> call.locked <= call.phase.started <= now)
  }

  lemma CallerKeepsTimely(s: State, c: nat, a: CallerAction)
    requires Timely(s) && CallerEnabled(s, c, a)
    ensures Timely(CallerStep(s, c, a))
  {
  }

  lemma ArrivalKeepsTimely(s: State, pd: Directive, ttl: uint8)
    requires Timely(s)
    ensures Timely(s.(calls := s.calls + [NewCall(pd, ttl, s.now)]))
  {
    assert TimelyCall(NewCall(pd, ttl, s.now), s.now);
  }

  lemma CleanerKeepsTimely(s: State, a: CleanerAction)
    requires Timely(s) && CleanerEnabled(s, a)
    ensures Timely(CleanerStep(s, a))
  {
  }

  lemma StepKeepsTimely(s: State, e: Event)
    requires Timely(s) && Enabled(s, e)
    ensures Timely(Step(s, e))
  {
    match e
    case ByCaller(c, a) => CallerKeepsTimely(s, c, a);
    case ByReader(a) => ReaderLeavesTheTable(s, a);
    case ByCleaner(a) => CleanerKeepsTimely(s, a);
    case Arrive(pd, ttl) => ArrivalKeepsTimely(s, pd, ttl);
    case _ =>
  }

  // ----- ownership of entries -----

  /** Every entry was made by the live call its channel belongs to, under that call's key. */
  ghost predicate EntriesOwned(s: State) {
    forall k :: k in s.inFlight ==>
      && s.inFlight[k].resultCh < |s.calls|
      && var call := s.calls[s.inFlight[k].resultCh];
         call.key == k && call.queued == s.inFlight[k].queuedTime && call.Live()
  }

  /** The call took the lock so late that an entry of its key's second can have been swept already. */
  predicate Late(s: State, c: nat)
    requires c < |s.calls|
  {
    s.calls[c].locked > s.calls[c].key.correlationSecond * SECOND + s.timeout + STALE_MARGIN
  }

  predicate Rivals(s: State, c: nat, other: nat) {
    && c < |s.calls| && other < |s.calls| && c != other
    && s.calls[c].key == s.calls[other].key
    && s.calls[c].Live() && s.calls[other].Live()
  }

  /** A call that owns its entry beside a live call with the same key registered late. */
  ghost predicate RivalsMeanLate(s: State) {
    forall c: nat, other: nat :: Rivals(s, c, other) && s.Owns(c) ==> Late(s, c)
  }

  /** A live call without its entry has outlived the stale margin, or registered late. */
  ghost predicate MissingEntriesExplained(s: State) {
    forall c: nat :: c < |s.calls| && s.calls[c].Live() && !s.Owns(c) ==>
      s.now > s.calls[c].queued + s.timeout + STALE_MARGIN || Late(s, c)
  }

  ghost predicate Table(s: State) {
    EntriesOwned(s) && RivalsMeanLate(s) && MissingEntriesExplained(s)
  }

  ghost predicate Ownership(s: State) {
    Timely(s) && Table(s)
  }

  lemma UnmovedKeepsTable(s: State, t: State)
    requires Table(s) && Unmoved(s, t)
    ensures Table(t)
  {
    forall c: nat, other: nat | Rivals(t, c, other) && t.Owns(c)
      ensures Late(t, c)
    {
      assert Rivals(s, c, other) && s.Owns(c);
    }
  }

  lemma EnteredKeepsTable(s: State, t: State, c: nat)
    requires Table(s) && Entered(s, t, c) && (forall d :: 0 <= d < |s.calls| ==> TimelyCall(s.calls[d], s.now))
    ensures Table(t)
  {
    forall d: nat, other: nat | Rivals(t, d, other) && t.Owns(d)
      ensures Late(t, d)
    {
      EnteredRivalsAreLate(s, t, c, d, other);
    }
  }

  lemma EnteredRivalsAreLate(s: State, t: State, c: nat, d: nat, other: nat)
    requires Table(s) && Entered(s, t, c) && (forall d :: 0 <= d < |s.calls| ==> TimelyCall(s.calls[d], s.now))
    requires Rivals(t, d, other) && t.Owns(d)
    ensures Late(t, d)
  {
    if d == c {
      assert s.calls[other].Live() && !s.Owns(other);
    } else if other != c {
      assert Rivals(s, d, other) && s.Owns(d);
    }
  }

  lemma LeftKeepsTable(s: State, t: State, c: nat)
    requires Table(s) && Left(s, t, c)
    ensures Table(t)
  {
    forall d: nat, other: nat | Rivals(t, d, other) && t.Owns(d)
      ensures Late(t, d)
    {
      assert Rivals(s, d, other) && s.Owns(d);
    }
    forall d: nat | d < |t.calls| && t.calls[d].Live() && !t.Owns(d)
      ensures t.now > t.calls[d].queued + t.timeout + STALE_MARGIN || Late(t, d)
    {
      if s.Owns(d) {
        assert Rivals(s, d, c);
      }
    }
  }

  lemma SweptKeepsTable(s: State, t: State)
    requires Table(s) && Swept(s, t)
    ensures Table(t)
  {
    forall c: nat, other: nat | Rivals(t, c, other) && t.Owns(c)
      ensures Late(t, c)
    {
      assert Rivals(s, c, other) && s.Owns(c);
    }
  }

  lemma MovedKeepsTable(s: State, t: State)
    requires Ownership(s) && Moved(s, t)
    ensures Table(t)
  {
    if Unmoved(s, t) {
      UnmovedKeepsTable(s, t);
    } else if Swept(s, t) {
      SweptKeepsTable(s, t);
    } else if c: nat :| Entered(s, t, c) {
      EnteredKeepsTable(s, t, c);
    } else {
      var c: nat :| Left(s, t, c);
      LeftKeepsTable(s, t, c);
    }
  }

  lemma StepKeepsOwnership(s: State, e: Event)
    requires Ownership(s) && Enabled(s, e)
    ensures Ownership(Step(s, e))
  {
    StepKeepsTimely(s, e);
    StepMoves(s, e);
    MovedKeepsTable(s, Step(s, e));
  }

  // ----- where results come from -----

  /** A caller's step changes one call, and neither what the call is about nor what was delivered to it. */
  lemma CallerChangesItsCall(s: State, c: nat, a: CallerAction)
    requires CallerEnabled(s, c, a)
    ensures var t := CallerStep(s, c, a);
      && t == s.(calls := t.calls, inFlight := t.inFlight, queue := t.queue, enqueued := t.enqueued, meters := t.meters)
      && t.calls == s.calls[c := t.calls[c]]
      && t.calls[c] == s.calls[c].(phase := t.calls[c].phase, locked := t.calls[c].locked, inbox := t.calls[c].inbox)
      && (t.calls[c].locked == s.calls[c].locked || s.calls[c].phase.Arrived?)
  {
  }

  /** The request was queued by the registered call whose channel it names. */
  ghost predicate Genuine(calls: seq<Call>, r: ProbeRequest) {
    && r.resultCh < |calls|
    && calls[r.resultCh].pd == r.pd && calls[r.resultCh].ttl == r.ttl
    && calls[r.resultCh].HasRegistered()
  }

  ghost predicate RequestsGenuine(s: State) {
    && (forall i :: 0 <= i < |s.queue| ==> Genuine(s.calls, s.queue[i]))
    && (s.writer.WriterHolding? ==> Genuine(s.calls, s.writer.request))
    && (forall i :: 0 <= i < |s.written| ==> Genuine(s.calls, s.written[i]))
  }

  /**
   * The record echoes the line written for a registered call, and was parsed to this key, of that call's 5-tuple, and
   * this result.
   */
  ghost predicate Caused(calls: seq<Call>, key: ProbeKey, result: ProbeResult, record: Record, cause: nat) {
    && cause < |calls|
    && calls[cause].HasRegistered()
    && calls[cause].key.tuple == key.tuple
    && key.correlationSecond == Unix(result.sentTime)
    && !result.timedOut
    && Reported(record, calls[cause].pd, calls[cause].ttl, key, result)
  }

  predicate Reported(record: Record, pd: Directive, ttl: uint8, key: ProbeKey, result: ProbeResult) {
    Echoes(record, EncodeRequest(pd, ttl)) && Classify(record) == Accepted(key, result)
  }

  /** A result sent to call `c` has its 5-tuple and a send second within two of its key second. */
  ghost predicate Fits(calls: seq<Call>, c: nat, d: Delivery) {
    && c < |calls|
    && calls[c].HasRegistered()
    && calls[c].key.tuple == d.key.tuple
    && -2 <= calls[c].key.correlationSecond - d.key.correlationSecond <= 2
    && Caused(calls, d.key, d.result, d.record, d.cause)
  }

  /** What the result channel of a call holds, has held, and what the call made of it. */
  ghost predicate ChannelKept(call: Call) {
    match call.phase
    case Leaving(outcome) => OutcomeKept(call, outcome)
    case Discounting(outcome) => OutcomeKept(call, outcome)
    case Returned(outcome) => OutcomeKept(call, outcome)
    case _ => call.delivered == (if call.inbox.Some? then [call.inbox.value] else [])
  }

  ghost predicate OutcomeKept(call: Call, outcome: Outcome) {
    && (outcome.Replied? ==> call.delivered != [] && call.delivered[0] == outcome.delivery)
    && (outcome.Duplicate? ==> call.phase.Returned?)
  }

  ghost predicate ResultsFit(s: State) {
    && (s.reader.Searching? ==>
         && s.reader.next <= |OFFSETS|
         && Caused(s.calls, s.reader.key, s.reader.result, s.reader.record, s.reader.cause))
    && (s.reader.Delivering? ==> Fits(s.calls, s.reader.target, s.reader.delivery))
    && (forall c: nat, i :: c < |s.calls| && 0 <= i < |s.calls[c].delivered| ==>
         Fits(s.calls, c, s.calls[c].delivered[i]))
    && (forall c :: 0 <= c < |s.calls| ==> ChannelKept(s.calls[c]))
  }

  /** The call whose entry a rejected call found under its key. */
  function Blocker(call: Call): nat
    requires call.Rejected()
  {
    if call.phase.Rejecting? then call.phase.blocker else call.phase.outcome.blocker
  }

  /** A rejected call collided with another call that had registered the same key. */
  ghost predicate DuplicatesExplained(s: State) {
    forall c: nat :: c < |s.calls| ==> Explained(s.calls, c)
  }

  ghost predicate Explained(calls: seq<Call>, c: nat)
    requires c < |calls|
  {
    calls[c].Rejected() ==>
      var blocker := Blocker(calls[c]);
      blocker < |calls| && blocker != c && calls[blocker].key == calls[c].key && calls[blocker].HasRegistered()
  }

  ghost predicate Correlation(s: State) {
    RequestsGenuine(s) && ResultsFit(s) && DuplicatesExplained(s)
  }

  /** Calls keep their identity, and a registered call stays registered. */
  ghost predicate Extends(before: seq<Call>, after: seq<Call>) {
    && |before| <= |after|
    && forall c :: 0 <= c < |before| ==>
         && after[c].pd == before[c].pd && after[c].ttl == before[c].ttl
         && after[c].queued == before[c].queued && after[c].key == before[c].key
         && (before[c].HasRegistered() ==> after[c].HasRegistered() && after[c].locked == before[c].locked)
         && (before[c].delivered <= after[c].delivered)
  }

  lemma ExtensionKeepsFits(before: seq<Call>, after: seq<Call>, c: nat, d: Delivery)
    requires Extends(before, after) && Fits(before, c, d)
    ensures Fits(after, c, d)
  {
  }

  lemma ExtensionKeepsExplained(before: seq<Call>, after: seq<Call>, c: nat)
    requires Extends(before, after) && c < |before| && Explained(before, c)
    requires after[c].phase == before[c].phase
    ensures Explained(after, c)
  {
  }

  /** The effect of a caller's step on what correlation is about. */
  ghost predicate CallChanged(s: State, t: State, c: nat) {
    && c < |s.calls| && Extends(s.calls, t.calls)
    && t.calls == s.calls[c := t.calls[c]]
    && t.calls[c].delivered == s.calls[c].delivered
    && ChannelKept(t.calls[c]) && Explained(t.calls, c)
    && t.reader == s.reader && t.writer == s.writer && t.written == s.written
    && (t.queue == s.queue || (|t.queue| > 0 && t.queue == s.queue + [t.queue[|t.queue| - 1]]
                               && Genuine(t.calls, t.queue[|t.queue| - 1])))
  }

  /** A call is rejected only for the entry of another. */
  lemma CallerStaysExplained(s: State, c: nat, a: CallerAction)
    requires EntriesOwned(s) && DuplicatesExplained(s) && CallerEnabled(s, c, a)
    requires Extends(s.calls, CallerStep(s, c, a).calls)
    ensures Explained(CallerStep(s, c, a).calls, c)
  {
    if a.Register? && s.calls[c].key in s.inFlight {
      assert s.inFlight[s.calls[c].key].resultCh != c;
    } else if a.CountDuplicate? {
      assert Explained(s.calls, c);
    }
  }

  /** A call that leaves its select keeps what it was sent. */
  lemma CallerKeepsChannel(s: State, c: nat, a: CallerAction)
    requires CallerEnabled(s, c, a) && ChannelKept(s.calls[c])
    ensures |CallerStep(s, c, a).calls| == |s.calls| && ChannelKept(CallerStep(s, c, a).calls[c])
  {
  }

  lemma CallerChanges(s: State, c: nat, a: CallerAction)
    requires EntriesOwned(s) && Correlation(s) && CallerEnabled(s, c, a)
    ensures CallChanged(s, CallerStep(s, c, a), c)
  {
    CallerChangesItsCall(s, c, a);
    CallerKeepsChannel(s, c, a);
    CallerStaysExplained(s, c, a);
  }

  lemma CallChangedKeepsCorrelation(s: State, t: State, c: nat)
    requires Correlation(s) && CallChanged(s, t, c)
    ensures Correlation(t)
  {
    forall i | 0 <= i < |t.queue|
      ensures Genuine(t.calls, t.queue[i])
    {
      assert i < |s.queue| ==> t.queue[i] == s.queue[i];
    }
    forall d: nat, i | d < |t.calls| && 0 <= i < |t.calls[d].delivered|
      ensures Fits(t.calls, d, t.calls[d].delivered[i])
    {
      ExtensionKeepsFits(s.calls, t.calls, d, s.calls[d].delivered[i]);
    }
    forall d: nat | d < |t.calls|
      ensures Explained(t.calls, d)
    {
      if d != c {
        ExtensionKeepsExplained(s.calls, t.calls, d);
      }
    }
  }

  lemma ExtensionKeepsCaused(before: seq<Call>, after: seq<Call>, d: Delivery)
    requires Extends(before, after) && Caused(before, d.key, d.result, d.record, d.cause)
    ensures Caused(after, d.key, d.result, d.record, d.cause)
  {
  }

  /** Requests are still those of registered calls, and the reader's result still has its cause. */
  lemma ArrivalKeepsReader(s: State, t: State)
    requires RequestsGenuine(s) && ResultsFit(s) && Extends(s.calls, t.calls)
    requires t.reader == s.reader && t.writer == s.writer && t.written == s.written && t.queue == s.queue
    ensures RequestsGenuine(t)
    ensures t.reader.Searching? ==>
      && t.reader.next <= |OFFSETS|
      && Caused(t.calls, t.reader.key, t.reader.result, t.reader.record, t.reader.cause)
    ensures t.reader.Delivering? ==> Fits(t.calls, t.reader.target, t.reader.delivery)
  {
    if t.reader.Searching? {
      ExtensionKeepsCaused(s.calls, t.calls, Delivery(s.reader.result, s.reader.key, s.reader.record, s.reader.cause));
    }
    if t.reader.Delivering? {
      ExtensionKeepsFits(s.calls, t.calls, s.reader.target, s.reader.delivery);
    }
  }

  lemma ArrivalKeepsResults(s: State, t: State, call: Call)
    requires RequestsGenuine(s) && ResultsFit(s) && Extends(s.calls, t.calls) && t.calls == s.calls + [call]
    requires call.phase.Arrived? && call.delivered == [] && call.inbox.None?
    requires t.reader == s.reader && t.writer == s.writer && t.written == s.written && t.queue == s.queue
    ensures RequestsGenuine(t) && ResultsFit(t)
  {
    ArrivalKeepsReader(s, t);
    forall d: nat, i | d < |t.calls| && 0 <= i < |t.calls[d].delivered|
      ensures Fits(t.calls, d, t.calls[d].delivered[i])
    {
      ExtensionKeepsFits(s.calls, t.calls, d, s.calls[d].delivered[i]);
    }
  }

  /** Calls keep what was delivered to them; nothing else about correlation changes. */
  lemma ArrivalKeepsCorrelation(s: State, t: State, call: Call)
    requires Correlation(s) && t.calls == s.calls + [call]
    requires call.phase.Arrived? && call.delivered == [] && call.inbox.None?
    requires t.reader == s.reader && t.writer == s.writer && t.written == s.written && t.queue == s.queue
    ensures Correlation(t)
  {
    assert Extends(s.calls, t.calls);
    ArrivalKeepsResults(s, t, call);
    forall d: nat | d < |t.calls|
      ensures Explained(t.calls, d)
    {
      if d < |s.calls| {
        ExtensionKeepsExplained(s.calls, t.calls, d);
      }
    }
  }

  lemma WriterKeepsCorrelation(s: State, a: WriterAction)
    requires Correlation(s) && WriterEnabled(s, a)
    ensures Correlation(WriterStep(s, a))
  {
  }

  lemma ReadKeepsCorrelation(s: State, record: Record, line: nat)
    requires Ownership(s) && Correlation(s) && ReaderEnabled(s, Read(record, line))
    ensures Correlation(ReaderStep(s, Read(record, line)))
  {
    var request := s.written[line];
    EchoedRecordsCarryTheTuple(request.pd, request.ttl, record);
    assert Genuine(s.calls, request);
  }

  /** An entry found at one of the five offsets belongs to a call the result fits. */
  lemma FoundCallsFit(s: State)
    requires EntriesOwned(s) && s.reader.Searching? && s.reader.next < |OFFSETS|
    requires Caused(s.calls, s.reader.key, s.reader.result, s.reader.record, s.reader.cause)
    requires SearchKey(s.reader.key, s.reader.next) in s.inFlight
    ensures Fits(s.calls, s.inFlight[SearchKey(s.reader.key, s.reader.next)].resultCh,
      Delivery(s.reader.result, s.reader.key, s.reader.record, s.reader.cause))
  {
    var k := SearchKey(s.reader.key, s.reader.next);
    assert s.calls[s.inFlight[k].resultCh].key == k;
    assert OFFSETS[s.reader.next] in {0, -1, 1, -2, 2};
  }

  lemma LookUpKeepsCorrelation(s: State)
    requires EntriesOwned(s) && Correlation(s) && s.reader.Searching?
    ensures Correlation(LookUpNext(s))
  {
    if s.reader.next < |OFFSETS| && SearchKey(s.reader.key, s.reader.next) in s.inFlight {
      FoundCallsFit(s);
    }
  }

  /** The effect of a send that finds room in the channel. */
  ghost predicate Sent(s: State, t: State, c: nat, d: Delivery) {
    && c < |s.calls|
    && s.calls[c].inbox.None?
    && t.calls == s.calls[c := s.calls[c].(inbox := Some(d), delivered := s.calls[c].delivered + [d])]
    && t.reader.Reading? && t.writer == s.writer && t.written == s.written && t.queue == s.queue
  }

  lemma SendExtends(s: State, t: State, c: nat, d: Delivery)
    requires Sent(s, t, c, d)
    ensures Extends(s.calls, t.calls)
  {
  }

  lemma SendKeepsRequests(s: State, t: State, c: nat, d: Delivery)
    requires RequestsGenuine(s) && Sent(s, t, c, d) && Extends(s.calls, t.calls)
    ensures RequestsGenuine(t)
  {
  }

  lemma SendKeepsChannel(s: State, t: State, c: nat, d: Delivery)
    requires ResultsFit(s) && Fits(s.calls, c, d) && Sent(s, t, c, d)
    ensures ChannelKept(t.calls[c])
  {
    assert ChannelKept(s.calls[c]);
  }

  lemma SendKeepsResults(s: State, t: State, c: nat, d: Delivery)
    requires ResultsFit(s) && Fits(s.calls, c, d) && Sent(s, t, c, d) && Extends(s.calls, t.calls)
    ensures ResultsFit(t)
  {
    forall e: nat, i | e < |t.calls| && 0 <= i < |t.calls[e].delivered|
      ensures Fits(t.calls, e, t.calls[e].delivered[i])
    {
      ExtensionKeepsFits(s.calls, t.calls, e, if i < |s.calls[e].delivered| then s.calls[e].delivered[i] else d);
    }
    SendKeepsChannel(s, t, c, d);
  }

  lemma SendKeepsCorrelation(s: State, t: State, c: nat, d: Delivery)
    requires Correlation(s) && Fits(s.calls, c, d) && Sent(s, t, c, d)
    ensures Correlation(t)
  {
    SendExtends(s, t, c, d);
    SendKeepsRequests(s, t, c, d);
    SendKeepsResults(s, t, c, d);
    forall e: nat | e < |t.calls|
      ensures Explained(t.calls, e)
    {
      ExtensionKeepsExplained(s.calls, t.calls, e);
    }
  }

  lemma ReaderKeepsCorrelation(s: State, a: ReaderAction)
    requires Ownership(s) && Correlation(s) && ReaderEnabled(s, a)
    ensures Correlation(ReaderStep(s, a))
  {
    match a
    case Read(record, line) => ReadKeepsCorrelation(s, record, line);
    case ReadUnusable(record) =>
    case LookUp => LookUpKeepsCorrelation(s);
    case Deliver =>
      if s.calls[s.reader.target].inbox.None? {
        SendKeepsCorrelation(s, DeliverResult(s), s.reader.target, s.reader.delivery);
      }
  }

  lemma CorrelationUntouched(s: State, t: State)
    requires Correlation(s) && t.calls == s.calls && t.reader == s.reader
    requires t.writer == s.writer && t.written == s.written && t.queue == s.queue
    ensures Correlation(t)
  {
  }

  lemma StepKeepsCorrelation(s: State, e: Event)
    requires Ownership(s) && Correlation(s) && Enabled(s, e)
    ensures Correlation(Step(s, e))
  {
    match e
    case ByCaller(c, a) =>
      CallerChanges(s, c, a);
      CallChangedKeepsCorrelation(s, CallerStep(s, c, a), c);
    case ByReader(a) => ReaderKeepsCorrelation(s, a);
    case ByWriter(a) => WriterKeepsCorrelation(s, a);
    case Arrive(pd, ttl) => ArrivalKeepsCorrelation(s, Step(s, e), NewCall(pd, ttl, s.now));
    case _ => CorrelationUntouched(s, Step(s, e));
  }

  // ----- metrics -----

  /** One for a call that has deleted an entry and not yet decremented the gauge. */
  function Undiscounted(call: Call): int {
    if call.phase.Discounting? then 1 else 0
  }

  function Rejections(call: Call): int {
    if call.phase.Returned? && call.phase.outcome.Duplicate? then 1 else 0
  }

  function Registrations(call: Call): int {
    if call.HasRegistered() then 1 else 0
  }

  function Deliveries(call: Call): int {
    |call.delivered|
  }

  /** Entries swept and not yet reported, and not yet taken off the gauge. */
  function Unreported(cleaner: Cleaner): nat {
    if cleaner.CleanerReporting? then cleaner.cleaned else 0
  }

  function Pending(cleaner: Cleaner): nat {
    if cleaner.CleanerReporting? || cleaner.CleanerLowering? then cleaner.cleaned else 0
  }

  ghost predicate MetersBalance(s: State) {
    && s.meters.inFlightProbes == |s.inFlight| + Total(s.calls, Undiscounted) + Pending(s.cleaner)
    && s.meters.duplicateProbes == Total(s.calls, Rejections)
    && s.meters.registered == Total(s.calls, Registrations)
    && s.meters.registered == s.meters.ownRemovals + s.meters.swept + |s.inFlight|
    && s.meters.swept == s.meters.staleProbesCleaned + Unreported(s.cleaner)
  }

  /** Every record read ends in one of five ways, or is still being worked on. */
  ghost predicate RecordsAccounted(s: State) {
    && s.tally.records == s.tally.rejected + s.tally.skipped + s.tally.delivered + s.tally.dropped
      + s.tally.correlationFailures + (if s.reader.Reading? then 0 else 1)
    && s.tally.delivered == Total(s.calls, Deliveries)
  }

  /** What a caller's step adds to the counts of calls. */
  lemma CallerCounts(s: State, c: nat, a: CallerAction)
    requires CallerEnabled(s, c, a) && ChannelKept(s.calls[c])
    ensures var t := CallerStep(s, c, a);
      && |t.calls| == |s.calls|
      && t.meters.duplicateProbes - s.meters.duplicateProbes == Rejections(t.calls[c]) - Rejections(s.calls[c])
      && t.meters.registered - s.meters.registered == Registrations(t.calls[c]) - Registrations(s.calls[c])
  {
  }

  /** What it adds to the gauge and to the size of the table. */
  lemma CallerMeters(s: State, c: nat, a: CallerAction)
    requires CallerEnabled(s, c, a)
    ensures var t := CallerStep(s, c, a);
      && |t.calls| == |s.calls|
      && t.meters.inFlightProbes - |t.inFlight| - Undiscounted(t.calls[c])
         == s.meters.inFlightProbes - |s.inFlight| - Undiscounted(s.calls[c])
      && t.meters.registered - t.meters.ownRemovals - |t.inFlight|
         == s.meters.registered - s.meters.ownRemovals - |s.inFlight|
  {
    var t := CallerStep(s, c, a);
    if a.Remove? && s.calls[c].key in s.inFlight {
      KeyRemoved(s.inFlight, s.calls[c].key);
    } else if a.Register? && s.calls[c].key !in s.inFlight {
      KeyAdded(s.inFlight, s.calls[c].key, InFlightProbe(c, s.calls[c].queued));
    } else {
      assert t.inFlight == s.inFlight;
    }
  }

  lemma SweepCountsUntouched(s: State, c: nat, a: CallerAction)
    requires CallerEnabled(s, c, a)
    ensures var t := CallerStep(s, c, a);
      t.meters.swept == s.meters.swept && t.meters.staleProbesCleaned == s.meters.staleProbesCleaned
  {
  }

  lemma KeyRemoved(m: map<ProbeKey, InFlightProbe>, k: ProbeKey)
    requires k in m
    ensures |m - {k}| == |m| - 1
  {
    assert (m - {k}).Keys == m.Keys - {k};
  }

  lemma KeyAdded(m: map<ProbeKey, InFlightProbe>, k: ProbeKey, e: InFlightProbe)
    requires k !in m
    ensures |m[k := e]| == |m| + 1
  {
    assert m[k := e].Keys == m.Keys + {k};
  }

  lemma CallerKeepsMeters(s: State, c: nat, a: CallerAction)
    requires MetersBalance(s) && CallerEnabled(s, c, a) && ChannelKept(s.calls[c])
    ensures MetersBalance(CallerStep(s, c, a))
  {
    CallerMeters(s, c, a);
    CallerCounts(s, c, a);
    SweepCountsUntouched(s, c, a);
    CallerChangesItsCall(s, c, a);
    var call := CallerStep(s, c, a).calls[c];
    TotalUpdate(s.calls, c, call, Undiscounted);
    TotalUpdate(s.calls, c, call, Rejections);
    TotalUpdate(s.calls, c, call, Registrations);
  }

  lemma ReaderKeepsMeters(s: State, a: ReaderAction)
    requires MetersBalance(s) && ReaderEnabled(s, a)
    ensures MetersBalance(ReaderStep(s, a))
  {
    ReaderLeavesTheTable(s, a);
    if a.Deliver? {
      var target := s.reader.target;
      var call := ReaderStep(s, a).calls[target];
      TotalUpdate(s.calls, target, call, Undiscounted);
      TotalUpdate(s.calls, target, call, Rejections);
      TotalUpdate(s.calls, target, call, Registrations);
    }
  }

  lemma CleanerKeepsMeters(s: State, a: CleanerAction)
    requires MetersBalance(s) && CleanerEnabled(s, a)
    ensures MetersBalance(CleanerStep(s, a))
  {
    if a.Sweep? {
      var kept := Fresh(s.inFlight, s.cleaner.cutoff);
      assert s.inFlight.Keys == kept.Keys + (s.inFlight.Keys - kept.Keys);
      assert |s.inFlight.Keys| == |kept.Keys| + |s.inFlight.Keys - kept.Keys|;
    }
  }

  lemma ArrivalKeepsMeters(s: State, call: Call)
    requires MetersBalance(s) && call.phase.Arrived?
    ensures MetersBalance(s.(calls := s.calls + [call]))
  {
    TotalAppend(s.calls, call, Undiscounted);
    TotalAppend(s.calls, call, Rejections);
    TotalAppend(s.calls, call, Registrations);
  }

  lemma StepKeepsMeters(s: State, e: Event)
    requires MetersBalance(s) && ResultsFit(s) && Enabled(s, e)
    ensures MetersBalance(Step(s, e))
  {
    match e
    case ByCaller(c, a) => CallerKeepsMeters(s, c, a);
    case ByReader(a) => ReaderKeepsMeters(s, a);
    case ByCleaner(a) => CleanerKeepsMeters(s, a);
    case Arrive(pd, ttl) => ArrivalKeepsMeters(s, NewCall(pd, ttl, s.now));
    case _ =>
  }

  lemma ReaderKeepsRecordsAccounted(s: State, a: ReaderAction)
    requires RecordsAccounted(s) && ReaderEnabled(s, a)
    ensures RecordsAccounted(ReaderStep(s, a))
  {
    if a.Deliver? {
      var target := s.reader.target;
      TotalUpdate(s.calls, target, ReaderStep(s, a).calls[target], Deliveries);
    }
  }

  lemma StepKeepsRecordsAccounted(s: State, e: Event)
    requires RecordsAccounted(s) && Enabled(s, e)
    ensures RecordsAccounted(Step(s, e))
  {
    match e
    case ByReader(a) => ReaderKeepsRecordsAccounted(s, a);
    case ByCaller(c, a) =>
      CallerChangesItsCall(s, c, a);
      TotalUpdate(s.calls, c, CallerStep(s, c, a).calls[c], Deliveries);
    case Arrive(pd, ttl) => TotalAppend(s.calls, NewCall(pd, ttl, s.now), Deliveries);
    case _ =>
  }

  // ----- the write queue -----

  function InWriter(w: Writer): seq<ProbeRequest> {
    match w
    case WriterReady => []
    case WriterHolding(request) => [request]
    case WriterStopped(gone) => if gone.Some? then [gone.value] else []
  }

  /** Requests are written in the order queued, within the queue's capacity, and only a failed write loses one. */
  ghost predicate QueueKept(s: State) {
    && s.enqueued == s.written + InWriter(s.writer) + s.queue
    && |s.queue| <= s.capacity
  }

  lemma CallerKeepsQueue(s: State, c: nat, a: CallerAction)
    requires QueueKept(s) && CallerEnabled(s, c, a)
    ensures QueueKept(CallerStep(s, c, a))
  {
    CallerChangesItsCall(s, c, a);
  }

  lemma StepKeepsQueue(s: State, e: Event)
    requires QueueKept(s) && Enabled(s, e)
    ensures QueueKept(Step(s, e))
  {
    match e
    case ByCaller(c, a) => CallerKeepsQueue(s, c, a);
    case ByReader(a) => ReaderLeavesTheTable(s, a);
    case ByWriter(a) =>
    case _ =>
  }

  // ----- every run -----

  ghost predicate Invariant(s: State) {
    Ownership(s) && Correlation(s) && MetersBalance(s) && RecordsAccounted(s) && QueueKept(s)
  }

  lemma StepKeepsInvariant(s: State, e: Event)
    requires Invariant(s) && Enabled(s, e)
    ensures Invariant(Step(s, e))
  {
    StepKeepsOwnership(s, e);
    StepKeepsCorrelation(s, e);
    StepKeepsMeters(s, e);
    StepKeepsRecordsAccounted(s, e);
    StepKeepsQueue(s, e);
  }

  lemma {:induction false} RunKeepsInvariant(s: State, events: seq<Event>)
    requires Invariant(s) && Feasible(s, events)
    ensures Invariant(After(s, events))
    decreases |events|
  {
    if events != [] {
      StepKeepsInvariant(s, events[0]);
      RunKeepsInvariant(Step(s, events[0]), events[1..]);
    }
  }

  lemma InvariantHolds(s: State)
    requires Reachable(s)
    ensures Invariant(s)
  {
    var timeout: int, capacity: nat, start: int, events: seq<Event> :|
      && timeout > 0
      && Feasible(Initial(timeout, capacity, start), events)
      && s == After(Initial(timeout, capacity, start), events);
    RunKeepsInvariant(Initial(timeout, capacity, start), events);
  }
}
