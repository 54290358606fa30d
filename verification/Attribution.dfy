// Which call a result reaches, and when a call is rejected as a duplicate: over all runs, with the exact spacing of
// equal 5-tuples under which the answer is the right one.
module Attribution {
  import opened Wrappers
  import opened GoNumbers
  import opened Directives
  import opened CaracalRecords
  import opened ProbeTable
  import opened ProbeTableInvariants
  import opened ProbeTableTheorems

  // ----- which result a call returns -----

  /** Call `c` is returning, or has returned, the result `d`. */
  predicate Answers(s: State, c: nat, d: Delivery) {
    c < |s.calls| && HasOutcome(s.calls[c], Replied(d))
  }

  predicate Within(a: int, b: int, distance: int) {
    -distance <= a - b <= distance
  }

  /** Distinct registered calls with the same 5-tuple have key seconds at least `spacing` apart. */
  predicate Spaced(s: State, spacing: int) {
    forall c, d ::
      (0 <= c < d < |s.calls| && s.calls[c].HasRegistered() && s.calls[d].HasRegistered()
       && s.calls[c].key.tuple == s.calls[d].key.tuple)
      ==> !Within(s.calls[c].key.correlationSecond, s.calls[d].key.correlationSecond, spacing - 1)
  }

  /**
   * A call returns the first result ever sent to it: one caracal reported for a request with this call's
   * 5-tuple, in a record whose columns say what the result says, and reconstructed to a send second at most two from
   * this call's key second.
   */
  lemma AnswersFit(s: State, c: nat, d: Delivery)
    requires Reachable(s) && Answers(s, c, d)
    ensures s.calls[c].delivered != [] && s.calls[c].delivered[0] == d
    ensures d.key.tuple == TupleOf(s.calls[c].pd, s.calls[c].ttl)
    ensures Within(d.key.correlationSecond, Unix(s.calls[c].queued), 2)
    ensures d.key.correlationSecond == Unix(d.result.sentTime) && !d.result.timedOut
    ensures d.cause < |s.calls| && s.calls[d.cause].HasRegistered()
    ensures TupleOf(s.calls[d.cause].pd, s.calls[d.cause].ttl) == d.key.tuple
    ensures Reported(d.record, s.calls[d.cause].pd, s.calls[d.cause].ttl, d.key, d.result)
    ensures ReadsAs(d.record, d.result)
  {
    InvariantHolds(s);
    assert ChannelKept(s.calls[c]);
    assert Fits(s.calls, c, s.calls[c].delivered[0]);
    assert TimelyCall(s.calls[c], s.now) && TimelyCall(s.calls[d.cause], s.now);
    AcceptedResults(d.record);
  }

  /** A result channel never holds more than it has room for, and a waiting call has been sent at most one result. */
  lemma AtMostOneResultWaits(s: State, c: nat)
    requires Reachable(s) && c < |s.calls|
    ensures s.calls[c].phase.Waiting? || s.calls[c].phase.Enqueued? || s.calls[c].phase.Registered? ==>
      |s.calls[c].delivered| <= 1 && (s.calls[c].inbox.Some? <==> |s.calls[c].delivered| == 1)
  {
    InvariantHolds(s);
    assert ChannelKept(s.calls[c]);
  }

  /** Every answer is to the call's own request, if replies stay within `window` seconds and calls further apart. */
  lemma AnswersAreOwn(s: State, c: nat, d: Delivery, window: int, spacing: int)
    requires Reachable(s) && Answers(s, c, d) && Spaced(s, spacing)
    requires d.cause < |s.calls| && Within(d.key.correlationSecond, s.calls[d.cause].key.correlationSecond, window)
    requires spacing > window + 2
    ensures d.cause == c
  {
    AnswersFit(s, c, d);
    InvariantHolds(s);
    assert TimelyCall(s.calls[c], s.now) && TimelyCall(s.calls[d.cause], s.now);
  }

  /** The result was reconstructed within `window` seconds of the key second of the request it answers. */
  predicate RepliedWithin(s: State, d: Delivery, window: int) {
    && d.cause < |s.calls|
    && Within(d.key.correlationSecond, s.calls[d.cause].key.correlationSecond, window)
  }

  /**
   * With replies reconstructed within `window` seconds of their own request's key second, every call returns the
   * result of its own request, under all interleavings, exactly when calls with the same 5-tuple are kept more
   * than `window` + 2 key seconds apart.
   */
  lemma AttributionIffSpacing(window: nat, spacing: int)
    ensures (forall s: State, c: nat, d: Delivery ::
        Reachable(s) && Spaced(s, spacing) && Answers(s, c, d) && RepliedWithin(s, d, window) ==> d.cause == c)
      <==> spacing > window + 2
  {
    forall s: State, c: nat, d: Delivery |
        spacing > window + 2 && Reachable(s) && Spaced(s, spacing) && Answers(s, c, d) && RepliedWithin(s, d, window)
      ensures d.cause == c
    {
      AnswersAreOwn(s, c, d, window, spacing);
    }
    if spacing <= window + 2 {
      var s, d := MisattributionRun(window);
      assert Spaced(s, spacing) && RepliedWithin(s, d, window);
    }
  }

  /** The same on the clock itself: replies within 2 s of their queueing, calls 5 s apart. */
  lemma RealTimeAttribution(s: State, c: nat, d: Delivery)
    requires Reachable(s) && Answers(s, c, d)
    requires d.cause < |s.calls| ==> Within(d.result.sentTime, s.calls[d.cause].queued, 2 * SECOND)
    requires forall a, b :: 0 <= a < b < |s.calls| && s.calls[a].key.tuple == s.calls[b].key.tuple ==>
      !Within(s.calls[a].queued, s.calls[b].queued, 5 * SECOND - 1)
    ensures d.cause == c
  {
    InvariantHolds(s);
    AnswersFit(s, c, d);
    forall a | 0 <= a < |s.calls|
      ensures s.calls[a].key.correlationSecond == Unix(s.calls[a].queued)
    {
      assert TimelyCall(s.calls[a], s.now);
    }
    assert Spaced(s, 5);
    AnswersAreOwn(s, c, d, 2, 5);
  }

  /** Call 0 has given up; call 1 was queued in second 2, `gap` key seconds after it, and is registered. */
  predicate Succeeded(s: State, gap: int) {
    && |s.calls| == 2 && s.capacity == 1 && s.queue == []
    && s.calls[0].key == BuildProbeKeyFromDirective(SOME_DIRECTIVE, 1, 2 - gap)
    && s.calls[0].phase == Returned(Cancelled)
    && s.calls[1].key == BuildProbeKeyFromDirective(SOME_DIRECTIVE, 1, 2)
    && s.calls[1].phase.Registered? && s.calls[1].inbox.None?
  }

  /**
   * With calls `window` + 2 key seconds apart, a reply that comes at the end of the window to a call that gave up
   * is returned by its successor.
   */
  lemma MisattributionRun(window: nat) returns (s: State, d: Delivery)
    ensures Reachable(s) && Answers(s, 1, d) && d.cause == 0 && |s.calls| == 2
    ensures s.calls[0].key.correlationSecond == 0 - window && s.calls[1].key.correlationSecond == 2
    ensures d.key.correlationSecond == 0
    ensures Spaced(s, window + 2)
  {
    s := MatchedLateRun(window + 2);
    d := s.reader.delivery;
    s := Extend(s, ByReader(Deliver));
    s := WaitAndReceive(s, d);
  }

  lemma WaitAndReceive(s: State, d: Delivery) returns (t: State)
    requires Reachable(s) && |s.calls| == 2 && s.capacity == 1 && s.queue == []
    requires s.calls[1].phase.Registered? && s.calls[1].inbox == Some(d)
    ensures Reachable(t) && |t.calls| == 2 && Answers(t, 1, d)
    ensures t.calls[0] == s.calls[0] && t.calls[1].key == s.calls[1].key
  {
    t := Extend(s, ByCaller(1, Enqueue));
    t := Extend(t, ByCaller(1, StartTimer));
    t := Extend(t, ByCaller(1, Receive));
  }

  /** The reply, reconstructed to second 0, finds the entry of second 2 at the last offset. */
  lemma MatchedLateRun(gap: nat) returns (s: State)
    ensures Reachable(s) && Succeeded(s, gap)
    ensures s.reader.Delivering? && s.reader.target == 1 && s.reader.delivery.cause == 0
    ensures s.reader.delivery.key.correlationSecond == 0
  {
    s := SearchingRun(gap);
    ghost var reader := s.reader;
    var next := 0;
    while next < 4
      invariant 0 <= next <= 4
      invariant Reachable(s) && Succeeded(s, gap) && s.inFlight.Keys == {s.calls[1].key} && s.Owns(1)
      invariant s.reader == reader.(next := next)
    {
      assert SearchKey(reader.key, next).correlationSecond != 2;
      s := Extend(s, ByReader(LookUp));
      next := next + 1;
    }
    assert SearchKey(reader.key, 4) == s.calls[1].key;
    s := Extend(s, ByReader(LookUp));
  }

  lemma SearchingRun(gap: nat) returns (s: State)
    ensures Reachable(s) && Succeeded(s, gap) && s.inFlight.Keys == {s.calls[1].key} && s.Owns(1)
    ensures s.reader.Searching? && s.reader.key == BuildProbeKeyFromDirective(SOME_DIRECTIVE, 1, 0)
    ensures s.reader.cause == 0 && s.reader.next == 0
  {
    s := SuccessorRun(gap);
    var record := ReplySentAt(SOME_DIRECTIVE, 1, 0, 0);
    s := Extend(s, ByReader(Read(record, 0)));
  }

  lemma SuccessorRun(gap: nat) returns (s: State)
    ensures Reachable(s) && Succeeded(s, gap) && s.inFlight.Keys == {s.calls[1].key} && s.Owns(1)
    ensures s.written == [ProbeRequest(SOME_DIRECTIVE, 1, 0)] && s.reader.Reading?
  {
    s := AbandonedCallRun((2 - gap) * SECOND);
    s := Extend(s, Tick(2 * SECOND));
    s := Extend(s, Arrive(SOME_DIRECTIVE, 1));
    s := Extend(s, ByCaller(1, Register));
  }

  /** Call 0 gives up waiting after its request was written. */
  lemma AbandonedCallRun(start: int) returns (s: State)
    ensures Reachable(s) && |s.calls| == 1 && s.capacity == 1 && s.queue == [] && s.inFlight == map[]
    ensures s.now == start && s.calls[0].key == BuildProbeKeyFromDirective(SOME_DIRECTIVE, 1, Unix(start))
    ensures s.calls[0].phase == Returned(Cancelled)
    ensures s.written == [ProbeRequest(SOME_DIRECTIVE, 1, 0)] && s.reader.Reading?
  {
    s := WrittenCallRun(start);
    s := Extend(s, ByCaller(0, StartTimer));
    s := Extend(s, ByCaller(0, AbandonWait));
    s := Extend(s, ByCaller(0, Remove));
    s := Extend(s, ByCaller(0, Discount));
  }

  lemma WrittenCallRun(start: int) returns (s: State)
    ensures Reachable(s) && s.capacity == 1 && s.queue == [] && s.now == start
    ensures s.calls == [NewCall(SOME_DIRECTIVE, 1, start).(phase := Enqueued)]
    ensures s.inFlight == map[s.calls[0].key := InFlightProbe(0, start)]
    ensures s.written == [ProbeRequest(SOME_DIRECTIVE, 1, 0)] && s.reader.Reading?
  {
    s := RegisteredCallRun(1, 1, start, SOME_DIRECTIVE);
    s := Extend(s, ByCaller(0, Enqueue));
    s := Extend(s, ByWriter(Take));
    s := Extend(s, ByWriter(Write));
  }

  /** A report on a directive with a chosen capture time and RTT. */
  lemma ReplyCapturedAt(pd: Directive, ttl: uint8, micros: int, rtt: int) returns (record: Record)
    requires Valid(pd)
    ensures |record| == 17 && record[0] == Plain(Itoa(micros)) && record[15] == Plain(Itoa(rtt))
    ensures Echoes(record, EncodeRequest(pd, ttl))
  {
    var rest := seq(17, i => Plain(""))[0 := Plain(Itoa(micros))][15 := Plain(Itoa(rtt))];
    ValidDirectivesAreEchoed(pd, ttl, rest);
    record :| |record| == |rest| && record[0] == rest[0] && record[15] == rest[15]
      && Echoes(record, EncodeRequest(pd, ttl));
  }

  lemma SentBeforeCaptured(record: Record, micros: int, rtt: int)
    requires |record| == 17 && record[0] == Plain(Itoa(micros)) && record[15] == Plain(Itoa(rtt))
    requires IsInt64(micros) && IsInt64(rtt) && RttFits(rtt)
    requires 1_000 * micros != ZERO_TIME && 1_000 * micros - 100_000 * rtt != ZERO_TIME
    ensures HasTimes(record) && Micros(record) == micros && Rtt(record) == rtt
    ensures ParseProbeResult(record).Some?
    ensures ParseProbeResult(record).value.sentTime == 1_000 * micros - 100_000 * rtt
  {
    ItoaParseInt64(micros);
    ItoaParseInt64(rtt);
    CaptureTimeIsExact(micros);
    TimestampArithmetic(micros, rtt);
  }

  /** Caracal can report on any valid directive at any representable microsecond and RTT but Go's zero time. */
  lemma ReplySentAt(pd: Directive, ttl: uint8, micros: int, rtt: int) returns (record: Record)
    requires Valid(pd) && IsInt64(micros) && IsInt64(rtt) && RttFits(rtt)
    requires 1_000 * micros != ZERO_TIME && 1_000 * micros - 100_000 * rtt != ZERO_TIME
    ensures Echoes(record, EncodeRequest(pd, ttl))
    ensures var v := Classify(record);
      v.Accepted? && v.key == BuildProbeKeyFromDirective(pd, ttl, (micros - 100 * rtt) / 1_000_000)
  {
    record := ReplyCapturedAt(pd, ttl, micros, rtt);
    SentBeforeCaptured(record, micros, rtt);
    KeyRoundTrip(pd, ttl, record, 1_000 * micros - 100_000 * rtt);
    AcceptedResults(record);
  }

  // ----- duplicates -----

  /** A call with this key has registered and not yet run its deferred delete. */
  predicate KeyHeld(s: State, key: ProbeKey) {
    exists d :: 0 <= d < |s.calls| && s.calls[d].key == key && s.calls[d].Live()
  }

  /** `c` can take the lock, within `bound` of reading the clock. */
  predicate AboutToLock(s: State, c: nat, bound: int) {
    CallerEnabled(s, c, Register) && s.now - s.calls[c].queued <= bound
  }

  /** `c` takes the lock and finds its key in use. */
  predicate IsRejected(s: State, c: nat)
    requires CallerEnabled(s, c, Register)
  {
    RegisterCall(s, c).calls[c].Rejected()
  }

  lemma HeldKeysHaveEntries(s: State, c: nat, d: nat)
    requires Reachable(s) && LocksWithin(s, PunctualDelay(s.timeout)) && AboutToLock(s, c, PunctualDelay(s.timeout))
    requires d < |s.calls| && s.calls[d].key == s.calls[c].key && s.calls[d].Live()
    ensures s.Owns(d)
  {
    ClocksFit(s, c);
    ClocksFit(s, d);
    EntriesOutliveTheMargin(s, d);
  }

  lemma ClocksFit(s: State, c: nat)
    requires Reachable(s) && c < |s.calls|
    ensures TimelyCall(s.calls[c], s.now)
  {
    InvariantHolds(s);
  }

  /** Among punctual calls, a call is rejected exactly when another call holds its key as it takes the lock. */
  lemma RejectedIffKeyHeld(s: State, c: nat)
    requires Reachable(s) && LocksWithin(s, PunctualDelay(s.timeout)) && AboutToLock(s, c, PunctualDelay(s.timeout))
    ensures IsRejected(s, c) <==> KeyHeld(s, s.calls[c].key)
  {
    var key := s.calls[c].key;
    if key in s.inFlight {
      EveryEntryHasOneLiveOwner(s, key);
    }
    if KeyHeld(s, key) {
      var d: nat :| d < |s.calls| && s.calls[d].key == key && s.calls[d].Live();
      HeldKeysHaveEntries(s, c, d);
    }
  }

  /**
   * The deduplication rejects exactly the calls whose key another call holds, in all runs with a given bound on the
   * delay between clock and lock, exactly when the bound is at most ProbeTimeout + 4 s + 1 ns. Beyond it a call can
   * register although an older one with its key, whose entry was swept, is still there.
   */
  lemma DeduplicationIffPunctual(timeout: int, bound: int)
    requires timeout > 0
    ensures
      (forall s: State, c: nat ::
        Reachable(s) && s.timeout == timeout && LocksWithin(s, bound) && AboutToLock(s, c, bound)
        ==> (IsRejected(s, c) <==> KeyHeld(s, s.calls[c].key)))
      <==> bound <= PunctualDelay(timeout)
  {
    forall s: State, c: nat |
        bound <= PunctualDelay(timeout) && Reachable(s) && s.timeout == timeout && LocksWithin(s, bound)
        && AboutToLock(s, c, bound)
      ensures IsRejected(s, c) <==> KeyHeld(s, s.calls[c].key)
    {
      RejectedIffKeyHeld(s, c);
    }
    if bound > PunctualDelay(timeout) {
      var s := StaleRegistrationRun(timeout, 1, SOME_DIRECTIVE);
      assert AboutToLock(s, 1, bound) && LocksWithin(s, bound);
      assert s.calls[0].key == s.calls[1].key && s.calls[0].Live();
      assert !IsRejected(s, 1);
    }
  }

  /** Two calls with one key, neither of them rejected: the first has returned before the second takes the lock. */
  lemma SharedSecondRun() returns (s: State)
    ensures Reachable(s) && |s.calls| == 2 && s.calls[0].key == s.calls[1].key
    ensures s.calls[0].phase == Returned(Cancelled) && s.calls[1].phase.Registered?
  {
    s := AbandonedCallRun(0);
    s := Extend(s, Arrive(SOME_DIRECTIVE, 1));
    s := Extend(s, ByCaller(1, Register));
  }

  /** Calls with the same 5-tuple, rejected ones included, have key seconds at least `spacing` apart. */
  predicate Apart(s: State, spacing: int) {
    forall c, d :: 0 <= c < d < |s.calls| && s.calls[c].key.tuple == s.calls[d].key.tuple ==>
      !Within(s.calls[c].key.correlationSecond, s.calls[d].key.correlationSecond, spacing - 1)
  }

  lemma RejectedCallsAreNotApart(s: State, c: nat, spacing: int)
    requires Reachable(s) && c < |s.calls| && s.calls[c].Rejected() && spacing >= 1
    ensures !Apart(s, spacing)
  {
    InvariantHolds(s);
    assert Explained(s.calls, c);
    var d := Blocker(s.calls[c]);
    assert Within(s.calls[c].key.correlationSecond, s.calls[d].key.correlationSecond, spacing - 1);
    assert Within(s.calls[d].key.correlationSecond, s.calls[c].key.correlationSecond, spacing - 1);
  }

  /** So one key second is the least spacing of equal 5-tuples under which no call is rejected in any run. */
  lemma LeastSpacingWithoutDuplicates(spacing: int)
    ensures (forall s: State, c: nat :: Reachable(s) && Apart(s, spacing) && c < |s.calls| ==> !s.calls[c].Rejected())
      <==> spacing >= 1
  {
    forall s: State, c: nat | spacing >= 1 && Reachable(s) && Apart(s, spacing) && c < |s.calls|
      ensures !s.calls[c].Rejected()
    {
      if s.calls[c].Rejected() {
        RejectedCallsAreNotApart(s, c, spacing);
      }
    }
    if spacing < 1 {
      var s := RejectedCallRun();
      assert Apart(s, spacing);
    }
  }

  /** Two calls for one directive and TTL in one second: the second is rejected. */
  lemma RejectedCallRun() returns (s: State)
    ensures Reachable(s) && s.timeout == 1 && s.capacity == 1 && s.now == 0 && s.queue == []
    ensures |s.calls| == 2 && s.calls[0] == NewCall(SOME_DIRECTIVE, 1, 0).(phase := Registered)
    ensures s.calls[1] == NewCall(SOME_DIRECTIVE, 1, 0).(phase := Returned(Duplicate(0)))
    ensures s.inFlight.Keys == {s.calls[0].key}
  {
    s := RegisteredCallRun(1, 1, 0, SOME_DIRECTIVE);
    s := Extend(s, Arrive(SOME_DIRECTIVE, 1));
    s := Extend(s, ByCaller(1, Register));
    s := Extend(s, ByCaller(1, CountDuplicate));
  }

  // ----- siblings -----

  /** A probe rejected as a duplicate collided with the same 5-tuple in the same second, never with its sibling. */
  lemma SiblingsNeverCollide(s: State, near: nat, far: nat)
    requires Reachable(s) && near < |s.calls| && far < |s.calls|
    requires s.calls[near].pd == s.calls[far].pd
    requires s.calls[near].ttl == s.calls[near].pd.nearTTL && s.calls[far].ttl == FarTTL(s.calls[far].pd)
    ensures s.calls[near].key != s.calls[far].key
    ensures s.calls[near].phase != Returned(Duplicate(far)) && s.calls[far].phase != Returned(Duplicate(near))
    ensures forall d: Delivery :: Answers(s, near, d) ==> !Answers(s, far, d) && d.cause != far
    ensures forall d: Delivery :: Answers(s, far, d) ==> !Answers(s, near, d) && d.cause != near
  {
    InvariantHolds(s);
    SiblingKeysDiffer(s.calls[near].pd, Unix(s.calls[near].queued), Unix(s.calls[far].queued));
    assert TimelyCall(s.calls[near], s.now) && TimelyCall(s.calls[far], s.now);
    assert Explained(s.calls, near) && Explained(s.calls, far);
    forall d: Delivery
      ensures Answers(s, near, d) ==> !Answers(s, far, d) && d.cause != far
      ensures Answers(s, far, d) ==> !Answers(s, near, d) && d.cause != near
    {
      if Answers(s, near, d) {
        AnswersFit(s, near, d);
      }
      if Answers(s, far, d) {
        AnswersFit(s, far, d);
      }
    }
  }

  // ----- the window, in real time -----

  /**
   * The five offsets cover exactly the seconds at distance two or less. An in-flight probe queued within 2.000 s
   * of the reconstructed send time is always among the keys searched, one 3 s or more away never is.
   */
  lemma SearchWindow(key: ProbeKey, sent: int, queued: int)
    requires key.correlationSecond == Unix(sent)
    ensures (exists i :: 0 <= i < |OFFSETS| && SearchKey(key, i) == key.(correlationSecond := Unix(queued)))
      <==> Within(Unix(queued), Unix(sent), 2)
    ensures Within(queued, sent, 2 * SECOND) ==> Within(Unix(queued), Unix(sent), 2)
    ensures Within(Unix(queued), Unix(sent), 2) ==> Within(queued, sent, 3 * SECOND - 1)
  {
    var distance := Unix(queued) - Unix(sent);
    if Within(Unix(queued), Unix(sent), 2) {
      var i := match distance case 0 => 0 case -1 => 1 case 1 => 2 case -2 => 3 case _ => 4;
      assert SearchKey(key, i) == key.(correlationSecond := Unix(queued));
    }
  }

  /** So no result sent 3 s or more from when a call was queued is ever delivered to it, early or late. */
  lemma DeliveriesAreRecent(s: State, c: nat, i: nat)
    requires Reachable(s) && c < |s.calls| && i < |s.calls[c].delivered|
    ensures Within(s.calls[c].queued, s.calls[c].delivered[i].result.sentTime, 3 * SECOND - 1)
  {
    InvariantHolds(s);
    var d := s.calls[c].delivered[i];
    assert Fits(s.calls, c, d) && TimelyCall(s.calls[c], s.now);
    SearchWindow(d.key, d.result.sentTime, s.calls[c].queued);
  }

  /** Nor is one ever returned. */
  lemma AnswersAreRecent(s: State, c: nat, d: Delivery)
    requires Reachable(s) && Answers(s, c, d)
    ensures Within(s.calls[c].queued, d.result.sentTime, 3 * SECOND - 1)
  {
    AnswersFit(s, c, d);
    DeliveriesAreRecent(s, c, 0);
  }
}
