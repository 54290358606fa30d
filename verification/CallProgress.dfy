// When a call of Probe can still come back without being cancelled: exactly when the write queue has, or can get, a
// place for its request. The prober's writer can stop while the callers' context lives on.
module CallProgress {
  import opened Directives
  import opened CaracalRecords
  import opened ProbeTable
  import opened ProbeTableInvariants
  import opened ProbeTableTheorems

  // ----- runs without cancellation -----

  predicate Cancels(e: Event) {
    e.ByCaller? && (e.caller.AbandonQueue? || e.caller.AbandonWait?)
  }

  /** Neither cancels a call nor makes a new one. */
  predicate Calm(e: Event) {
    !e.Arrive? && !Cancels(e)
  }

  /** Some run of calm events leads from `s` to `t`. */
  ghost predicate Calmly(s: State, t: State) {
    exists events: seq<Event> ::
      Feasible(s, events) && (forall i :: 0 <= i < |events| ==> Calm(events[i])) && After(s, events) == t
  }

  lemma CalmlyStays(s: State)
    ensures Calmly(s, s)
  {
    assert Feasible(s, []) && After(s, []) == s;
  }

  lemma CalmlyOn(s: State, t: State, e: Event)
    requires Calmly(s, t) && Enabled(t, e) && Calm(e)
    ensures Calmly(s, Step(t, e))
  {
    var events: seq<Event> :|
      Feasible(s, events) && (forall i :: 0 <= i < |events| ==> Calm(events[i])) && After(s, events) == t;
    RunSnoc(s, events, e);
    assert Feasible(s, events + [e]);
  }

  /** A reachable state that calm events lead to. */
  ghost predicate Onward(s: State, t: State) {
    Reachable(t) && Calmly(s, t)
  }

  lemma Go(s: State, t: State, e: Event) returns (u: State)
    requires Onward(s, t) && Enabled(t, e) && Calm(e)
    ensures u == Step(t, e) && Onward(s, u)
  {
    u := Step(t, e);
    CalmlyOn(s, t, e);
    ReachableStep(t, e);
  }

  // ----- places in the write queue -----

  /** The call can come to its deferred delete without queueing a request first. */
  predicate MayLeave(call: Call) {
    call.phase.Enqueued? || call.phase.Waiting? || call.phase.Leaving?
  }

  /** Some call with this key will delete the entry without queueing a request first. */
  predicate Freeable(s: State, key: ProbeKey) {
    exists d :: 0 <= d < |s.calls| && s.calls[d].key == key && MayLeave(s.calls[d])
  }

  /** The key stays in use unless a call that holds it gets a place in the queue. */
  predicate Blocked(s: State, key: ProbeKey) {
    key in s.inFlight && s.cleaner.CleanerStopped? && !Freeable(s, key)
  }

  /** The places in the write queue that must be had before `c` can return a result: its own, and its blocker's. */
  function Places(s: State, c: nat): nat
    requires c < |s.calls|
  {
    match s.calls[c].phase
    case Arrived => if Blocked(s, s.calls[c].key) then 2 else 1
    case Registered => 1
    case _ => 0
  }

  function Room(s: State): int {
    s.capacity - |s.queue|
  }

  /** Nobody will ever take from the queue, and it has fewer places left. */
  predicate Wedged(s: State, places: int) {
    s.writer.WriterStopped? && places > Room(s)
  }

  /** Everything but calls and entries under `key` is as it was; a queue that is not emptied any more stays so. */
  ghost predicate Spares(s: State, t: State, key: ProbeKey) {
    && t.timeout == s.timeout && t.capacity == s.capacity && |t.calls| == |s.calls|
    && (forall d :: 0 <= d < |s.calls| ==> t.calls[d].key == s.calls[d].key)
    && (forall d :: 0 <= d < |s.calls| && s.calls[d].key != key ==> t.calls[d] == s.calls[d])
    && (forall k :: k in t.inFlight && k != key ==> k in s.inFlight)
    && t.cleaner.CleanerStopped? == s.cleaner.CleanerStopped?
    && t.writer.WriterStopped? == s.writer.WriterStopped?
  }

  lemma SparesTransitive(s: State, t: State, u: State, key: ProbeKey)
    requires Spares(s, t, key) && Spares(t, u, key)
    ensures Spares(s, u, key)
  {
  }

  lemma SparedPlaces(s: State, t: State, key: ProbeKey, d: nat)
    requires Spares(s, t, key) && d < |s.calls| && s.calls[d].key != key
    ensures Places(t, d) <= Places(s, d)
  {
    var k := s.calls[d].key;
    if Freeable(s, k) {
      var e :| 0 <= e < |s.calls| && s.calls[e].key == k && MayLeave(s.calls[e]);
      assert t.calls[e] == s.calls[e];
      assert Freeable(t, k);
    }
  }

  // ----- how a call comes back -----

  /** The writer makes room. */
  lemma RoomMade(s: State, t: State) returns (u: State)
    requires Onward(s, t) && !t.writer.WriterStopped? && t.capacity > 0
    ensures Onward(s, u) && |u.queue| < u.capacity && !u.writer.WriterStopped?
    ensures u == t.(writer := u.writer, queue := u.queue, written := u.written)
  {
    InvariantHolds(t);
    u := t;
    if |u.queue| >= u.capacity {
      if u.writer.WriterHolding? {
        u := Go(s, u, ByWriter(Write));
      }
      u := Go(s, u, ByWriter(Take));
    }
  }

  /** The request of a registered call gets a place. */
  lemma PlaceTaken(s: State, t: State, c: nat) returns (u: State)
    requires Onward(s, t) && c < |t.calls| && t.calls[c].phase.Registered? && t.capacity > 0 && !Wedged(t, 1)
    ensures Onward(s, u) && Spares(t, u, t.calls[c].key)
    ensures u.calls == t.calls[c := t.calls[c].(phase := Enqueued)]
    ensures u.inFlight == t.inFlight && u.cleaner == t.cleaner
    ensures u.writer.WriterStopped? ==> Room(u) == Room(t) - 1
  {
    u := t;
    if !t.writer.WriterStopped? {
      u := RoomMade(s, t);
    }
    u := Go(s, u, ByCaller(c, Enqueue));
  }

  function Max(a: int, b: int): int {
    if a < b then b else a
  }

  /** With its request queued, a call leaves its second select when its timer fires, if not before. */
  lemma TimerFired(s: State, t: State, c: nat) returns (u: State)
    requires Onward(s, t) && c < |t.calls| && MayLeave(t.calls[c])
    ensures Onward(s, u) && Spares(t, u, t.calls[c].key)
    ensures |u.calls| == |t.calls| && u.calls[c].phase.Leaving?
    ensures u.calls == t.calls[c := t.calls[c].(phase := u.calls[c].phase)]
    ensures if t.calls[c].phase.Leaving? then u.calls[c] == t.calls[c] else u.calls[c].phase.outcome.TimedOut?
    ensures u.inFlight == t.inFlight && u.cleaner == t.cleaner && u.writer == t.writer && u.queue == t.queue
  {
    u := t;
    if u.calls[c].phase.Enqueued? {
      u := Go(s, u, ByCaller(c, StartTimer));
    }
    if u.calls[c].phase.Waiting? {
      u := Go(s, u, Tick(Max(u.now, u.calls[c].phase.started + u.timeout)));
      u := Go(s, u, ByCaller(c, Expire));
    }
  }

  /** And deletes whatever entry is under its key. */
  lemma EntryDeleted(s: State, t: State, c: nat) returns (u: State)
    requires Onward(s, t) && c < |t.calls| && MayLeave(t.calls[c])
    ensures Onward(s, u) && Spares(t, u, t.calls[c].key)
    ensures |u.calls| == |t.calls| && u.calls == t.calls[c := t.calls[c].(phase := u.calls[c].phase)]
    ensures t.calls[c].key !in u.inFlight
    ensures u.calls[c].phase.Discounting? || u.calls[c].phase.Returned?
    ensures t.calls[c].phase.Leaving? ==> u.calls[c].phase.outcome == t.calls[c].phase.outcome
    ensures !t.calls[c].phase.Leaving? ==> u.calls[c].phase.outcome.TimedOut?
    ensures u.writer == t.writer && u.queue == t.queue
  {
    var v := TimerFired(s, t, c);
    u := LeavingCallRemoved(s, v, c);
    SparesTransitive(t, v, u, t.calls[c].key);
  }

  lemma LeavingCallRemoved(s: State, t: State, c: nat) returns (u: State)
    requires Onward(s, t) && c < |t.calls| && t.calls[c].phase.Leaving?
    ensures Onward(s, u) && Spares(t, u, t.calls[c].key)
    ensures |u.calls| == |t.calls| && u.calls == t.calls[c := t.calls[c].(phase := u.calls[c].phase)]
    ensures t.calls[c].key !in u.inFlight
    ensures u.calls[c].phase.Discounting? || u.calls[c].phase.Returned?
    ensures u.calls[c].phase.outcome == t.calls[c].phase.outcome
    ensures u.writer == t.writer && u.queue == t.queue
  {
    u := Go(s, t, ByCaller(c, Remove));
  }

  /** A cleaner that runs comes to the end of its sweep. */
  lemma CleanerRested(s: State, t: State) returns (u: State)
    requires Onward(s, t) && !t.cleaner.CleanerStopped?
    ensures Onward(s, u) && u.cleaner.CleanerIdle?
    ensures u == t.(cleaner := u.cleaner, inFlight := u.inFlight, meters := u.meters)
    ensures u.inFlight.Keys <= t.inFlight.Keys
  {
    u := t;
    if u.cleaner.CleanerSweeping? {
      u := Go(s, u, ByCleaner(Sweep));
    }
    if u.cleaner.CleanerReporting? {
      u := Go(s, u, ByCleaner(ReportSweep));
    }
    if u.cleaner.CleanerLowering? {
      u := Go(s, u, ByCleaner(LowerGauge));
    }
  }

  lemma EntriesAreNotFromTheFuture(s: State, k: ProbeKey)
    requires Reachable(s) && k in s.inFlight
    ensures s.inFlight[k].queuedTime <= s.now
    ensures k.correlationSecond <= Unix(s.now)
  {
    InvariantHolds(s);
    var c := s.inFlight[k].resultCh;
    assert s.calls[c].key == k && TimelyCall(s.calls[c], s.now);
  }

  /** In time it sweeps every entry away. */
  lemma TableSwept(s: State, t: State) returns (u: State)
    requires Onward(s, t) && !t.cleaner.CleanerStopped?
    ensures Onward(s, u) && u.inFlight == map[] && !u.cleaner.CleanerStopped?
    ensures u == t.(now := u.now, cleaner := u.cleaner, inFlight := u.inFlight, meters := u.meters)
  {
    u := CleanerRested(s, t);
    InvariantHolds(u);
    forall k | k in u.inFlight
      ensures u.inFlight[k].queuedTime <= u.now
    {
      EntriesAreNotFromTheFuture(u, k);
    }
    u := Go(s, u, Tick(u.now + u.timeout + STALE_MARGIN + 1));
    u := Go(s, u, ByCleaner(StartSweep));
    u := Go(s, u, ByCleaner(Sweep));
  }

  /** The owner of an entry nobody else will delete. */
  lemma BlockersAreRegistered(s: State, key: ProbeKey)
    requires Reachable(s) && Blocked(s, key)
    ensures var d := s.inFlight[key].resultCh;
      d < |s.calls| && s.calls[d].key == key && s.calls[d].phase.Registered?
  {
    InvariantHolds(s);
    var d := s.inFlight[key].resultCh;
    assert s.calls[d].key == key && s.calls[d].Live();
  }

  /** The key of a call that has yet to register becomes free. */
  lemma KeyFreed(s: State, t: State, c: nat) returns (u: State)
    requires Onward(s, t) && t.capacity > 0 && c < |t.calls| && t.calls[c].phase.Arrived?
    requires !Wedged(t, Places(t, c))
    ensures Onward(s, u) && Spares(t, u, t.calls[c].key)
    ensures u.calls[c] == t.calls[c] && t.calls[c].key !in u.inFlight
    ensures u.writer.WriterStopped? ==> Room(u) >= Room(t) - (Places(t, c) - 1)
  {
    var key := t.calls[c].key;
    if key !in t.inFlight {
      u := t;
    } else if !t.cleaner.CleanerStopped? {
      u := TableSwept(s, t);
    } else if Freeable(t, key) {
      var d: nat :| d < |t.calls| && t.calls[d].key == key && MayLeave(t.calls[d]);
      u := EntryDeleted(s, t, d);
    } else {
      BlockersAreRegistered(t, key);
      var d := t.inFlight[key].resultCh;
      var v := PlaceTaken(s, t, d);
      u := EntryDeleted(s, v, d);
      SparesTransitive(t, v, u, key);
    }
  }

  /** The call has returned a result: a reply, or a timeout. */
  predicate Succeeded(call: Call) {
    call.phase.Returned? && (call.phase.outcome.Replied? || call.phase.outcome.TimedOut?)
  }

  /** It was neither rejected nor cancelled. */
  predicate MaySucceed(call: Call) {
    match call.phase
    case Rejecting(_) => false
    case Leaving(outcome) => outcome.Replied? || outcome.TimedOut?
    case Discounting(outcome) => outcome.Replied? || outcome.TimedOut?
    case Returned(outcome) => outcome.Replied? || outcome.TimedOut?
    case _ => true
  }

  /** The deferred function runs. */
  lemma DeferredRun(s: State, t: State, c: nat) returns (u: State)
    requires Onward(s, t) && c < |t.calls| && MaySucceed(t.calls[c])
    requires MayLeave(t.calls[c]) || t.calls[c].phase.Discounting? || t.calls[c].phase.Returned?
    ensures Onward(s, u) && Spares(t, u, t.calls[c].key) && Succeeded(u.calls[c])
    ensures u.calls == t.calls[c := u.calls[c]]
    ensures u.writer == t.writer && u.queue == t.queue
  {
    u := t;
    if MayLeave(u.calls[c]) {
      u := EntryDeleted(s, u, c);
    }
    if u.calls[c].phase.Discounting? {
      u := Go(s, u, ByCaller(c, Discount));
    }
  }

  /** The call registers, once its key is free. */
  lemma Registration(s: State, t: State, c: nat) returns (u: State)
    requires Onward(s, t) && t.capacity > 0 && c < |t.calls| && t.calls[c].phase.Arrived?
    requires !Wedged(t, Places(t, c))
    ensures Onward(s, u) && Spares(t, u, t.calls[c].key) && u.calls[c].phase.Registered?
    ensures u.writer.WriterStopped? ==> Room(u) >= Room(t) - (Places(t, c) - 1)
  {
    var v := KeyFreed(s, t, c);
    u := Go(s, v, ByCaller(c, Register));
  }

  /** A call that has the places it needs can return a result. */
  lemma CallDriven(s: State, t: State, c: nat) returns (u: State)
    requires Onward(s, t) && t.capacity > 0 && c < |t.calls| && MaySucceed(t.calls[c])
    requires !Wedged(t, Places(t, c))
    ensures Onward(s, u) && Spares(t, u, t.calls[c].key) && Succeeded(u.calls[c])
    ensures u.writer.WriterStopped? ==> Room(u) >= Room(t) - Places(t, c)
  {
    var key := t.calls[c].key;
    u := t;
    if u.calls[c].phase.Arrived? {
      u := Registration(s, t, c);
    }
    if u.calls[c].phase.Registered? {
      var v := PlaceTaken(s, u, c);
      SparesTransitive(t, u, v, key);
      u := v;
    }
    var v := DeferredRun(s, u, c);
    SparesTransitive(t, u, v, key);
    u := v;
  }

  // ----- what cannot be mended -----

  /** The call was rejected or cancelled, or the queue will never have the places it needs. */
  predicate Hopeless(s: State, c: nat)
    requires c < |s.calls|
  {
    !MaySucceed(s.calls[c]) || Wedged(s, Places(s, c))
  }

  /** The event gives a place in the queue to a call with this key. */
  predicate Spends(s: State, e: Event, key: ProbeKey) {
    e.ByCaller? && e.caller.Enqueue? && e.c < |s.calls| && s.calls[e.c].key == key
  }

  lemma RejectionIsFinal(s: State, e: Event, c: nat)
    requires Enabled(s, e) && c < |s.calls| && !MaySucceed(s.calls[c])
    ensures c < |Step(s, e).calls| && !MaySucceed(Step(s, e).calls[c])
  {
    match e
    case ByCaller(d, a) => CallerChangesItsCall(s, d, a);
    case ByReader(a) => ReaderLeavesTheTable(s, a);
    case _ =>
  }

  /** Calls keep their keys, and no event but a caller's own touches its phase. */
  lemma PhasesStay(s: State, e: Event)
    requires Enabled(s, e)
    ensures var t := Step(s, e);
      && |s.calls| <= |t.calls|
      && (forall d :: 0 <= d < |s.calls| ==> t.calls[d].key == s.calls[d].key)
      && (forall d :: 0 <= d < |s.calls| && !OfCall(e, d) ==> t.calls[d].phase == s.calls[d].phase)
      && (forall d :: |s.calls| <= d < |t.calls| ==> t.calls[d].phase.Arrived?)
  {
    match e
    case ByCaller(d, a) => CallerChangesItsCall(s, d, a);
    case ByReader(a) => ReaderLeavesTheTable(s, a);
    case _ =>
  }

  lemma OnlyQueueingFrees(s: State, e: Event, key: ProbeKey)
    requires Enabled(s, e) && !Cancels(e) && !Freeable(s, key) && !Spends(s, e, key)
    ensures !Freeable(Step(s, e), key)
  {
    var t := Step(s, e);
    PhasesStay(s, e);
    forall d | 0 <= d < |t.calls| && t.calls[d].key == key
      ensures !MayLeave(t.calls[d])
    {
      if d < |s.calls| {
        assert !MayLeave(s.calls[d]);
      }
    }
  }

  lemma BlockedEntriesStay(s: State, e: Event, key: ProbeKey)
    requires Enabled(s, e) && Blocked(s, key)
    ensures key in Step(s, e).inFlight && Step(s, e).cleaner.CleanerStopped?
  {
    match e
    case ByCaller(d, a) => assert a.Remove? ==> MayLeave(s.calls[d]);
    case ByReader(a) => ReaderLeavesTheTable(s, a);
    case _ =>
  }

  /** A call needs a place less only when its key's call, or itself, has just been given one. */
  lemma PlacesFallByOne(s: State, e: Event, c: nat)
    requires Enabled(s, e) && !Cancels(e) && c < |s.calls|
    ensures var t := Step(s, e);
      && c < |t.calls|
      && (MaySucceed(t.calls[c]) ==>
           Places(t, c) >= Places(s, c) - (if Spends(s, e, s.calls[c].key) then 1 else 0))
  {
    var key := s.calls[c].key;
    PhasesStay(s, e);
    if OfCall(e, c) {
      OwnPlaces(s, c, e.caller);
    } else if Blocked(s, key) && !Spends(s, e, key) {
      OnlyQueueingFrees(s, e, key);
      BlockedEntriesStay(s, e, key);
    }
  }

  lemma OwnPlaces(s: State, c: nat, a: CallerAction)
    requires CallerEnabled(s, c, a) && !a.AbandonQueue? && !a.AbandonWait?
    ensures var t := CallerStep(s, c, a);
      && c < |t.calls|
      && (MaySucceed(t.calls[c]) ==> Places(t, c) >= Places(s, c) - (if a.Enqueue? then 1 else 0))
  {
  }

  lemma RoomFalls(s: State, e: Event)
    requires Enabled(s, e) && s.writer.WriterStopped?
    ensures Step(s, e).writer.WriterStopped?
    ensures Room(Step(s, e)) == Room(s) - (if e.ByCaller? && e.caller.Enqueue? then 1 else 0)
  {
    match e
    case ByCaller(d, a) => CallerChangesItsCall(s, d, a);
    case ByReader(a) => ReaderLeavesTheTable(s, a);
    case _ =>
  }

  lemma HopelessStays(s: State, e: Event, c: nat)
    requires Enabled(s, e) && !Cancels(e) && c < |s.calls| && Hopeless(s, c)
    ensures c < |Step(s, e).calls| && Hopeless(Step(s, e), c)
  {
    PlacesFallByOne(s, e, c);
    if !MaySucceed(s.calls[c]) {
      RejectionIsFinal(s, e, c);
    } else {
      RoomFalls(s, e);
    }
  }

  lemma {:induction false} HopelessForEver(s: State, events: seq<Event>, c: nat)
    requires Feasible(s, events) && (forall i :: 0 <= i < |events| ==> !Cancels(events[i]))
    requires c < |s.calls| && Hopeless(s, c)
    ensures c < |After(s, events).calls| && Hopeless(After(s, events), c)
    decreases |events|
  {
    if events != [] {
      HopelessStays(s, events[0], c);
      HopelessForEver(Step(s, events[0]), events[1..], c);
    }
  }

  /** Some run without cancellations ends with a result returned by `c`. */
  ghost predicate CanSucceed(s: State, c: nat) {
    exists events: seq<Event> ::
      && Feasible(s, events) && (forall i :: 0 <= i < |events| ==> !Cancels(events[i]))
      && c < |After(s, events).calls| && Succeeded(After(s, events).calls[c])
  }

  /**
   * A call can still return a reply or a timeout without anybody's cancellation exactly when it was neither rejected
   * nor cancelled and, if the writer has stopped, the queue has the places that are needed for it.
   */
  lemma CallsCanSucceedIff(s: State, c: nat)
    requires Reachable(s) && s.capacity > 0 && c < |s.calls|
    ensures CanSucceed(s, c) <==> !Hopeless(s, c)
  {
    if Hopeless(s, c) {
      forall events: seq<Event> | Feasible(s, events) && (forall i :: 0 <= i < |events| ==> !Cancels(events[i]))
        ensures c < |After(s, events).calls| && !Succeeded(After(s, events).calls[c])
      {
        HopelessForEver(s, events, c);
        ReachableRun(s, events);
        QueueHasRoom(After(s, events));
      }
    } else {
      CalmlyStays(s);
      var u := CallDriven(s, s, c);
      var events: seq<Event> :|
        Feasible(s, events) && (forall i :: 0 <= i < |events| ==> Calm(events[i])) && After(s, events) == u;
      assert forall i :: 0 <= i < |events| ==> !Cancels(events[i]);
    }
  }

  lemma QueueHasRoom(s: State)
    requires Reachable(s)
    ensures Room(s) >= 0
  {
    InvariantHolds(s);
  }

  lemma {:induction false} ReachableRun(s: State, events: seq<Event>)
    requires Reachable(s) && Feasible(s, events)
    ensures Reachable(After(s, events))
    decreases |events|
  {
    if events != [] {
      ReachableStep(s, events[0]);
      ReachableRun(Step(s, events[0]), events[1..]);
    }
  }

  // ----- the promise that Probe does not block indefinitely -----

  predicate CancelsCall(e: Event, c: nat) {
    Cancels(e) && e.c == c
  }

  /** Some run, in which only other calls may be cancelled, ends with `c` returned. */
  ghost predicate CanReturn(s: State, c: nat) {
    exists events: seq<Event> ::
      && Feasible(s, events) && (forall i :: 0 <= i < |events| ==> !CancelsCall(events[i], c))
      && c < |After(s, events).calls| && After(s, events).calls[c].phase.Returned?
  }

  /** The call waits for room in a full queue that nobody takes from any more. */
  predicate Stuck(s: State, c: nat) {
    c < |s.calls| && s.calls[c].phase.Registered? && s.writer.WriterStopped? && |s.queue| >= s.capacity
  }

  lemma {:induction false} StuckForEver(s: State, events: seq<Event>, c: nat)
    requires Feasible(s, events) && (forall i :: 0 <= i < |events| ==> !CancelsCall(events[i], c)) && Stuck(s, c)
    ensures Stuck(After(s, events), c)
    decreases |events|
  {
    if events != [] {
      StuckStays(s, events[0], c);
      StuckForEver(Step(s, events[0]), events[1..], c);
    }
  }

  lemma StuckStays(s: State, e: Event, c: nat)
    requires Enabled(s, e) && !CancelsCall(e, c) && Stuck(s, c)
    ensures Stuck(Step(s, e), c)
  {
    PhasesStay(s, e);
    match e
    case ByCaller(d, a) => CallerChangesItsCall(s, d, a);
    case ByReader(a) => ReaderLeavesTheTable(s, a);
    case _ =>
  }

  /**
   * The interface promises that Probe does not block indefinitely. A call that has registered can return without
   * being cancelled exactly when it does not wait for room in a full queue whose writer has stopped; while it does,
   * nothing anyone does but its own cancellation brings it back.
   */
  lemma RegisteredCallsCanReturnIff(s: State, c: nat)
    requires Reachable(s) && s.capacity > 0 && c < |s.calls| && s.calls[c].HasRegistered()
    ensures CanReturn(s, c) <==> !Stuck(s, c)
  {
    if Stuck(s, c) {
      forall events: seq<Event> | Feasible(s, events) && (forall i :: 0 <= i < |events| ==> !CancelsCall(events[i], c))
        ensures !(c < |After(s, events).calls| && After(s, events).calls[c].phase.Returned?)
      {
        StuckForEver(s, events, c);
      }
    } else {
      CalmlyStays(s);
      var u := CallBrought(s, c);
      var events: seq<Event> :|
        Feasible(s, events) && (forall i :: 0 <= i < |events| ==> Calm(events[i])) && After(s, events) == u;
      assert forall i :: 0 <= i < |events| ==> !CancelsCall(events[i], c);
    }
  }

  lemma CallBrought(s: State, c: nat) returns (u: State)
    requires Onward(s, s) && s.capacity > 0 && c < |s.calls| && s.calls[c].HasRegistered() && !Stuck(s, c)
    ensures Onward(s, u) && c < |u.calls| && u.calls[c].phase.Returned?
  {
    u := s;
    if u.calls[c].phase.Registered? {
      u := PlaceTaken(s, u, c);
    }
    if MayLeave(u.calls[c]) {
      u := EntryDeleted(s, u, c);
    }
    if u.calls[c].phase.Discounting? {
      u := Go(s, u, ByCaller(c, Discount));
    }
  }

  /** A run that gets a call stuck: one request fills the queue, the writer stops, and the next call registers. */
  lemma StuckCallRun() returns (s: State)
    ensures Reachable(s) && s.capacity == 1 && |s.calls| == 2 && Stuck(s, 1)
  {
    s := RegisteredCallRun(1, 1, 0, SOME_DIRECTIVE);
    s := Extend(s, ByCaller(0, Enqueue));
    s := Extend(s, ByWriter(Stop));
    s := Extend(s, Arrive(SOME_DIRECTIVE, 2));
    s := Extend(s, ByCaller(1, Register));
  }
}
