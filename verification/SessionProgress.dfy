// When a directive can still get its FIE, with the agent left undisturbed: exactly when neither of its probes was
// rejected and, once the prober's writer has stopped, the write queue has the places its probes need.
module SessionProgress {
  import opened Wrappers
  import opened Directives
  import opened CaracalRecords
  import opened Session
  import opened SessionInvariants
  import opened SessionTheorems
  import CallProgress
  import Pipeline
  import PipelineTheorems
  import ProbeTable
  import ProbeTableInvariants

  // ----- continuations -----

  ghost predicate Follows(s: State, u: State) {
    exists events: seq<Event> :: Feasible(s, events) && After(s, events) == u
  }

  /** Some run from `s` leads to `u`, undisturbed to its end. */
  ghost predicate Leads(s: State, u: State) {
    Reachable(u) && Undisturbed(u) && Follows(s, u)
  }

  lemma LeadsToItself(s: State)
    requires Reachable(s) && Undisturbed(s)
    ensures Leads(s, s)
  {
    assert Feasible(s, []) && After(s, []) == s;
  }

  lemma Go(s: State, t: State, e: Event) returns (u: State)
    requires Leads(s, t) && Enabled(t, e) && Undisturbed(Step(t, e))
    ensures u == Step(t, e) && Leads(s, u)
  {
    u := Step(t, e);
    ReachableStep(t, e);
    var events: seq<Event> :| Feasible(s, events) && After(s, events) == t;
    RunSnoc(s, events, e);
    assert Feasible(s, events + [e]);
  }

  /** A calm run of the table is a run of the whole. */
  lemma {:induction false} TableRun(s: State, t: State, events: seq<ProbeTable.Event>)
    requires Leads(s, t) && ProbeTable.Feasible(t.table, events)
    requires forall i :: 0 <= i < |events| ==> CallProgress.Calm(events[i])
    ensures Leads(s, t.(table := ProbeTable.After(t.table, events)))
    decreases |events|
  {
    if events != [] {
      assert CallProgress.Calm(events[0]);
      var u := Go(s, t, InTable(events[0]));
      TableRun(s, u, events[1..]);
      assert u.(table := ProbeTable.After(u.table, events[1..])) == t.(table := ProbeTable.After(t.table, events));
    }
  }

  lemma TableLeads(s: State, t: State, table: ProbeTable.State)
    requires Leads(s, t) && CallProgress.Calmly(t.table, table)
    ensures Leads(s, t.(table := table))
  {
    var events: seq<ProbeTable.Event> :|
      && ProbeTable.Feasible(t.table, events) && (forall i :: 0 <= i < |events| ==> CallProgress.Calm(events[i]))
      && ProbeTable.After(t.table, events) == table;
    TableRun(s, t, events);
  }

  // ----- what a directive needs -----

  /** The calls made for a directive so far: none before its goroutine has started. */
  function ProbesFor(s: State, x: Pipeline.Item): Probes {
    if x.instance < |s.probes| then s.probes[x.instance] else Probes(None, None)
  }

  predicate Known(t: ProbeTable.State, call: Option<nat>) {
    call.Some? ==> call.value < |t.calls|
  }

  predicate WasTurnedAway(t: ProbeTable.State, call: Option<nat>)
    requires Known(t, call)
  {
    call.Some? && t.calls[call.value].Rejected()
  }

  /** The places in the write queue a probe needs: one if it has yet to be started. */
  function PlacesOf(t: ProbeTable.State, call: Option<nat>): nat
    requires Known(t, call)
  {
    if call.None? then 1 else CallProgress.Places(t, call.value)
  }

  /** A probe was rejected, or the writer has stopped and the queue has too few places for what the probes need. */
  predicate Hopeless(t: ProbeTable.State, p: Probes)
    requires Known(t, p.near) && Known(t, p.far)
  {
    || WasTurnedAway(t, p.near) || WasTurnedAway(t, p.far)
    || CallProgress.Wedged(t, PlacesOf(t, p.near) + PlacesOf(t, p.far))
  }

  predicate NoneFailed(t: ProbeTable.State, p: Probes)
    requires Known(t, p.near) && Known(t, p.far)
  {
    && (p.near.Some? ==> CallProgress.MaySucceed(t.calls[p.near.value]))
    && (p.far.Some? ==> CallProgress.MaySucceed(t.calls[p.far.value]))
  }

  predicate Served(s: State, x: Pipeline.Item) {
    exists i :: 0 <= i < |s.pipeline.sent| && s.pipeline.sent[i].item == x
  }

  /** In some undisturbed continuation a FIE is sent for the directive. */
  ghost predicate CanBeServed(s: State, x: Pipeline.Item) {
    exists u: State :: Leads(s, u) && Served(u, x)
  }

  lemma ProbesAreKnown(s: State, x: Pipeline.Item)
    requires Reachable(s)
    ensures Known(s.table, ProbesFor(s, x).near) && Known(s.table, ProbesFor(s, x).far)
  {
    InvariantHolds(s);
    if x.instance < |s.probes| {
      assert ProbeMatches(s.owners, s.probes[x.instance], x.instance, false);
      assert ProbeMatches(s.owners, s.probes[x.instance], x.instance, true);
    }
  }

  /** Undisturbed, rejection is the only way for a call to fail. */
  lemma OnlyRejectionsFail(s: State, c: nat)
    requires Reachable(s) && !s.pipeline.ctxDone && c < |s.table.calls|
    ensures CallProgress.MaySucceed(s.table.calls[c]) <==> !s.table.calls[c].Rejected()
  {
    InvariantHolds(s);
    ChannelsAreKept(s.table, c);
    assert !WasCancelled(s.table.calls[c]);
  }

  lemma ChannelsAreKept(t: ProbeTable.State, c: nat)
    requires ProbeTable.Reachable(t) && c < |t.calls|
    ensures ProbeTableInvariants.ChannelKept(t.calls[c])
  {
    ProbeTableInvariants.InvariantHolds(t);
  }

  /** The two calls of a goroutine have different keys. */
  lemma KeysDiffer(s: State, w: nat)
    requires Reachable(s) && w < |s.probes| && s.probes[w].near.Some? && s.probes[w].far.Some?
    ensures var near, far := s.probes[w].near.value, s.probes[w].far.value;
      near < |s.table.calls| && far < |s.table.calls| && s.table.calls[near].key != s.table.calls[far].key
  {
    InvariantHolds(s);
    ProbeTableInvariants.InvariantHolds(s.table);
    assert ProbeMatches(s.owners, s.probes[w], w, false) && ProbeMatches(s.owners, s.probes[w], w, true);
    var near, far := s.probes[w].near.value, s.probes[w].far.value;
    assert OwnerMatches(s, near) && OwnerMatches(s, far);
    assert ProbeTableInvariants.TimelyCall(s.table.calls[near], s.table.now);
    assert ProbeTableInvariants.TimelyCall(s.table.calls[far], s.table.now);
    SiblingKeysDiffer(s.table.calls[near].pd, Unix(s.table.calls[near].queued), Unix(s.table.calls[far].queued));
  }

  // ----- what cannot be mended -----

  /** An event of the table cannot help two calls at once. */
  lemma TableKeepsHopeless(t: ProbeTable.State, e: ProbeTable.Event, p: Probes)
    requires ProbeTable.Enabled(t, e) && !CallProgress.Cancels(e) && Known(t, p.near) && Known(t, p.far)
    requires p.near.Some? && p.far.Some? ==> t.calls[p.near.value].key != t.calls[p.far.value].key
    requires Hopeless(t, p)
    ensures var u := ProbeTable.Step(t, e);
      && Known(u, p.near) && Known(u, p.far)
      && (NoneFailed(u, p) ==> Hopeless(u, p))
  {
    CallProgress.PhasesStay(t, e);
    if p.near.Some? {
      CallProgress.PlacesFallByOne(t, e, p.near.value);
      if WasTurnedAway(t, p.near) {
        CallProgress.RejectionIsFinal(t, e, p.near.value);
      }
    }
    if p.far.Some? {
      CallProgress.PlacesFallByOne(t, e, p.far.value);
      if WasTurnedAway(t, p.far) {
        CallProgress.RejectionIsFinal(t, e, p.far.value);
      }
    }
    if t.writer.WriterStopped? {
      CallProgress.RoomFalls(t, e);
    }
  }

  lemma FailedMeansTurnedAway(s: State, p: Probes)
    requires Reachable(s) && !s.pipeline.ctxDone && Known(s.table, p.near) && Known(s.table, p.far)
    ensures NoneFailed(s.table, p) <==> !WasTurnedAway(s.table, p.near) && !WasTurnedAway(s.table, p.far)
  {
    if p.near.Some? {
      OnlyRejectionsFail(s, p.near.value);
    }
    if p.far.Some? {
      OnlyRejectionsFail(s, p.far.value);
    }
  }

  lemma TableStepKeepsHopeless(s: State, e: ProbeTable.Event, x: Pipeline.Item)
    requires Reachable(s) && Undisturbed(s) && Enabled(s, InTable(e))
    requires Known(s.table, ProbesFor(s, x).near) && Known(s.table, ProbesFor(s, x).far)
    requires Hopeless(s.table, ProbesFor(s, x))
    ensures var u := Step(s, InTable(e));
      && Known(u.table, ProbesFor(s, x).near) && Known(u.table, ProbesFor(s, x).far)
      && Hopeless(u.table, ProbesFor(s, x))
  {
    var p := ProbesFor(s, x);
    if p.near.Some? && p.far.Some? {
      KeysDiffer(s, x.instance);
    }
    TableKeepsHopeless(s.table, e, p);
    ReachableStep(s, InTable(e));
    FailedMeansTurnedAway(Step(s, InTable(e)), p);
  }

  /** A probe that has been started needs a place as it did before. */
  lemma StartKeepsHopeless(s: State, w: nat, far: bool, x: Pipeline.Item)
    requires Reachable(s) && Undisturbed(s) && CanStart(s, w, far)
    requires Known(s.table, ProbesFor(s, x).near) && Known(s.table, ProbesFor(s, x).far)
    requires Hopeless(s.table, ProbesFor(s, x))
    ensures var u := Step(s, StartProbe(w, far));
      && Known(u.table, ProbesFor(u, x).near) && Known(u.table, ProbesFor(u, x).far)
      && Hopeless(u.table, ProbesFor(u, x))
  {
    var u := Step(s, StartProbe(w, far));
    var p, q := ProbesFor(s, x), ProbesFor(u, x);
    if p.near.Some? && p.far.Some? {
      KeysDiffer(s, x.instance);
    }
    TableKeepsHopeless(s.table, ArriveEvent(s, w, far), p);
    ReachableStep(s, StartProbe(w, far));
    FailedMeansTurnedAway(u, p);
    assert q == p || (x.instance == w && q == WithCall(p, far, |s.table.calls|));
  }

  lemma StepKeepsHopeless(s: State, e: Event, x: Pipeline.Item)
    requires Reachable(s) && Undisturbed(s) && Enabled(s, e)
    requires Known(s.table, ProbesFor(s, x).near) && Known(s.table, ProbesFor(s, x).far)
    requires Hopeless(s.table, ProbesFor(s, x))
    ensures var u := Step(s, e);
      && Known(u.table, ProbesFor(u, x).near) && Known(u.table, ProbesFor(u, x).far)
      && Hopeless(u.table, ProbesFor(u, x))
  {
    match e
    case InTable(t) => TableStepKeepsHopeless(s, t, x);
    case StartProbe(w, far) => StartKeepsHopeless(s, w, far, x);
    case InPipeline(p) => assert ProbesFor(Step(s, e), x) == ProbesFor(s, x);
    case ProbeReturns(w, far) =>
  }

  /** An agent that is cancelled or fails to write stays so. */
  lemma DisturbedStays(s: State, e: Event)
    requires Enabled(s, e) && Undisturbed(Step(s, e))
    ensures Undisturbed(s)
  {
    match e
    case InPipeline(p) => PipelineStaysDisturbed(s.pipeline, p);
    case ProbeReturns(w, far) => PipelineStaysDisturbed(s.pipeline, ReturnEvent(s, w, far));
    case _ =>
  }

  lemma PipelineStaysDisturbed(p: Pipeline.State, e: Pipeline.Event)
    requires Pipeline.Enabled(p, e)
    ensures p.ctxDone || p.writer.Failing? ==> Pipeline.Step(p, e).ctxDone || Pipeline.Step(p, e).writer.Failing?
  {
    if !e.ByWorker? {
      OtherStepsAre(p, e);
    }
  }

  lemma {:induction false} DisturbedForEver(s: State, events: seq<Event>)
    requires Feasible(s, events) && Undisturbed(After(s, events))
    ensures Undisturbed(s)
    decreases |events|
  {
    if events != [] {
      DisturbedForEver(Step(s, events[0]), events[1..]);
      DisturbedStays(s, events[0]);
    }
  }

  lemma {:induction false} HopelessForEver(s: State, events: seq<Event>, x: Pipeline.Item)
    requires Reachable(s) && Feasible(s, events) && Undisturbed(After(s, events))
    requires Known(s.table, ProbesFor(s, x).near) && Known(s.table, ProbesFor(s, x).far)
    requires Hopeless(s.table, ProbesFor(s, x))
    ensures var u := After(s, events);
      && Known(u.table, ProbesFor(u, x).near) && Known(u.table, ProbesFor(u, x).far)
      && Hopeless(u.table, ProbesFor(u, x))
    decreases |events|
  {
    if events != [] {
      DisturbedForEver(s, events);
      StepKeepsHopeless(s, events[0], x);
      ReachableStep(s, events[0]);
      HopelessForEver(Step(s, events[0]), events[1..], x);
    }
  }

  /** The probes of a directive that has its FIE were not rejected and need no place any more. */
  lemma ServedIsNotHopeless(s: State, x: Pipeline.Item)
    requires Reachable(s) && Served(s, x)
    ensures Known(s.table, ProbesFor(s, x).near) && Known(s.table, ProbesFor(s, x).far)
    ensures !Hopeless(s.table, ProbesFor(s, x))
  {
    ProbesAreKnown(s, x);
    InvariantHolds(s);
    var i: nat :| i < |s.pipeline.sent| && s.pipeline.sent[i].item == x;
    var near, far := CallsBehind(s, i);
    PipelineTheorems.SentFIEsAreForAcceptedDirectives(s.pipeline, i);
    assert OwnerMatches(s, near) && OwnerMatches(s, far);
    assert ProbesFor(s, x) == Probes(Some(near), Some(far));
    CallProgress.QueueHasRoom(s.table);
  }

  lemma HopelessIsNeverServed(s: State, x: Pipeline.Item)
    requires Reachable(s)
    requires Known(s.table, ProbesFor(s, x).near) && Known(s.table, ProbesFor(s, x).far)
    requires Hopeless(s.table, ProbesFor(s, x))
    ensures !CanBeServed(s, x)
  {
    forall u: State | Leads(s, u)
      ensures !Served(u, x)
    {
      var events: seq<Event> :| Feasible(s, events) && After(s, events) == u;
      HopelessForEver(s, events, x);
      if Served(u, x) {
        ServedIsNotHopeless(u, x);
      }
    }
  }
}
