// How a cancelled agent comes to rest: every goroutine of the pipeline and every call of Probe goes on by itself, takes
// a bounded number of steps, and leaves an empty table behind.
module SessionShutdown {
  import opened Wrappers
  import opened FIEProvenance
  import opened Session
  import opened SessionInvariants
  import opened Totals
  import Pipeline
  import PipelineTheorems
  import ProbeTable
  import ProbeTableInvariants
  import ProbeTableTheorems

  /** A step of the pipeline, of a directive's goroutine or of a call of Probe, not of the prober's loops. */
  predicate Own(e: Event) {
    e.InTable? ==> e.t.ByCaller?
  }

  // ----- how many own steps remain -----

  function Unstarted(p: Probes): int {
    (if p.near.None? then 8 else 0) + (if p.far.None? then 8 else 0)
  }

  function CallWork(call: ProbeTable.Call): int {
    ProbeTableTheorems.CallRank(call)
  }

  /** An upper bound on the own steps still to come once the connection is closed. */
  function Remaining(s: State): int {
    17 * PipelineTheorems.Remaining(s.pipeline) + Total(s.probes, Unstarted)
      + Total(s.table.calls, CallWork)
  }

  lemma RemainingIsNatural(s: State)
    ensures Remaining(s) >= 0
  {
    PipelineTheorems.RankNonNegative(s.pipeline.workers);
    TotalNonNegative(s.probes, Unstarted);
    TotalNonNegative(s.table.calls, CallWork);
  }

  lemma PipelineStepCounts(s: State, p: Pipeline.Event)
    requires s.pipeline.ctxDone && s.pipeline.connClosed && Enabled(s, InPipeline(p))
    ensures Remaining(Step(s, InPipeline(p))) < Remaining(s)
  {
    PipelineTheorems.EveryStepCounts(s.pipeline, p);
    TotalAppend(s.probes, Probes(None, None), Unstarted);
  }

  lemma CallStepCounts(s: State, c: nat, a: ProbeTable.CallerAction)
    requires Enabled(s, InTable(ProbeTable.ByCaller(c, a)))
    ensures Remaining(Step(s, InTable(ProbeTable.ByCaller(c, a)))) < Remaining(s)
  {
    ProbeTableInvariants.CallerChangesItsCall(s.table, c, a);
    ProbeTableTheorems.CallerLowersRank(s.table, c, a);
    TotalUpdate(s.table.calls, c, ProbeTable.CallerStep(s.table, c, a).calls[c], CallWork);
  }

  lemma ReaderLeavesCallWork(t: ProbeTable.State, a: ProbeTable.ReaderAction)
    requires ProbeTable.ReaderEnabled(t, a)
    ensures Total(ProbeTable.ReaderStep(t, a).calls, CallWork) == Total(t.calls, CallWork)
  {
    if a.Deliver? {
      TotalUpdate(t.calls, t.reader.target, ProbeTable.DeliverResult(t).calls[t.reader.target], CallWork);
    }
  }

  /** The prober's loops and the clock leave every call where it is. */
  lemma OtherTableStepsDoNotCount(s: State, t: ProbeTable.Event)
    requires Enabled(s, InTable(t)) && !t.ByCaller?
    ensures Remaining(Step(s, InTable(t))) == Remaining(s)
  {
    match t
    case ByReader(a) => ReaderLeavesCallWork(s.table, a);
    case _ =>
  }

  lemma StartCounts(s: State, w: nat, far: bool)
    requires CanStart(s, w, far)
    ensures Remaining(Step(s, StartProbe(w, far))) < Remaining(s)
  {
    TotalUpdate(s.probes, w, WithCall(s.probes[w], far, |s.table.calls|), Unstarted);
    var pd := s.pipeline.workers[w].item.pd;
    TotalAppend(s.table.calls, ProbeTable.NewCall(pd, TTLOf(pd, far), s.table.now), CallWork);
  }

  /** Once the connection is closed every own step brings the end nearer, and no other step puts it off. */
  lemma EveryOwnStepCounts(s: State, e: Event)
    requires s.pipeline.ctxDone && s.pipeline.connClosed && Enabled(s, e)
    ensures Step(s, e).pipeline.ctxDone && Step(s, e).pipeline.connClosed
    ensures if Own(e) then Remaining(Step(s, e)) < Remaining(s) else Remaining(Step(s, e)) == Remaining(s)
  {
    match e
    case InPipeline(p) =>
      PipelineTheorems.EveryStepCounts(s.pipeline, p);
      PipelineStepCounts(s, p);
    case InTable(t) =>
      match t {
        case ByCaller(c, a) => CallStepCounts(s, c, a);
        case _ => OtherTableStepsDoNotCount(s, t);
      }
    case StartProbe(w, far) => StartCounts(s, w, far);
    case ProbeReturns(w, far) => PipelineTheorems.EveryStepCounts(s.pipeline, ReturnEvent(s, w, far));
  }

  function OwnSteps(events: seq<Event>): nat {
    if events == [] then 0 else OwnSteps(events[1..]) + (if Own(events[0]) then 1 else 0)
  }

  /** So a run from a closed connection has a bounded number of own steps, whatever else happens between them. */
  lemma {:induction false} ShutdownTakesBoundedWork(s: State, events: seq<Event>)
    requires s.pipeline.ctxDone && s.pipeline.connClosed && Feasible(s, events)
    ensures var t := After(s, events);
      && t.pipeline.ctxDone && t.pipeline.connClosed
      && OwnSteps(events) + Remaining(t) <= Remaining(s) && Remaining(t) >= 0
    decreases |events|
  {
    RemainingIsNatural(s);
    if events != [] {
      EveryOwnStepCounts(s, events[0]);
      ShutdownTakesBoundedWork(Step(s, events[0]), events[1..]);
    }
  }

  // ----- nobody is stuck -----

  /** An own step of goroutine `w` or of one of its two calls. */
  predicate OfGoroutine(s: State, e: Event, w: nat) {
    match e
    case InPipeline(p) => p.ByWorker? && p.w == w
    case InTable(t) => t.ByCaller? && t.c < |s.owners| && s.owners[t.c].w == w
    case StartProbe(v, _) => v == w
    case ProbeReturns(v, _) => v == w
  }

  ghost predicate GoesOn(s: State, w: nat) {
    exists e: Event :: Own(e) && Enabled(s, e) && OfGoroutine(s, e, w)
  }

  /** A goroutine that waits for a probe: it has yet to make the call, the call has a step of its own, or it is back. */
  lemma ProbeGoesOn(s: State, w: nat, far: bool)
    requires Invariant(s) && s.pipeline.ctxDone && w < |s.pipeline.workers|
    requires var stage := s.pipeline.workers[w].stage;
      stage.Probing? && (if far then stage.far.None? else stage.near.None?)
    ensures GoesOn(s, w)
  {
    var call := CallOf(s.probes[w], far);
    if call.None? {
      assert Enabled(s, StartProbe(w, far));
    } else {
      assert ProbeMatches(s.owners, s.probes[w], w, far);
      if HasReturned(s.table, call.value) {
        assert Enabled(s, ProbeReturns(w, far));
      } else {
        var a := ProbeTableTheorems.CancelledAction(s.table.calls[call.value]);
        assert Enabled(s, InTable(ProbeTable.ByCaller(call.value, a)));
      }
    }
  }

  lemma GoroutineGoesOn(s: State, w: nat)
    requires Invariant(s) && s.pipeline.ctxDone && w < |s.pipeline.workers|
    requires !s.pipeline.workers[w].stage.WorkerFinished?
    ensures GoesOn(s, w)
  {
    match s.pipeline.workers[w].stage
    case Probing(near, far) =>
      if near.None? {
        ProbeGoesOn(s, w, false);
      } else if far.None? {
        ProbeGoesOn(s, w, true);
      } else {
        assert Enabled(s, InPipeline(Pipeline.ByWorker(w, Pipeline.Conclude)));
      }
    case Offering(_) => assert Enabled(s, InPipeline(Pipeline.ByWorker(w, Pipeline.GiveUpFIE)));
    case Reporting => assert Enabled(s, InPipeline(Pipeline.ByWorker(w, Pipeline.ReportFIE)));
    case Departing => assert Enabled(s, InPipeline(Pipeline.ByWorker(w, Pipeline.Depart)));
  }

  /**
   * After cancellation nobody is stuck, however full the channels and the write queue are and whatever caracal does:
   * the reader, the writer and every directive's goroutine, through its own calls of Probe, can go on by themselves
   * until they finish, and the processor waits for nothing but those goroutines.
   */
  lemma NobodyIsStuck(s: State)
    requires Reachable(s) && s.pipeline.ctxDone
    ensures s.pipeline.reader.ReaderFinished? || exists a :: Enabled(s, InPipeline(Pipeline.ByReader(a)))
    ensures s.pipeline.writer.WriterFinished? || exists a :: Enabled(s, InPipeline(Pipeline.ByWriter(a)))
    ensures forall w: nat :: w < |s.pipeline.workers| ==> s.pipeline.workers[w].stage.WorkerFinished? || GoesOn(s, w)
    ensures s.pipeline.processor.ProcessorFinished?
      || (exists a :: Enabled(s, InPipeline(Pipeline.ByProcessor(a))))
      || (s.pipeline.processor.Draining? && !Pipeline.AllFinished(s.pipeline.workers))
  {
    InvariantHolds(s);
    PipelineTheorems.NobodyIsStuck(s.pipeline);
    if !s.pipeline.reader.ReaderFinished? {
      var a :| Pipeline.ReaderEnabled(s.pipeline, a);
      assert Enabled(s, InPipeline(Pipeline.ByReader(a)));
    }
    if !s.pipeline.writer.WriterFinished? {
      var a :| Pipeline.WriterEnabled(s.pipeline, a);
      assert Enabled(s, InPipeline(Pipeline.ByWriter(a)));
    }
    if PipelineTheorems.ProcessorCanStep(s.pipeline) {
      var a :| Pipeline.ProcessorEnabled(s.pipeline, a);
      assert Enabled(s, InPipeline(Pipeline.ByProcessor(a)));
    }
    forall w: nat | w < |s.pipeline.workers| && !s.pipeline.workers[w].stage.WorkerFinished?
      ensures GoesOn(s, w)
    {
      GoroutineGoesOn(s, w);
    }
  }

  // ----- rest -----

  /** A goroutine that has ended has had both its calls back. */
  lemma AllCallsReturned(s: State, c: nat)
    requires Invariant(s) && Pipeline.AllFinished(s.pipeline.workers) && c < |s.table.calls|
    ensures s.table.calls[c].phase.Returned?
  {
    assert OwnerMatches(s, c);
    var w := s.owners[c].w;
    assert StageMatches(s.table, s.pipeline.workers[w].stage, s.probes[w]);
  }

  lemma NothingAfterTheEnd(s: State, e: Event)
    requires Invariant(s) && s.pipeline.ctxDone && s.pipeline.connClosed && PipelineTheorems.Finished(s.pipeline)
    requires Own(e)
    ensures !Enabled(s, e)
  {
    PipelineTheorems.NothingAfterTheEnd(s.pipeline);
    match e
    case InPipeline(p) => assert !Pipeline.Enabled(s.pipeline, p);
    case InTable(t) =>
      if t.c < |s.table.calls| {
        AllCallsReturned(s, t.c);
      }
    case StartProbe(w, far) =>
      if w < |s.probes| {
        assert StageMatches(s.table, s.pipeline.workers[w].stage, s.probes[w]);
      }
    case ProbeReturns(w, far) =>
  }

  lemma SomethingBeforeTheEnd(s: State)
    requires Reachable(s) && s.pipeline.ctxDone && !PipelineTheorems.Finished(s.pipeline)
    ensures exists e: Event :: Own(e) && Enabled(s, e)
  {
    NobodyIsStuck(s);
    if !Pipeline.AllFinished(s.pipeline.workers) {
      var w: nat :| w < |s.pipeline.workers| && !s.pipeline.workers[w].stage.WorkerFinished?;
      assert GoesOn(s, w);
    } else if !s.pipeline.reader.ReaderFinished? {
      var a :| Enabled(s, InPipeline(Pipeline.ByReader(a)));
      assert Own(InPipeline(Pipeline.ByReader(a)));
    } else if !s.pipeline.writer.WriterFinished? {
      var a :| Enabled(s, InPipeline(Pipeline.ByWriter(a)));
      assert Own(InPipeline(Pipeline.ByWriter(a)));
    } else {
      var a :| Enabled(s, InPipeline(Pipeline.ByProcessor(a)));
      assert Own(InPipeline(Pipeline.ByProcessor(a)));
    }
  }

  /**
   * A cancelled agent that can do nothing more by itself has ended well: every goroutine of the pipeline has
   * finished, every call of Probe has returned, and once the cleaner has reported its last sweep no probe is in
   * flight and InFlightProbes reads zero.
   */
  lemma ShutdownLeavesTheTableEmpty(s: State)
    requires Reachable(s) && s.pipeline.ctxDone && s.pipeline.connClosed
    ensures (forall e: Event :: Own(e) ==> !Enabled(s, e)) <==> PipelineTheorems.Finished(s.pipeline)
    ensures PipelineTheorems.Finished(s.pipeline) ==>
      && (forall c :: 0 <= c < |s.table.calls| ==> s.table.calls[c].phase.Returned?)
      && (ProbeTableInvariants.Pending(s.table.cleaner) == 0 ==>
           s.table.inFlight == map[] && s.table.meters.inFlightProbes == 0)
  {
    InvariantHolds(s);
    if PipelineTheorems.Finished(s.pipeline) {
      forall e: Event | Own(e)
        ensures !Enabled(s, e)
      {
        NothingAfterTheEnd(s, e);
      }
      forall c: nat | c < |s.table.calls|
        ensures s.table.calls[c].phase.Returned?
      {
        AllCallsReturned(s, c);
      }
      if ProbeTableInvariants.Pending(s.table.cleaner) == 0 {
        ProbeTableTheorems.TableDrains(s.table);
      }
    } else {
      SomethingBeforeTheEnd(s);
    }
  }
}
