// What a whole run of the agent guarantees: where every FIE comes from, when a directive gets one, and that a
// cancelled agent comes to rest with an empty table.
module SessionTheorems {
  import opened Wrappers
  import opened Directives
  import opened ForwardingInfo
  import opened FIEProvenance
  import opened Session
  import opened SessionInvariants
  import opened Attribution
  import opened Totals
  import Pipeline
  import PipelineInvariants
  import PipelineTheorems
  import ProbeTable
  import ProbeTableTheorems

  // ----- where FIEs come from -----

  /** `near` and `far` are the calls of Probe that goroutine `w` made. */
  predicate MadeBy(s: State, w: nat, near: nat, far: nat) {
    && near < |s.owners| && far < |s.owners|
    && s.owners[near] == Party(w, false) && s.owners[far] == Party(w, true)
  }

  /** The goroutine of instance w is the one with index w. */
  lemma InstancesAreGoroutines(p: Pipeline.State, x: Pipeline.Item)
    requires Pipeline.Reachable(p) && x in p.accepted && x.instance < |p.workers|
    ensures p.workers[x.instance].item == x
  {
    PipelineInvariants.InvariantHolds(p);
    PipelineTheorems.OrderIsKept(p);
    assert PipelineInvariants.Items(p.workers)[x.instance] == p.accepted[x.instance];
  }

  /** The two calls whose returns a FIE was made from: its directive's own, made with its TTLs. */
  lemma CallsBehind(s: State, i: nat) returns (near: nat, far: nat)
    requires Reachable(s) && i < |s.pipeline.sent|
    ensures var product := s.pipeline.sent[i];
      && MadeBy(s, product.item.instance, near, far)
      && ProbesOf(s.table, product.item.pd, near, far)
      && product.near == ReturnOf(s.table, near) && product.far == ReturnOf(s.table, far)
  {
    InvariantHolds(s);
    PipelineTheorems.OrderIsKept(s.pipeline);
    PipelineTheorems.SentFIEsAreForAcceptedDirectives(s.pipeline, i);
    var product := s.pipeline.sent[i];
    var w := product.item.instance;
    assert product == s.pipeline.offered[i];
    assert ProductMatches(s.table, s.probes, product);
    InstancesAreGoroutines(s.pipeline, product.item);
    near, far := s.probes[w].near.value, s.probes[w].far.value;
    assert ProbeMatches(s.owners, s.probes[w], w, false) && ProbeMatches(s.owners, s.probes[w], w, true);
    assert OwnerMatches(s, near) && OwnerMatches(s, far);
  }

  /**
   * From directive to FIE, through both machines: a FIE that is sent is about an accepted, valid directive; it was
   * made from what the two calls of that directive's own goroutine returned; and each info comes from a record
   * reported under the directive's 5-tuple at that TTL, absent exactly when that call timed out.
   */
  lemma SentFIEProvenance(s: State, i: nat) returns (near: nat, far: nat)
    requires Reachable(s) && i < |s.pipeline.sent|
    ensures MadeBy(s, s.pipeline.sent[i].item.instance, near, far)
    ensures ProbesOf(s.table, s.pipeline.sent[i].item.pd, near, far)
    ensures var nearSource, farSource := AnswerSource(s.table.calls[near]), AnswerSource(s.table.calls[far]);
      s.pipeline.sent[i].fie.sourceAddress == if nearSource.Some? then nearSource else farSource
    ensures var pd, fie := s.pipeline.sent[i].item.pd, s.pipeline.sent[i].fie;
      && s.pipeline.sent[i].item in s.pipeline.accepted && Valid(pd)
      && fie.agentID == s.pipeline.agentID && fie.directiveID == pd.id
      && fie.destinationAddress == pd.destination && fie.protocol == pd.protocol
      && (fie.nearInfo.None? <==> s.table.calls[near].phase.outcome.TimedOut?)
      && (fie.farInfo.None? <==> s.table.calls[far].phase.outcome.TimedOut?)
      && (fie.nearInfo.Some? ==> exists d: ProbeTable.Delivery ::
            Answers(s.table, near, d) && d.cause != far && MadeFrom(fie.nearInfo.value, pd, pd.nearTTL, d))
      && (fie.farInfo.Some? ==> exists d: ProbeTable.Delivery ::
            Answers(s.table, far, d) && d.cause != near && MadeFrom(fie.farInfo.value, pd, pd.nearTTL + 1, d))
  {
    InvariantHolds(s);
    near, far := CallsBehind(s, i);
    PipelineTheorems.SentFIEsAreForAcceptedDirectives(s.pipeline, i);
    FIEProvenance.FIEProvenance(s.table, s.pipeline.agentID, s.pipeline.sent[i].item.pd, near, far);
    SourceProvenance(s.table, s.pipeline.agentID, s.pipeline.sent[i].item.pd, near, far);
  }

  /** Every reply was reconstructed within `window` seconds of the key second of the request it answers. */
  ghost predicate RepliesWithin(t: ProbeTable.State, window: int) {
    forall c: nat, d: ProbeTable.Delivery :: Answers(t, c, d) ==> RepliedWithin(t, d, window)
  }

  /**
   * When calls with the same 5-tuple are kept more than `window` + 2 key seconds apart, the infos of a FIE were
   * caused by the requests of its own two calls.
   */
  lemma SentFIEsAreOwn(s: State, i: nat, window: int, spacing: int) returns (near: nat, far: nat)
    requires Reachable(s) && i < |s.pipeline.sent|
    requires Spaced(s.table, spacing) && RepliesWithin(s.table, window) && spacing > window + 2
    ensures MadeBy(s, s.pipeline.sent[i].item.instance, near, far)
    ensures var pd, fie := s.pipeline.sent[i].item.pd, s.pipeline.sent[i].fie;
      && (fie.nearInfo.Some? ==> exists d: ProbeTable.Delivery ::
            d.cause == near && MadeFrom(fie.nearInfo.value, pd, pd.nearTTL, d))
      && (fie.farInfo.Some? ==> exists d: ProbeTable.Delivery ::
            d.cause == far && MadeFrom(fie.farInfo.value, pd, FarTTL(pd), d))
  {
    InvariantHolds(s);
    near, far := SentFIEProvenance(s, i);
    var pd, fie := s.pipeline.sent[i].item.pd, s.pipeline.sent[i].fie;
    if fie.nearInfo.Some? {
      var d :| Answers(s.table, near, d) && MadeFrom(fie.nearInfo.value, pd, pd.nearTTL, d);
      AnswersAreOwn(s.table, near, d, window, spacing);
    }
    if fie.farInfo.Some? {
      var d :| Answers(s.table, far, d) && MadeFrom(fie.farInfo.value, pd, pd.nearTTL + 1, d);
      AnswersAreOwn(s.table, far, d, window, spacing);
    }
  }

  /** No probe serves two FIEs: the calls behind two of them are four different ones. */
  lemma FIEsShareNoProbes(s: State, i: nat, j: nat)
    returns (near: nat, far: nat, otherNear: nat, otherFar: nat)
    requires Reachable(s) && i < j < |s.pipeline.sent|
    ensures MadeBy(s, s.pipeline.sent[i].item.instance, near, far)
    ensures MadeBy(s, s.pipeline.sent[j].item.instance, otherNear, otherFar)
    ensures |{near, far, otherNear, otherFar}| == 4
  {
    InvariantHolds(s);
    near, far := CallsBehind(s, i);
    otherNear, otherFar := CallsBehind(s, j);
    PipelineTheorems.AtMostOneFIE(s.pipeline, i, j);
  }

  // ----- when a directive is dropped -----

  /**
   * A directive is dropped for one of three reasons: the context was cancelled, its FIE could not be written, or one
   * of its own two probes was rejected as a duplicate.
   */
  lemma LossesAreExplained(s: State, j: nat)
    requires Reachable(s) && j < |s.pipeline.lost|
    ensures var l := s.pipeline.lost[j];
      || s.pipeline.ctxDone
      || (l.reason.WriteFailed? && s.pipeline.writer.Failing?)
      || (l.reason.DuplicateProbe? && exists c: nat ::
            && WasRejected(s.table, c) && c < |s.owners| && s.owners[c].w == l.item.instance)
  {
    InvariantHolds(s);
    var l := s.pipeline.lost[j];
    assert LossMatches(s.pipeline.ctxDone, s.pipeline.writer.Failing?, s.table, s.probes, l);
    if l.reason.DuplicateProbe? {
      var w := l.item.instance;
      var p := s.probes[w];
      assert ProbeMatches(s.owners, p, w, false) && ProbeMatches(s.owners, p, w, true);
      assert WasRejected(s.table, p.near.value) || WasRejected(s.table, p.far.value);
    }
  }

  /** The agent is neither cancelled nor about to be. */
  predicate Undisturbed(s: State) {
    !s.pipeline.ctxDone && !s.pipeline.writer.Failing?
  }

  /** How many accepted directives are somewhere in the pipeline. */
  function InPlace(p: Pipeline.State): int {
    PipelineInvariants.OfAny(p.reader.Holding?) + |p.pds|
    + PipelineInvariants.OfAny(PipelineInvariants.Carries(p.processor))
    + Total(p.workers, PipelineInvariants.Carrying)
    + |p.fies| + PipelineInvariants.OfAny(p.writer.Discounting? || p.writer.Sending?)
  }

  /**
   * Undisturbed, with calls of equal 5-tuples in different key seconds, no directive is dropped: each has been served
   * or is still somewhere in the pipeline, if only with a probe that waits for ever.
   */
  lemma NothingIsDroppedWhileApart(s: State)
    requires Reachable(s) && Undisturbed(s) && Apart(s.table, 1)
    ensures s.pipeline.lost == []
    ensures |s.pipeline.accepted| == InPlace(s.pipeline) + |s.pipeline.sent|
  {
    InvariantHolds(s);
    if s.pipeline.lost != [] {
      LossesAreExplained(s, 0);
      var c: nat :| WasRejected(s.table, c);
      RejectedCallsAreNotApart(s.table, c, 1);
    }
    PipelineTheorems.EveryDirectiveIsAccountedFor(s.pipeline);
  }

  /** One key second is the least spacing of equal 5-tuples under which no undisturbed run drops a directive. */
  lemma LeastSpacingWithoutDrops(spacing: int)
    ensures (forall s: State :: Reachable(s) && Undisturbed(s) && Apart(s.table, spacing) ==> s.pipeline.lost == [])
      <==> spacing >= 1
  {
    forall s: State | spacing >= 1 && Reachable(s) && Undisturbed(s) && Apart(s.table, spacing)
      ensures s.pipeline.lost == []
    {
      assert Apart(s.table, 1);
      NothingIsDroppedWhileApart(s);
    }
    if spacing < 1 {
      var s := DroppedDirectiveRun();
      assert Apart(s.table, spacing);
    }
  }

  // ----- a run that drops a directive -----

  lemma Extend(s: State, e: Event) returns (t: State)
    requires Reachable(s) && Enabled(s, e)
    ensures t == Step(s, e) && Reachable(t)
  {
    t := Step(s, e);
    ReachableStep(s, e);
  }

  /** The pipeline waits for a directive and has lost none. */
  predicate Idle(p: Pipeline.State) {
    && p.reader.Receiving? && p.processor.Selecting? && p.writer.Awaiting?
    && p.pds == [] && p.pdsCapacity == 1 && !p.connClosed && !p.ctxDone && p.lost == []
  }

  function Fresh(p: Pipeline.State, pd: Directive): Pipeline.Worker {
    Pipeline.Worker(Pipeline.Item(|p.accepted|, pd), Pipeline.Probing(None, None))
  }

  lemma ReaderRun(s: State, a: Pipeline.ReaderAction) returns (t: State)
    requires Reachable(s) && Pipeline.ReaderEnabled(s.pipeline, a)
    ensures Reachable(t) && t == s.(pipeline := Pipeline.ReaderStep(s.pipeline, a))
  {
    t := Extend(s, InPipeline(Pipeline.ByReader(a)));
  }

  lemma ProcessorRun(s: State, a: Pipeline.ProcessorAction) returns (t: State)
    requires Reachable(s) && Pipeline.ProcessorEnabled(s.pipeline, a)
    ensures Reachable(t) && t.pipeline == Pipeline.ProcessorStep(s.pipeline, a)
    ensures t == s.(pipeline := t.pipeline, probes := if a.Dispatch? then s.probes + [Probes(None, None)] else s.probes)
  {
    t := Extend(s, InPipeline(Pipeline.ByProcessor(a)));
  }

  /** A directive is received and sent to the processor. */
  lemma ReceivedRun(s: State, pd: Directive) returns (t: State)
    requires Reachable(s) && Idle(s.pipeline) && Valid(pd)
    ensures Reachable(t) && t == s.(pipeline := t.pipeline)
    ensures t.pipeline == s.pipeline.(pds := [Fresh(s.pipeline, pd).item], pdsDepth := s.pipeline.pdsDepth + 1,
      accepted := s.pipeline.accepted + [Fresh(s.pipeline, pd).item])
  {
    t := ReaderRun(s, Pipeline.Accept(pd));
    t := ReaderRun(t, Pipeline.SendPD);
    t := ReaderRun(t, Pipeline.CountPD);
  }

  /** The processor takes it. */
  lemma TakenRun(s: State) returns (t: State)
    requires Reachable(s) && s.pipeline.processor.Selecting? && s.pipeline.pds != []
    ensures Reachable(t) && t == s.(pipeline := t.pipeline)
    ensures t.pipeline == s.pipeline.(processor := Pipeline.Dispatching(s.pipeline.pds[0]),
      pds := s.pipeline.pds[1..], pdsDepth := s.pipeline.pdsDepth - 1)
  {
    t := ProcessorRun(s, Pipeline.TakePD);
    t := ProcessorRun(t, Pipeline.DiscountPD);
  }

  /** And starts its goroutine. */
  lemma StartedRun(s: State) returns (t: State)
    requires Reachable(s) && s.pipeline.processor.Dispatching?
    ensures Reachable(t) && t == s.(pipeline := t.pipeline, probes := s.probes + [Probes(None, None)])
    ensures t.pipeline == s.pipeline.(processor := Pipeline.Selecting, pdGoroutines := s.pipeline.pdGoroutines + 1,
      workers := s.pipeline.workers + [Pipeline.Worker(s.pipeline.processor.item, Pipeline.Probing(None, None))])
  {
    t := ProcessorRun(s, Pipeline.CountGoroutine);
    t := ProcessorRun(t, Pipeline.Dispatch);
  }

  lemma DispatchedRun(s: State, pd: Directive) returns (t: State)
    requires Reachable(s) && Idle(s.pipeline) && Valid(pd)
    ensures Reachable(t) && t.table == s.table && t.owners == s.owners && Idle(t.pipeline)
    ensures t.probes == s.probes + [Probes(None, None)]
    ensures t.pipeline.workers == s.pipeline.workers + [Fresh(s.pipeline, pd)]
    ensures |t.pipeline.accepted| == |s.pipeline.accepted| + 1
  {
    t := ReceivedRun(s, pd);
    t := TakenRun(t);
    t := StartedRun(t);
  }

  /** A goroutine calls Probe, and the call takes the lock. */
  lemma LockedRun(s: State, w: nat, far: bool) returns (t: State)
    requires Reachable(s) && CanStart(s, w, far)
    ensures Reachable(t) && t.pipeline == s.pipeline
    ensures t.probes == s.probes[w := WithCall(s.probes[w], far, |s.table.calls|)]
    ensures var table := ProbeTable.Step(s.table, ArriveEvent(s, w, far));
      && |table.calls| == |s.table.calls| + 1
      && t.table == ProbeTable.RegisterCall(table, |s.table.calls|)
  {
    t := Extend(s, StartProbe(w, far));
    t := Extend(t, InTable(ProbeTable.ByCaller(|s.table.calls|, ProbeTable.Register)));
  }

  /** A call that finds its key in use counts itself and returns. */
  lemma RejectedRun(s: State, w: nat, far: bool) returns (t: State)
    requires Reachable(s) && CanStart(s, w, far)
    requires var pd := s.pipeline.workers[w].item.pd;
      ProbeTable.NewCall(pd, TTLOf(pd, far), s.table.now).key in s.table.inFlight
    ensures Reachable(t) && t.pipeline == s.pipeline
    ensures t.probes == s.probes[w := WithCall(s.probes[w], far, |s.table.calls|)]
    ensures t.table.inFlight == s.table.inFlight && t.table.now == s.table.now
    ensures |t.table.calls| == |s.table.calls| + 1 && t.table.calls[..|s.table.calls|] == s.table.calls
    ensures HasReturned(t.table, |s.table.calls|) && ReturnOf(t.table, |s.table.calls|) == DuplicatePD
  {
    t := LockedRun(s, w, far);
    t := Extend(t, InTable(ProbeTable.ByCaller(|s.table.calls|, ProbeTable.CountDuplicate)));
  }

  const SOME_SETTINGS: Settings := Settings("agent", 1, 1, 1, 1, 0)

  /** The same directive arrives twice, and both probes of the first are in flight. */
  lemma FirstDirectiveRun() returns (s: State)
    ensures Reachable(s) && Idle(s.pipeline) && |s.pipeline.workers| == 2 && |s.probes| == 2
    ensures s.pipeline.workers[1].item == Pipeline.Item(1, ProbeTableTheorems.SOME_DIRECTIVE)
    ensures s.pipeline.workers[1].stage == Pipeline.Probing(None, None) && s.probes[1] == Probes(None, None)
    ensures |s.table.calls| == 2 && s.table.now == 0
    ensures ProbeTable.NewCall(ProbeTableTheorems.SOME_DIRECTIVE, 1, 0).key in s.table.inFlight
    ensures ProbeTable.NewCall(ProbeTableTheorems.SOME_DIRECTIVE, 2, 0).key in s.table.inFlight
  {
    s := Start(SOME_SETTINGS);
    InitiallyReachable(SOME_SETTINGS);
    s := DispatchedRun(s, ProbeTableTheorems.SOME_DIRECTIVE);
    s := DispatchedRun(s, ProbeTableTheorems.SOME_DIRECTIVE);
    s := LockedRun(s, 0, false);
    s := LockedRun(s, 0, true);
  }

  /** A goroutine learns what one of its calls returned. */
  lemma ReturnedRun(s: State, w: nat, far: bool) returns (t: State)
    requires Reachable(s) && CanReturn(s, w, far) && Idle(s.pipeline)
    ensures Reachable(t) && t.table == s.table && t.probes == s.probes && Idle(t.pipeline)
    ensures |t.pipeline.workers| == |s.pipeline.workers|
    ensures var r := Some(ReturnOf(s.table, CallOf(s.probes[w], far).value));
      var worker := s.pipeline.workers[w];
      t.pipeline.workers[w] ==
        worker.(stage := if far then worker.stage.(far := r) else worker.stage.(near := r))
  {
    var a := ReturnAction(far, ReturnOf(s.table, CallOf(s.probes[w], far).value));
    PipelineInvariants.QuietStepChanges(s.pipeline, w, a);
    t := Extend(s, ProbeReturns(w, far));
  }

  /** Both probes of the second are rejected. */
  lemma BothRejectedRun() returns (s: State)
    ensures Reachable(s) && Idle(s.pipeline) && |s.pipeline.workers| == 2 && |s.probes| == 2
    ensures s.pipeline.workers[1].item == Pipeline.Item(1, ProbeTableTheorems.SOME_DIRECTIVE)
    ensures s.pipeline.workers[1].stage == Pipeline.Probing(None, None)
    ensures Got(s.table, s.probes[1].near, DuplicatePD) && Got(s.table, s.probes[1].far, DuplicatePD)
  {
    s := FirstDirectiveRun();
    s := RejectedRun(s, 1, false);
    ghost var near := s.table.calls[2];
    s := RejectedRun(s, 1, true);
    assert s.table.calls[2] == near;
  }

  /** And it is dropped. */
  lemma DroppedDirectiveRun() returns (s: State)
    ensures Reachable(s) && Undisturbed(s) && s.pipeline.lost != []
  {
    s := BothRejectedRun();
    s := ReturnedRun(s, 1, false);
    s := ReturnedRun(s, 1, true);
    PipelineInvariants.ConcludeChanges(s.pipeline, 1);
    s := Extend(s, InPipeline(Pipeline.ByWorker(1, Pipeline.Conclude)));
  }

  // ----- a run that gets a directive stuck -----

  /** A call queues its request, and the writer stops. */
  lemma QueuedAndStoppedRun(s: State, c: nat) returns (t: State)
    requires Reachable(s) && c < |s.table.calls| && s.table.calls[c].phase.Registered?
    requires s.table.queue == [] && s.table.capacity == 1 && s.table.writer.WriterReady?
    ensures Reachable(t) && t == s.(table := t.table) && |t.table.calls| == |s.table.calls|
    ensures t.table == s.table.(calls := t.table.calls, queue := t.table.queue, enqueued := t.table.enqueued,
      writer := t.table.writer)
    ensures t.table.calls[c].key == s.table.calls[c].key
    ensures |t.table.queue| == 1 && t.table.writer.WriterStopped?
  {
    t := Extend(s, InTable(ProbeTable.ByCaller(c, ProbeTable.Enqueue)));
    t := Extend(t, InTable(ProbeTable.ByWriter(ProbeTable.Stop)));
  }

  /** The near probe takes the only place in the queue. */
  lemma FullQueueRun() returns (s: State)
    ensures Reachable(s) && Idle(s.pipeline) && |s.pipeline.workers| == 1 && |s.probes| == 1
    ensures |s.pipeline.accepted| == 1
    ensures s.pipeline.workers[0].item == Pipeline.Item(0, ProbeTableTheorems.SOME_DIRECTIVE)
    ensures s.probes[0] == Probes(Some(0), None)
    ensures |s.table.calls| == 1 && s.table.capacity == |s.table.queue| == 1 && s.table.writer.WriterStopped?
    ensures s.table.now == 0 && s.table.calls[0].key == ProbeTable.NewCall(ProbeTableTheorems.SOME_DIRECTIVE, 1, 0).key
    ensures s.table.inFlight.Keys == {s.table.calls[0].key}
  {
    s := Start(SOME_SETTINGS);
    InitiallyReachable(SOME_SETTINGS);
    s := DispatchedRun(s, ProbeTableTheorems.SOME_DIRECTIVE);
    s := LockedRun(s, 0, false);
    s := QueuedAndStoppedRun(s, 0);
  }

  /** The far probe registers, and waits for a place that will not come. */
  lemma StuckProbeRun() returns (s: State)
    ensures Reachable(s) && Idle(s.pipeline) && |s.pipeline.accepted| == 1
    ensures s.probes == [Probes(Some(0), Some(1))] && |s.table.calls| == 2 && Apart(s.table, 1)
    ensures s.table.calls[1].phase.Registered? && s.table.writer.WriterStopped?
    ensures s.table.capacity == |s.table.queue| == 1
  {
    s := FullQueueRun();
    s := LockedRun(s, 0, true);
  }
}
