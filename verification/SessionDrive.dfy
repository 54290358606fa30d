// The other half: how a directive that is not hopeless gets its FIE. The processor starts its goroutine, its two calls
// return, and the writer sends what is ahead of its FIE and then the FIE.
module SessionDrive {
  import opened Wrappers
  import opened Attribution
  import opened CaracalRecords
  import opened ForwardingInfo
  import opened FIEProvenance
  import opened Session
  import opened SessionInvariants
  import opened SessionTheorems
  import opened SessionProgress
  import opened Totals
  import CallProgress
  import Pipeline
  import PipelineInvariants
  import PipelineTheorems
  import ProbeTable

  // ----- the processor -----

  function ProcessorWork(p: Pipeline.State): nat {
    5 * |p.pds| + match p.processor {
      case Taken(_) => 3
      case Dispatching(_) => 2
      case Starting(_) => 1
      case _ => 0
    }
  }

  function ProcessorNext(p: Pipeline.State): Pipeline.ProcessorAction {
    match p.processor
    case Taken(_) => Pipeline.DiscountPD
    case Dispatching(_) => Pipeline.CountGoroutine
    case Starting(_) => Pipeline.Dispatch
    case _ => Pipeline.TakePD
  }

  /** The table and what has left the processor are as they were; goroutines have been added. */
  ghost predicate Passed(s: State, u: State) {
    && u.table == s.table && u.owners == s.owners
    && u.pipeline == s.pipeline.(pds := u.pipeline.pds, processor := u.pipeline.processor,
         workers := u.pipeline.workers, pdsDepth := u.pipeline.pdsDepth, pdGoroutines := u.pipeline.pdGoroutines)
    && s.probes <= u.probes && s.pipeline.workers <= u.pipeline.workers
    && forall w :: |s.probes| <= w < |u.probes| ==> u.probes[w] == Probes(None, None)
  }

  lemma ProcessorMoves(s: State, t: State) returns (u: State)
    requires Leads(s, t) && ProcessorWork(t.pipeline) > 0
    ensures Leads(s, u) && Passed(t, u) && ProcessorWork(u.pipeline) < ProcessorWork(t.pipeline)
  {
    InvariantHolds(t);
    ProcessorCanMove(t.pipeline);
    ProcessorPasses(t.pipeline);
    u := Go(s, t, InPipeline(Pipeline.ByProcessor(ProcessorNext(t.pipeline))));
  }

  lemma ProcessorCanMove(p: Pipeline.State)
    requires Pipeline.Reachable(p) && !p.ctxDone && ProcessorWork(p) > 0
    ensures Pipeline.ProcessorEnabled(p, ProcessorNext(p))
  {
    PipelineInvariants.InvariantHolds(p);
  }

  /** What the processor's next step changes. */
  lemma ProcessorPasses(p: Pipeline.State)
    requires Pipeline.ProcessorEnabled(p, ProcessorNext(p))
    ensures var q := Pipeline.ProcessorStep(p, ProcessorNext(p));
      && q == p.(pds := q.pds, processor := q.processor, workers := q.workers, pdsDepth := q.pdsDepth,
                 pdGoroutines := q.pdGoroutines)
      && p.workers <= q.workers && ProcessorWork(q) < ProcessorWork(p)
  {
  }

  /** The processor starts a goroutine for every directive that has been sent to it. */
  lemma ProcessorDrained(s: State, t: State) returns (u: State)
    requires Leads(s, t)
    ensures Leads(s, u) && Passed(t, u) && u.pipeline.pds == [] && !PipelineInvariants.Carries(u.pipeline.processor)
    decreases ProcessorWork(t.pipeline)
  {
    u := t;
    if ProcessorWork(t.pipeline) > 0 {
      var v := ProcessorMoves(s, t);
      u := ProcessorDrained(s, v);
    }
  }

  /** The reader sends the directive it holds. */
  lemma HeldDirectiveSent(s: State, t: State) returns (u: State)
    requires Leads(s, t) && t.pipeline.reader.Holding? && |t.pipeline.pds| < t.pipeline.pdsCapacity
    ensures Leads(s, u) && u == t.(pipeline := u.pipeline)
    ensures u.pipeline == t.pipeline.(reader := Pipeline.Counting, pds := t.pipeline.pds + [t.pipeline.reader.item])
  {
    u := Go(s, t, InPipeline(Pipeline.ByReader(Pipeline.SendPD)));
  }

  /** Where an accepted directive is once the processor has nothing to do: with the reader, or with its goroutine. */
  lemma OnlyTheReaderHolds(s: State, x: Pipeline.Item)
    requires Reachable(s) && !s.pipeline.ctxDone && x in s.pipeline.accepted
    requires s.pipeline.pds == [] && !PipelineInvariants.Carries(s.pipeline.processor)
    ensures x.instance < |s.pipeline.workers| || s.pipeline.reader == Pipeline.Holding(x)
  {
    InvariantHolds(s);
    var p := s.pipeline;
    AcceptedAreInLine(p, x);
    assert PipelineInvariants.Line(p) == PipelineInvariants.Items(p.workers) + PipelineInvariants.InReader(p.reader);
  }

  lemma AcceptedAreInLine(p: Pipeline.State, x: Pipeline.Item)
    requires Pipeline.Reachable(p) && !p.ctxDone && x in p.accepted
    ensures x.instance < |PipelineInvariants.Line(p)| && PipelineInvariants.Line(p)[x.instance] == x
  {
    PipelineInvariants.InvariantHolds(p);
  }

  /** Its goroutine is started. */
  lemma DirectiveDispatched(s: State, t: State, x: Pipeline.Item) returns (u: State)
    requires Leads(s, t) && x in t.pipeline.accepted && t.pipeline.pdsCapacity > 0
    ensures Leads(s, u) && u.table == t.table && ProbesFor(u, x) == ProbesFor(t, x)
    ensures u.pipeline.accepted == t.pipeline.accepted && u.pipeline.fiesCapacity == t.pipeline.fiesCapacity
    ensures u.pipeline.pds == [] && !PipelineInvariants.Carries(u.pipeline.processor)
    ensures x.instance < |u.pipeline.workers|
  {
    u := ProcessorDrained(s, t);
    OnlyTheReaderHolds(u, x);
    if x.instance >= |u.pipeline.workers| {
      u := HeldDirectiveSent(s, u);
      u := ProcessorDrained(s, u);
      OnlyTheReaderHolds(u, x);
    }
  }

  // ----- the probes -----

  /** In a second in which its key is new, a goroutine starts a probe. */
  lemma ProbeStarted(s: State, t: State, w: nat, far: bool) returns (u: State)
    requires Leads(s, t) && CanStart(t, w, far)
    ensures Leads(s, u) && u.pipeline == t.pipeline
    ensures u.probes == t.probes[w := WithCall(t.probes[w], far, |t.table.calls|)]
    ensures |u.table.calls| == |t.table.calls| + 1 && u.table.calls[..|t.table.calls|] == t.table.calls
    ensures u.table.inFlight == t.table.inFlight && u.table.queue == t.table.queue
    ensures u.table.writer == t.table.writer && u.table.cleaner == t.table.cleaner
    ensures u.table.capacity == t.table.capacity
    ensures u.table.calls[|t.table.calls|].phase.Arrived?
    ensures u.table.calls[|t.table.calls|].key !in u.table.inFlight
  {
    InvariantHolds(t);
    u := Go(s, t, InTable(ProbeTable.Tick(t.table.now + SECOND)));
    u := Go(s, u, StartProbe(w, far));
    var key := u.table.calls[|t.table.calls|].key;
    if key in t.table.inFlight {
      CallProgress.EntriesAreNotFromTheFuture(t.table, key);
    }
  }

  /** Its own places, and those of the other probe, at most what they were. */
  ghost predicate OtherKept(t: ProbeTable.State, u: ProbeTable.State, other: Option<nat>) {
    && Known(t, other) && Known(u, other)
    && (other.Some? ==> u.calls[other.value] == t.calls[other.value])
    && PlacesOf(u, other) <= PlacesOf(t, other)
  }

  lemma StartKeepsPlaces(t: ProbeTable.State, u: ProbeTable.State, c: nat)
    requires |t.calls| <= |u.calls| && u.calls[..|t.calls|] == t.calls && c < |t.calls|
    requires u.inFlight == t.inFlight && u.cleaner == t.cleaner
    ensures u.calls[c] == t.calls[c] && CallProgress.Places(u, c) <= CallProgress.Places(t, c)
  {
    var key := t.calls[c].key;
    if CallProgress.Freeable(t, key) {
      var d :| 0 <= d < |t.calls| && t.calls[d].key == key && CallProgress.MayLeave(t.calls[d]);
      assert u.calls[d] == t.calls[d];
      assert CallProgress.Freeable(u, key);
    }
  }

  /** One probe has the places it needs, and so has the other after it. */
  ghost predicate PlacesSuffice(t: ProbeTable.State, p: Probes, far: bool)
    requires Known(t, p.near) && Known(t, p.far)
  {
    && !WasTurnedAway(t, CallOf(p, far))
    && !CallProgress.Wedged(t, PlacesOf(t, p.near) + PlacesOf(t, p.far))
  }

  /** The call of one probe returns a result, with the other's call untouched and its places left. */
  lemma CallReturned(s: State, t: State, w: nat, far: bool) returns (u: State)
    requires Leads(s, t) && t.table.capacity > 0 && w < |t.probes| && CallOf(t.probes[w], far).Some?
    requires Known(t.table, t.probes[w].near) && Known(t.table, t.probes[w].far)
    requires PlacesSuffice(t.table, t.probes[w], far)
    ensures Leads(s, u) && u == t.(table := u.table) && u.table.capacity == t.table.capacity
    ensures OtherKept(t.table, u.table, CallOf(t.probes[w], !far))
    ensures !CallProgress.Wedged(u.table, PlacesOf(u.table, CallOf(t.probes[w], !far)))
    ensures Known(u.table, CallOf(t.probes[w], far))
    ensures CallProgress.Succeeded(u.table.calls[CallOf(t.probes[w], far).value])
  {
    InvariantHolds(t);
    var c := CallOf(t.probes[w], far).value;
    OnlyRejectionsFail(t, c);
    CallProgress.CalmlyStays(t.table);
    var table := CallProgress.CallDriven(t.table, t.table, c);
    TableLeads(s, t, table);
    u := t.(table := table);
    var other := CallOf(t.probes[w], !far);
    if other.Some? {
      KeysDiffer(t, w);
      CallProgress.SparedPlaces(t.table, table, t.table.calls[c].key, other.value);
    }
    CallProgress.QueueHasRoom(table);
  }

  function Recorded(stage: Pipeline.WorkerStage, far: bool): Option<ProbeReturn>
    requires stage.Probing?
  {
    if far then stage.far else stage.near
  }

  /** A goroutine waits for this probe, and the places it needs can be had. */
  ghost predicate AwaitsProbe(t: State, w: nat, far: bool) {
    && w < |t.probes| == |t.pipeline.workers| && t.table.capacity > 0
    && t.pipeline.workers[w].stage.Probing? && Recorded(t.pipeline.workers[w].stage, far).None?
    && Known(t.table, t.probes[w].near) && Known(t.table, t.probes[w].far)
    && PlacesSuffice(t.table, t.probes[w], far)
  }

  /** The probe has come back with a result, and nothing else has changed for the goroutine. */
  ghost predicate GotResult(t: State, u: State, w: nat, far: bool)
    requires AwaitsProbe(t, w, far)
  {
    && |u.probes| == |t.probes| && u.table.capacity == t.table.capacity
    && CallOf(u.probes[w], !far) == CallOf(t.probes[w], !far)
    && OtherKept(t.table, u.table, CallOf(t.probes[w], !far))
    && !CallProgress.Wedged(u.table, PlacesOf(u.table, CallOf(t.probes[w], !far)))
    && u.pipeline == t.pipeline.(workers := u.pipeline.workers)
    && |u.pipeline.workers| == |t.pipeline.workers|
    && u.pipeline.workers[w].item == t.pipeline.workers[w].item
    && u.pipeline.workers[w].stage.Probing?
    && Recorded(u.pipeline.workers[w].stage, !far) == Recorded(t.pipeline.workers[w].stage, !far)
    && Recorded(u.pipeline.workers[w].stage, far).Some?
    && Recorded(u.pipeline.workers[w].stage, far).value.Completed?
  }

  /** The goroutine is told what its call returned. */
  lemma ResultRecorded(s: State, t: State, w: nat, far: bool) returns (u: State)
    requires Leads(s, t) && CanReturn(t, w, far)
    ensures Leads(s, u) && u == t.(pipeline := u.pipeline)
    ensures var r := ReturnOf(t.table, CallOf(t.probes[w], far).value);
      u.pipeline == t.pipeline.(workers := PipelineInvariants.Moved(t.pipeline, w,
        Pipeline.NextStage(t.pipeline.agentID, t.pipeline.workers[w], ReturnAction(far, r))))
  {
    PipelineInvariants.QuietStepChanges(t.pipeline, w,
      ReturnAction(far, ReturnOf(t.table, CallOf(t.probes[w], far).value)));
    u := Go(s, t, ProbeReturns(w, far));
  }

  lemma StartedProbeReturned(s: State, t: State, w: nat, far: bool) returns (u: State)
    requires Leads(s, t) && AwaitsProbe(t, w, far) && CallOf(t.probes[w], far).Some?
    ensures Leads(s, u) && AwaitsProbe(t, w, far) && GotResult(t, u, w, far)
  {
    var v := CallReturned(s, t, w, far);
    u := ResultRecorded(s, v, w, far);
  }

  /** A probe that has yet to be started needs no more places once it is. */
  lemma ProbeAwaited(s: State, t: State, w: nat, far: bool) returns (u: State)
    requires Leads(s, t) && AwaitsProbe(t, w, far) && CallOf(t.probes[w], far).None?
    ensures Leads(s, u) && AwaitsProbe(u, w, far) && CallOf(u.probes[w], far).Some?
    ensures u.pipeline == t.pipeline && |u.probes| == |t.probes| && u.table.capacity == t.table.capacity
    ensures CallOf(u.probes[w], !far) == CallOf(t.probes[w], !far)
    ensures OtherKept(t.table, u.table, CallOf(t.probes[w], !far))
  {
    u := ProbeStarted(s, t, w, far);
    var other := CallOf(t.probes[w], !far);
    if other.Some? {
      StartKeepsPlaces(t.table, u.table, other.value);
    }
  }

  lemma ProbeDriven(s: State, t: State, w: nat, far: bool) returns (u: State)
    requires Leads(s, t) && AwaitsProbe(t, w, far)
    ensures Leads(s, u) && GotResult(t, u, w, far)
  {
    if CallOf(t.probes[w], far).None? {
      var v := ProbeAwaited(s, t, w, far);
      u := StartedProbeReturned(s, v, w, far);
    } else {
      u := StartedProbeReturned(s, t, w, far);
    }
  }

  /** What a goroutine has recorded of a probe that was not rejected is a result. */
  lemma RecordedResults(t: State, w: nat, far: bool)
    requires Reachable(t) && Undisturbed(t) && w < |t.probes| && w < |t.pipeline.workers|
    requires t.pipeline.workers[w].stage.Probing? && Recorded(t.pipeline.workers[w].stage, far).Some?
    requires Known(t.table, CallOf(t.probes[w], far)) && !WasTurnedAway(t.table, CallOf(t.probes[w], far))
    ensures Recorded(t.pipeline.workers[w].stage, far).value.Completed?
  {
    InvariantHolds(t);
    assert StageMatches(t.table, t.pipeline.workers[w].stage, t.probes[w]);
    OnlyRejectionsFail(t, CallOf(t.probes[w], far).value);
  }

  predicate BothCompleted(stage: Pipeline.WorkerStage) {
    && stage.Probing? && stage.near.Some? && stage.far.Some?
    && stage.near.value.Completed? && stage.far.value.Completed?
  }

  lemma NearProbeDone(s: State, t: State, w: nat) returns (u: State)
    requires Leads(s, t) && w < |t.probes| == |t.pipeline.workers| && t.table.capacity > 0
    requires t.pipeline.workers[w].stage.Probing?
    requires Known(t.table, t.probes[w].near) && Known(t.table, t.probes[w].far) && !Hopeless(t.table, t.probes[w])
    ensures Leads(s, u) && |u.probes| == |t.probes| && u.table.capacity == t.table.capacity
    ensures u.pipeline == t.pipeline.(workers := u.pipeline.workers)
    ensures |u.pipeline.workers| == |t.pipeline.workers|
    ensures u.pipeline.workers[w].item == t.pipeline.workers[w].item && u.pipeline.workers[w].stage.Probing?
    ensures Recorded(u.pipeline.workers[w].stage, false).Some?
    ensures Recorded(u.pipeline.workers[w].stage, false).value.Completed?
    ensures Known(u.table, u.probes[w].far) && !WasTurnedAway(u.table, u.probes[w].far)
    ensures !CallProgress.Wedged(u.table, PlacesOf(u.table, u.probes[w].far))
  {
    if Recorded(t.pipeline.workers[w].stage, false).None? {
      u := ProbeDriven(s, t, w, false);
    } else {
      u := t;
      RecordedResults(t, w, false);
    }
  }

  /** Both probes come back with results. */
  lemma ProbesDone(s: State, t: State, w: nat) returns (u: State)
    requires Leads(s, t) && w < |t.probes| == |t.pipeline.workers| && t.table.capacity > 0
    requires t.pipeline.workers[w].stage.Probing?
    requires Known(t.table, t.probes[w].near) && Known(t.table, t.probes[w].far) && !Hopeless(t.table, t.probes[w])
    ensures Leads(s, u) && u.pipeline == t.pipeline.(workers := u.pipeline.workers)
    ensures |u.pipeline.workers| == |t.pipeline.workers|
    ensures u.pipeline.workers[w].item == t.pipeline.workers[w].item && BothCompleted(u.pipeline.workers[w].stage)
  {
    var v := NearProbeDone(s, t, w);
    if Recorded(v.pipeline.workers[w].stage, true).None? {
      NearNeedsNothing(v, w);
      u := ProbeDriven(s, v, w, true);
    } else {
      u := v;
      RecordedResults(v, w, true);
    }
  }

  /** A call that is back needs no place. */
  lemma NearNeedsNothing(t: State, w: nat)
    requires Reachable(t) && w < |t.probes| && w < |t.pipeline.workers|
    requires t.pipeline.workers[w].stage.Probing? && t.pipeline.workers[w].stage.near.Some?
    ensures Known(t.table, t.probes[w].near) && PlacesOf(t.table, t.probes[w].near) == 0
  {
    InvariantHolds(t);
    assert StageMatches(t.table, t.pipeline.workers[w].stage, t.probes[w]);
  }

  /** And the goroutine has a FIE to offer. */
  lemma FIEMade(s: State, t: State, w: nat) returns (u: State)
    requires Leads(s, t) && w < |t.pipeline.workers| && BothCompleted(t.pipeline.workers[w].stage)
    ensures Leads(s, u) && u.pipeline == t.pipeline.(workers := u.pipeline.workers)
    ensures |u.pipeline.workers| == |t.pipeline.workers|
    ensures u.pipeline.workers[w].stage.Offering?
    ensures u.pipeline.workers[w].stage.product.item == t.pipeline.workers[w].item
  {
    PipelineInvariants.ConcludeChanges(t.pipeline, w);
    u := Go(s, t, InPipeline(Pipeline.ByWorker(w, Pipeline.Conclude)));
  }

  // ----- the writer -----

  function WriterWork(p: Pipeline.State): nat {
    4 * |p.fies| + match p.writer {
      case Discounting(_) => 2
      case Sending(_) => 1
      case _ => 0
    }
  }

  function WriterNext(p: Pipeline.State): Pipeline.WriterAction {
    match p.writer
    case Discounting(_) => Pipeline.DiscountFIE
    case Sending(_) => Pipeline.SendFIE
    case _ => Pipeline.TakeFIE
  }

  /** Only the writer has moved, and has sent FIEs in order. */
  ghost predicate Written(t: State, u: State) {
    && u == t.(pipeline := u.pipeline)
    && u.pipeline == t.pipeline.(writer := u.pipeline.writer, fies := u.pipeline.fies,
         fiesDepth := u.pipeline.fiesDepth, sent := u.pipeline.sent)
    && PipelineInvariants.FIELine(u.pipeline) == PipelineInvariants.FIELine(t.pipeline)
  }

  lemma WriterMoves(s: State, t: State) returns (u: State)
    requires Leads(s, t) && WriterWork(t.pipeline) > 0
    ensures Leads(s, u) && Written(t, u) && WriterWork(u.pipeline) < WriterWork(t.pipeline)
  {
    InvariantHolds(t);
    WriterCanMove(t.pipeline);
    WriterPasses(t.pipeline);
    u := Go(s, t, InPipeline(Pipeline.ByWriter(WriterNext(t.pipeline))));
  }

  lemma WriterCanMove(p: Pipeline.State)
    requires Pipeline.Reachable(p) && !p.ctxDone && !p.writer.Failing? && WriterWork(p) > 0
    ensures Pipeline.WriterEnabled(p, WriterNext(p))
  {
    PipelineInvariants.InvariantHolds(p);
  }

  /** What the writer's next step changes. */
  lemma WriterPasses(p: Pipeline.State)
    requires Pipeline.WriterEnabled(p, WriterNext(p))
    ensures var q := Pipeline.WriterStep(p, WriterNext(p));
      && q == p.(writer := q.writer, fies := q.fies, fiesDepth := q.fiesDepth, sent := q.sent)
      && !q.writer.Failing? && WriterWork(q) < WriterWork(p)
      && PipelineInvariants.FIELine(q) == PipelineInvariants.FIELine(p)
  {
    PipelineInvariants.WriterKeepsFIELine(p, WriterNext(p));
  }

  /** The writer sends every FIE in the channel. */
  lemma WriterDrained(s: State, t: State) returns (u: State)
    requires Leads(s, t)
    ensures Leads(s, u) && Written(t, u) && u.pipeline.fies == []
    ensures u.pipeline.sent == PipelineInvariants.FIELine(t.pipeline)
    ensures PipelineInvariants.InWriter(u.pipeline.writer) == []
    decreases WriterWork(t.pipeline)
  {
    if WriterWork(t.pipeline) > 0 {
      var v := WriterMoves(s, t);
      u := WriterDrained(s, v);
    } else {
      u := t;
    }
  }

  /** A FIE on offer is put in the channel and sent. */
  lemma OfferSent(s: State, t: State, w: nat) returns (u: State)
    requires Leads(s, t) && w < |t.pipeline.workers| && t.pipeline.workers[w].stage.Offering?
    requires t.pipeline.fiesCapacity > 0
    ensures Leads(s, u) && Served(u, t.pipeline.workers[w].stage.product.item)
  {
    u := WriterDrained(s, t);
    PipelineInvariants.OfferChanges(u.pipeline, w);
    var product := t.pipeline.workers[w].stage.product;
    u := Go(s, u, InPipeline(Pipeline.ByWorker(w, Pipeline.OfferFIE)));
    var line := PipelineInvariants.FIELine(u.pipeline);
    assert line[|line| - 1] == product;
    u := WriterDrained(s, u);
    assert u.pipeline.sent[|line| - 1].item == product.item;
  }

  // ----- directives whose FIE is out -----

  /** A directive that has passed its goroutine, and was not lost, has been served once `fies` is empty. */
  lemma NowhereElse(s: State, x: Pipeline.Item)
    requires Reachable(s) && Undisturbed(s) && x in s.pipeline.accepted && x.instance < |s.pipeline.workers|
    requires s.pipeline.pds == [] && !PipelineInvariants.Carries(s.pipeline.processor)
    requires s.pipeline.fies == [] && PipelineInvariants.InWriter(s.pipeline.writer) == []
    requires !PipelineInvariants.Holds(s.pipeline.workers[x.instance])
    requires forall j :: 0 <= j < |s.pipeline.lost| ==> s.pipeline.lost[j].item != x
    ensures Served(s, x)
  {
    InvariantHolds(s);
    var p := s.pipeline;
    PipelineTheorems.PlacesOf(p, x);
    PipelineInvariants.InvariantHolds(p);
    PipelineTheorems.OrderIsKept(p);
    assert p.accepted[x.instance] == x;
    ReaderHoldsAnother(p, x);
    forall worker | worker in p.workers
      ensures PipelineInvariants.OfWorker(x)(worker) == 0
    {
      var v: nat :| v < |p.workers| && p.workers[v] == worker;
      assert p.workers[v].item.instance == v;
    }
    TotalZero(p.workers, PipelineInvariants.OfWorker(x));
    TotalZero(p.lost, PipelineInvariants.OfLoss(x));
    if !Served(s, x) {
      TotalZero(p.sent, PipelineInvariants.OfProduct(x));
    }
  }

  lemma ReaderHoldsAnother(p: Pipeline.State, x: Pipeline.Item)
    requires Pipeline.Reachable(p) && x.instance < |p.workers| && p.pds == []
    ensures PipelineInvariants.OfReader(x, p.reader) == 0
  {
    PipelineInvariants.InvariantHolds(p);
    var before := PipelineInvariants.Items(p.workers) + PipelineInvariants.InProcessor(p.processor) + p.pds;
    if p.reader.Holding? {
      assert PipelineInvariants.Line(p)[|before|] == p.reader.item;
      assert p.accepted[|before|] == p.reader.item;
    }
  }

  /** A directive that is not hopeless is not lost. */
  lemma HopefulIsNotLost(s: State, x: Pipeline.Item)
    requires Reachable(s) && Undisturbed(s)
    requires Known(s.table, ProbesFor(s, x).near) && Known(s.table, ProbesFor(s, x).far)
    requires !WasTurnedAway(s.table, ProbesFor(s, x).near) && !WasTurnedAway(s.table, ProbesFor(s, x).far)
    ensures forall j :: 0 <= j < |s.pipeline.lost| ==> s.pipeline.lost[j].item != x
  {
    InvariantHolds(s);
    forall j | 0 <= j < |s.pipeline.lost|
      ensures s.pipeline.lost[j].item != x
    {
      assert LossMatches(s.pipeline.ctxDone, s.pipeline.writer.Failing?, s.table, s.probes, s.pipeline.lost[j]);
    }
  }

  // ----- the promise of a FIE -----

  /** From where its goroutine has been started. */
  lemma StartedDirectiveServed(s: State, t: State, x: Pipeline.Item) returns (u: State)
    requires Leads(s, t) && x in t.pipeline.accepted && x.instance < |t.pipeline.workers|
    requires t.pipeline.pds == [] && !PipelineInvariants.Carries(t.pipeline.processor)
    requires t.pipeline.fiesCapacity > 0 && t.table.capacity > 0
    requires Known(t.table, ProbesFor(t, x).near) && Known(t.table, ProbesFor(t, x).far)
    requires !Hopeless(t.table, ProbesFor(t, x))
    ensures Leads(s, u) && Served(u, x)
  {
    InvariantHolds(t);
    InstancesAreGoroutines(t.pipeline, x);
    var w := x.instance;
    match t.pipeline.workers[w].stage
    case Probing(_, _) =>
      u := ProbesDone(s, t, w);
      u := FIEMade(s, u, w);
      u := OfferSent(s, u, w);
    case Offering(_) =>
      PipelineInvariants.InvariantHolds(t.pipeline);
      assert PipelineInvariants.FaithfulWorker(t.pipeline.agentID, t.pipeline.workers[w]);
      u := OfferSent(s, t, w);
    case _ =>
      HopefulIsNotLost(t, x);
      u := WriterDrained(s, t);
      NowhereElse(u, x);
  }

  /**
   * The documentation promises a FIE for every directive. Undisturbed, an accepted directive can still get its FIE
   * exactly when neither of its probes was rejected as a duplicate and, if the prober's writer has stopped, the write
   * queue has room for what its probes need. (The configuration is checked to give every channel a positive capacity.)
   */
  lemma DirectiveCanBeServedIff(s: State, x: Pipeline.Item)
    requires Reachable(s) && Undisturbed(s) && x in s.pipeline.accepted
    requires s.pipeline.pdsCapacity > 0 && s.pipeline.fiesCapacity > 0 && s.table.capacity > 0
    ensures Known(s.table, ProbesFor(s, x).near) && Known(s.table, ProbesFor(s, x).far)
    ensures CanBeServed(s, x) <==> !Hopeless(s.table, ProbesFor(s, x))
  {
    ProbesAreKnown(s, x);
    if Hopeless(s.table, ProbesFor(s, x)) {
      HopelessIsNeverServed(s, x);
    } else {
      LeadsToItself(s);
      var t := DirectiveDispatched(s, s, x);
      var u := StartedDirectiveServed(s, t, x);
    }
  }

  /**
   * A run, undisturbed and with no two calls of one key, after which a directive can neither be dropped nor served: its
   * near probe has the last place in the queue, the writer has stopped, and its far probe waits.
   */
  lemma StuckDirectiveRun() returns (s: State, x: Pipeline.Item)
    ensures Reachable(s) && Undisturbed(s) && Apart(s.table, 1)
    ensures s.pipeline.accepted == [x] && s.pipeline.lost == [] && !CanBeServed(s, x)
  {
    s := SessionTheorems.StuckProbeRun();
    x := s.pipeline.accepted[0];
    InvariantHolds(s);
    PipelineInvariants.InvariantHolds(s.pipeline);
    HopelessIsNeverServed(s, x);
  }
}
