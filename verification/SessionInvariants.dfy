// What every event of a session keeps: which call belongs to which goroutine, and that what a goroutine holds, has
// offered or has dropped is what its own two calls returned.
module SessionInvariants {
  import opened Wrappers
  import opened ForwardingInfo
  import opened FIEProvenance
  import opened Session
  import Pipeline
  import PipelineInvariants
  import PipelineTheorems
  import ProbeTable
  import ProbeTableInvariants

  // ----- what the table does to a call -----

  /** Calls keep their arguments, and a call that has returned stays as it is. */
  ghost predicate Frozen(before: seq<ProbeTable.Call>, after: seq<ProbeTable.Call>) {
    && |before| <= |after|
    && forall c :: 0 <= c < |before| ==>
         && after[c].pd == before[c].pd && after[c].ttl == before[c].ttl && after[c].queued == before[c].queued
         && (before[c].phase.Returned? ==> after[c].phase == before[c].phase)
  }

  predicate WasCancelled(call: ProbeTable.Call) {
    match call.phase
    case Leaving(outcome) => outcome.Cancelled?
    case Discounting(outcome) => outcome.Cancelled?
    case Returned(outcome) => outcome.Cancelled?
    case _ => false
  }

  lemma TableStepFreezes(t: ProbeTable.State, e: ProbeTable.Event)
    requires ProbeTable.Enabled(t, e)
    ensures Frozen(t.calls, ProbeTable.Step(t, e).calls)
    ensures !e.Arrive? ==> |ProbeTable.Step(t, e).calls| == |t.calls|
  {
    match e
    case ByCaller(c, a) => ProbeTableInvariants.CallerChangesItsCall(t, c, a);
    case ByReader(a) => ProbeTableInvariants.ReaderLeavesTheTable(t, a);
    case _ =>
  }

  /** Only the ctx.Done() case of a select cancels a call. */
  lemma TableStepCancels(t: ProbeTable.State, e: ProbeTable.Event, c: nat)
    requires ProbeTable.Enabled(t, e) && !IsCancellation(e)
    requires c < |ProbeTable.Step(t, e).calls| && WasCancelled(ProbeTable.Step(t, e).calls[c])
    ensures c < |t.calls| && WasCancelled(t.calls[c])
  {
    match e
    case ByCaller(d, a) => ProbeTableInvariants.CallerChangesItsCall(t, d, a);
    case ByReader(a) => ProbeTableInvariants.ReaderLeavesTheTable(t, a);
    case _ =>
  }

  // ----- what the pipeline does by itself -----

  /** The context stays done, and a failed write cancels it. */
  ghost predicate ContextKept(p: Pipeline.State, q: Pipeline.State) {
    && q.offered == p.offered
    && (p.ctxDone ==> q.ctxDone)
    && (p.writer.Failing? ==> q.writer.Failing? || q.ctxDone)
  }

  /** One directive is dropped, for good reason. */
  ghost predicate Dropped(p: Pipeline.State, q: Pipeline.State, l: Pipeline.Loss) {
    && q.lost == p.lost + [l]
    && match l.reason {
         case ReaderCancelled => q.ctxDone
         case WriteFailed => q.writer.Failing?
         case _ => false
       }
  }

  /** A step of the reader, the processor, the writer or the context. */
  ghost predicate OtherStep(p: Pipeline.State, q: Pipeline.State) {
    ContextKept(p, q) && (q.lost == p.lost || exists l :: Dropped(p, q, l))
  }

  lemma ReaderSteps(p: Pipeline.State, a: Pipeline.ReaderAction)
    requires Pipeline.ReaderEnabled(p, a)
    ensures OtherStep(p, Pipeline.ReaderStep(p, a))
    ensures Pipeline.ReaderStep(p, a).workers == p.workers
  {
    if a.GiveUpPD? {
      assert Dropped(p, Pipeline.ReaderStep(p, a), Pipeline.Loss(p.reader.item, ReaderCancelled));
    }
  }

  lemma WriterSteps(p: Pipeline.State, a: Pipeline.WriterAction)
    requires Pipeline.WriterEnabled(p, a)
    ensures OtherStep(p, Pipeline.WriterStep(p, a))
    ensures Pipeline.WriterStep(p, a).workers == p.workers
  {
    if a.FailSend? {
      assert Dropped(p, Pipeline.WriterStep(p, a), Pipeline.Loss(p.writer.product.item, WriteFailed));
    }
  }

  lemma ProcessorSteps(p: Pipeline.State, a: Pipeline.ProcessorAction)
    requires Pipeline.ProcessorEnabled(p, a)
    ensures OtherStep(p, Pipeline.ProcessorStep(p, a))
    ensures Pipeline.ProcessorStep(p, a).workers ==
      if a.Dispatch? then p.workers + [Pipeline.Worker(p.processor.item, Pipeline.Probing(None, None))] else p.workers
  {
  }

  lemma OtherStepsAre(p: Pipeline.State, e: Pipeline.Event)
    requires Pipeline.Enabled(p, e) && !e.ByWorker?
    ensures OtherStep(p, Pipeline.Step(p, e))
    ensures Pipeline.Step(p, e).workers ==
      if e.ByProcessor? && e.p.Dispatch?
      then p.workers + [Pipeline.Worker(p.processor.item, Pipeline.Probing(None, None))] else p.workers
  {
    match e
    case ByReader(a) => ReaderSteps(p, a);
    case ByProcessor(a) => ProcessorSteps(p, a);
    case ByWriter(a) => WriterSteps(p, a);
    case _ =>
  }

  // ----- calls and goroutines -----

  /** Call `c` was made by its owner, with the directive and the TTL of that probe. */
  predicate OwnerMatches(s: State, c: nat)
    requires c < |s.owners| == |s.table.calls| && |s.probes| == |s.pipeline.workers|
  {
    var Party(w, far) := s.owners[c];
    && w < |s.probes|
    && CallOf(s.probes[w], far) == Some(c)
    && s.table.calls[c].pd == s.pipeline.workers[w].item.pd
    && s.table.calls[c].ttl == TTLOf(s.table.calls[c].pd, far)
  }

  predicate ProbeMatches(owners: seq<Party>, p: Probes, w: nat, far: bool) {
    CallOf(p, far).Some? ==> CallOf(p, far).value < |owners| && owners[CallOf(p, far).value] == Party(w, far)
  }

  /** Every call belongs to one probe of one goroutine, and no two probes share a call. */
  ghost predicate OwnersMatch(s: State) {
    && |s.owners| == |s.table.calls| && |s.probes| == |s.pipeline.workers|
    && (forall c: nat :: c < |s.owners| ==> OwnerMatches(s, c))
    && (forall w: nat, far: bool :: w < |s.probes| ==> ProbeMatches(s.owners, s.probes[w], w, far))
  }

  /** Goroutines keep their directives. */
  ghost predicate SameItems(before: seq<Pipeline.Worker>, after: seq<Pipeline.Worker>) {
    |before| <= |after| && forall w :: 0 <= w < |before| ==> after[w].item == before[w].item
  }

  /** Probes of other goroutines may start, and this one's that had not. */
  ghost predicate ProbesGrow(before: seq<Probes>, after: seq<Probes>) {
    && |before| <= |after|
    && forall w :: 0 <= w < |before| ==>
         (before[w].near.Some? ==> after[w].near == before[w].near)
         && (before[w].far.Some? ==> after[w].far == before[w].far)
  }

  lemma PipelineStepKeepsItems(p: Pipeline.State, e: Pipeline.Event)
    requires Pipeline.Enabled(p, e)
    ensures SameItems(p.workers, Pipeline.Step(p, e).workers)
    ensures var t := Pipeline.Step(p, e);
      |t.workers| == |p.workers| + (if e.ByProcessor? && e.p.Dispatch? then 1 else 0)
  {
    if !e.ByWorker? {
      OtherStepsAre(p, e);
    }
  }

  lemma OwnerStays(s: State, t: State, c: nat)
    requires OwnersMatch(s) && c < |s.owners| <= |t.owners| == |t.table.calls| && |t.probes| == |t.pipeline.workers|
    requires t.owners[c] == s.owners[c]
    requires SameItems(s.pipeline.workers, t.pipeline.workers) && Frozen(s.table.calls, t.table.calls)
    requires ProbesGrow(s.probes, t.probes)
    ensures OwnerMatches(t, c)
  {
    assert OwnerMatches(s, c);
    var w := s.owners[c].w;
    assert t.pipeline.workers[w].item == s.pipeline.workers[w].item;
    assert CallOf(t.probes[w], s.owners[c].far) == Some(c);
  }

  lemma PipelineKeepsOwners(s: State, p: Pipeline.Event)
    requires OwnersMatch(s) && Enabled(s, InPipeline(p))
    ensures OwnersMatch(Step(s, InPipeline(p)))
  {
    var t := Step(s, InPipeline(p));
    PipelineStepKeepsItems(s.pipeline, p);
    forall c: nat | c < |t.owners|
      ensures OwnerMatches(t, c)
    {
      OwnerStays(s, t, c);
    }
    forall w: nat, far: bool | w < |t.probes|
      ensures ProbeMatches(t.owners, t.probes[w], w, far)
    {
      assert w < |s.probes| ==> ProbeMatches(s.owners, s.probes[w], w, far);
    }
  }

  lemma TableKeepsOwners(s: State, e: ProbeTable.Event)
    requires OwnersMatch(s) && Enabled(s, InTable(e))
    ensures OwnersMatch(Step(s, InTable(e)))
  {
    var t := Step(s, InTable(e));
    TableStepFreezes(s.table, e);
    forall c: nat | c < |t.owners|
      ensures OwnerMatches(t, c)
    {
      OwnerStays(s, t, c);
    }
  }

  lemma StartKeepsOwners(s: State, w: nat, far: bool)
    requires OwnersMatch(s) && CanStart(s, w, far)
    ensures OwnersMatch(Step(s, StartProbe(w, far)))
  {
    var t := Step(s, StartProbe(w, far));
    TableStepFreezes(s.table, ArriveEvent(s, w, far));
    forall c: nat | c < |t.owners|
      ensures OwnerMatches(t, c)
    {
      if c < |s.owners| {
        OwnerStays(s, t, c);
      }
    }
    forall v: nat, f: bool | v < |t.probes|
      ensures ProbeMatches(t.owners, t.probes[v], v, f)
    {
      assert ProbeMatches(s.owners, s.probes[v], v, f);
    }
  }

  lemma ReturnKeepsOwners(s: State, w: nat, far: bool)
    requires OwnersMatch(s) && CanReturn(s, w, far)
    ensures OwnersMatch(Step(s, ProbeReturns(w, far)))
  {
    var t := Step(s, ProbeReturns(w, far));
    PipelineStepKeepsItems(s.pipeline, ReturnEvent(s, w, far));
    forall c: nat | c < |t.owners|
      ensures OwnerMatches(t, c)
    {
      OwnerStays(s, t, c);
    }
  }

  lemma StepKeepsOwners(s: State, e: Event)
    requires OwnersMatch(s) && Enabled(s, e)
    ensures OwnersMatch(Step(s, e))
  {
    match e
    case InPipeline(p) => PipelineKeepsOwners(s, p);
    case InTable(t) => TableKeepsOwners(s, t);
    case StartProbe(w, far) => StartKeepsOwners(s, w, far);
    case ProbeReturns(w, far) => ReturnKeepsOwners(s, w, far);
  }

  // ----- results -----

  /** The call behind this probe has returned, and returned `r`. */
  predicate Got(t: ProbeTable.State, call: Option<nat>, r: ProbeReturn) {
    call.Some? && HasReturned(t, call.value) && r == ReturnOf(t, call.value)
  }

  predicate BothReturned(t: ProbeTable.State, p: Probes) {
    p.near.Some? && p.far.Some? && HasReturned(t, p.near.value) && HasReturned(t, p.far.value)
  }

  /** A goroutine knows of its probes what their calls returned; past the probing stage both have. */
  predicate StageMatches(t: ProbeTable.State, stage: Pipeline.WorkerStage, p: Probes) {
    match stage
    case Probing(near, far) => (near.Some? ==> Got(t, p.near, near.value)) && (far.Some? ==> Got(t, p.far, far.value))
    case Offering(product) => Got(t, p.near, product.near) && Got(t, p.far, product.far)
    case _ => BothReturned(t, p)
  }

  /** The goroutine of instance i has index i, so a FIE leads back to the calls it was made from. */
  predicate ProductMatches(t: ProbeTable.State, probes: seq<Probes>, product: Pipeline.Product) {
    && product.item.instance < |probes|
    && Got(t, probes[product.item.instance].near, product.near)
    && Got(t, probes[product.item.instance].far, product.far)
  }

  predicate WasRejected(t: ProbeTable.State, c: nat) {
    HasReturned(t, c) && t.calls[c].Rejected()
  }

  /** Why a directive was dropped: its context, a duplicate among its own two probes, or a failed write. */
  predicate LossMatches(ctxDone: bool, failing: bool, t: ProbeTable.State, probes: seq<Probes>, l: Pipeline.Loss) {
    match l.reason
    case DuplicateProbe =>
      && l.item.instance < |probes|
      && var p := probes[l.item.instance];
         BothReturned(t, p) && (WasRejected(t, p.near.value) || WasRejected(t, p.far.value))
    case MissingResult => false
    case WriteFailed => ctxDone || failing
    case _ => ctxDone
  }

  ghost predicate StagesMatch(s: State) {
    && |s.probes| == |s.pipeline.workers|
    && forall w :: 0 <= w < |s.probes| ==> StageMatches(s.table, s.pipeline.workers[w].stage, s.probes[w])
  }

  ghost predicate ProductsMatch(s: State) {
    forall i :: 0 <= i < |s.pipeline.offered| ==> ProductMatches(s.table, s.probes, s.pipeline.offered[i])
  }

  ghost predicate LossesMatch(s: State) {
    forall i :: 0 <= i < |s.pipeline.lost| ==>
      LossMatches(s.pipeline.ctxDone, s.pipeline.writer.Failing?, s.table, s.probes, s.pipeline.lost[i])
  }

  ghost predicate CancelledWhenDone(s: State) {
    forall c :: 0 <= c < |s.table.calls| && WasCancelled(s.table.calls[c]) ==> s.pipeline.ctxDone
  }

  ghost predicate ResultsMatch(s: State) {
    StagesMatch(s) && ProductsMatch(s) && LossesMatch(s) && CancelledWhenDone(s)
  }

  // What is known of a returned call stays known.

  lemma GotStays(t: ProbeTable.State, u: ProbeTable.State, call: Option<nat>, r: ProbeReturn)
    requires Frozen(t.calls, u.calls) && Got(t, call, r)
    ensures Got(u, call, r)
  {
  }

  lemma BothReturnedStays(t: ProbeTable.State, u: ProbeTable.State, p: Probes)
    requires Frozen(t.calls, u.calls) && BothReturned(t, p)
    ensures BothReturned(u, p)
    ensures WasRejected(t, p.near.value) ==> WasRejected(u, p.near.value)
    ensures WasRejected(t, p.far.value) ==> WasRejected(u, p.far.value)
  {
  }

  lemma StageStays(t: ProbeTable.State, u: ProbeTable.State, stage: Pipeline.WorkerStage, p: Probes)
    requires Frozen(t.calls, u.calls) && StageMatches(t, stage, p)
    ensures StageMatches(u, stage, p)
  {
    match stage
    case Probing(near, far) =>
      if near.Some? { GotStays(t, u, p.near, near.value); }
      if far.Some? { GotStays(t, u, p.far, far.value); }
    case Offering(product) =>
      GotStays(t, u, p.near, product.near);
      GotStays(t, u, p.far, product.far);
    case _ => BothReturnedStays(t, u, p);
  }

  lemma ProductsStay(s: State, u: State)
    requires ProductsMatch(s) && Frozen(s.table.calls, u.table.calls) && ProbesGrow(s.probes, u.probes)
    requires u.pipeline.offered == s.pipeline.offered
    ensures ProductsMatch(u)
  {
    forall i | 0 <= i < |u.pipeline.offered|
      ensures ProductMatches(u.table, u.probes, u.pipeline.offered[i])
    {
      var product := s.pipeline.offered[i];
      assert ProductMatches(s.table, s.probes, product);
      GotStays(s.table, u.table, s.probes[product.item.instance].near, product.near);
      GotStays(s.table, u.table, s.probes[product.item.instance].far, product.far);
    }
  }

  lemma LossStays(s: State, u: State, l: Pipeline.Loss)
    requires LossMatches(s.pipeline.ctxDone, s.pipeline.writer.Failing?, s.table, s.probes, l)
    requires Frozen(s.table.calls, u.table.calls) && ProbesGrow(s.probes, u.probes)
    requires s.pipeline.ctxDone ==> u.pipeline.ctxDone
    requires s.pipeline.writer.Failing? ==> u.pipeline.writer.Failing? || u.pipeline.ctxDone
    ensures LossMatches(u.pipeline.ctxDone, u.pipeline.writer.Failing?, u.table, u.probes, l)
  {
    if l.reason.DuplicateProbe? {
      BothReturnedStays(s.table, u.table, s.probes[l.item.instance]);
    }
  }

  lemma LossesStay(s: State, u: State)
    requires LossesMatch(s) && Frozen(s.table.calls, u.table.calls) && ProbesGrow(s.probes, u.probes)
    requires s.pipeline.ctxDone ==> u.pipeline.ctxDone
    requires s.pipeline.writer.Failing? ==> u.pipeline.writer.Failing? || u.pipeline.ctxDone
    requires u.pipeline.lost == s.pipeline.lost
    ensures LossesMatch(u)
  {
    forall i | 0 <= i < |u.pipeline.lost|
      ensures LossMatches(u.pipeline.ctxDone, u.pipeline.writer.Failing?, u.table, u.probes, u.pipeline.lost[i])
    {
      LossStays(s, u, s.pipeline.lost[i]);
    }
  }

  lemma FrozenRefl(calls: seq<ProbeTable.Call>)
    ensures Frozen(calls, calls)
  {
  }

  /** A step of the table. */
  lemma TableKeepsResults(s: State, e: ProbeTable.Event)
    requires ResultsMatch(s) && Enabled(s, InTable(e))
    ensures ResultsMatch(Step(s, InTable(e)))
  {
    var u := Step(s, InTable(e));
    TableStepFreezes(s.table, e);
    forall w | 0 <= w < |u.probes|
      ensures StageMatches(u.table, u.pipeline.workers[w].stage, u.probes[w])
    {
      StageStays(s.table, u.table, s.pipeline.workers[w].stage, s.probes[w]);
    }
    ProductsStay(s, u);
    LossesStay(s, u);
    forall c | 0 <= c < |u.table.calls| && WasCancelled(u.table.calls[c])
      ensures u.pipeline.ctxDone
    {
      if !IsCancellation(e) {
        TableStepCancels(s.table, e, c);
      }
    }
  }

  /** A goroutine calls Probe. */
  lemma StartKeepsResults(s: State, w: nat, far: bool)
    requires ResultsMatch(s) && CanStart(s, w, far)
    ensures ResultsMatch(Step(s, StartProbe(w, far)))
  {
    var u := Step(s, StartProbe(w, far));
    TableStepFreezes(s.table, ArriveEvent(s, w, far));
    forall v | 0 <= v < |u.probes|
      ensures StageMatches(u.table, u.pipeline.workers[v].stage, u.probes[v])
    {
      assert StageMatches(s.table, s.pipeline.workers[v].stage, s.probes[v]);
      StageStays(s.table, u.table, s.pipeline.workers[v].stage, s.probes[v]);
    }
    ProductsStay(s, u);
    LossesStay(s, u);
  }

  /** And gets its result. */
  lemma ReturnKeepsResults(s: State, w: nat, far: bool)
    requires ResultsMatch(s) && CanReturn(s, w, far)
    ensures ResultsMatch(Step(s, ProbeReturns(w, far)))
  {
    var u := Step(s, ProbeReturns(w, far));
    var a := ReturnAction(far, ReturnOf(s.table, CallOf(s.probes[w], far).value));
    FrozenRefl(s.table.calls);
    assert s.pipeline.offered + [] == s.pipeline.offered && s.pipeline.lost + [] == s.pipeline.lost;
    forall v | 0 <= v < |u.probes|
      ensures StageMatches(u.table, u.pipeline.workers[v].stage, u.probes[v])
    {
      assert StageMatches(s.table, s.pipeline.workers[v].stage, s.probes[v]);
    }
    ProductsStay(s, u);
    LossesStay(s, u);
  }

  // ----- the steps of the pipeline -----

  /** What the proof needs to know of the pipeline by itself. */
  ghost predicate InstancesMatch(p: Pipeline.State) {
    && (forall w: nat :: w < |p.workers| ==> p.workers[w].item.instance == w)
    && (forall w: nat :: w < |p.workers| ==> PipelineInvariants.FaithfulWorker(p.agentID, p.workers[w]))
  }

  lemma InstancesAlwaysMatch(p: Pipeline.State)
    requires Pipeline.Reachable(p)
    ensures InstancesMatch(p)
  {
    PipelineTheorems.OrderIsKept(p);
    PipelineInvariants.InvariantHolds(p);
  }

  /** Two returns that make processPD drop the directive are a duplicate or a cancellation. */
  lemma DropsMatch(s: State, w: nat)
    requires StagesMatch(s) && CancelledWhenDone(s) && w < |s.pipeline.workers|
    requires s.pipeline.workers[w].item.instance == w
    requires Pipeline.StageAllows(s.pipeline.workers[w].stage, Pipeline.WorkerAction.Conclude)
    requires Pipeline.ConclusionOf(s.pipeline.agentID, s.pipeline.workers[w]).Drop?
    ensures BothReturned(s.table, s.probes[w])
    ensures LossMatches(s.pipeline.ctxDone, s.pipeline.writer.Failing?, s.table, s.probes,
      Pipeline.Loss(s.pipeline.workers[w].item,
        Pipeline.ConclusionOf(s.pipeline.agentID, s.pipeline.workers[w]).reason))
  {
    var worker, p := s.pipeline.workers[w], s.probes[w];
    assert StageMatches(s.table, worker.stage, p);
    var near, far := s.table.calls[p.near.value], s.table.calls[p.far.value];
    assert WasCancelled(near) || WasCancelled(far) ==> s.pipeline.ctxDone;
  }

  /** The step of one goroutine. */
  lemma WorkerStageMatches(s: State, w: nat, a: Pipeline.WorkerAction)
    requires StagesMatch(s) && w < |s.pipeline.workers| && Pipeline.StageAllows(s.pipeline.workers[w].stage, a)
    requires !a.NearReturns? && !a.FarReturns?
    ensures StageMatches(s.table, Pipeline.NextStage(s.pipeline.agentID, s.pipeline.workers[w], a), s.probes[w])
  {
    assert StageMatches(s.table, s.pipeline.workers[w].stage, s.probes[w]);
  }

  lemma EmittedMatches(s: State, w: nat, a: Pipeline.WorkerAction)
    requires StagesMatch(s) && InstancesMatch(s.pipeline)
    requires w < |s.pipeline.workers| && Pipeline.StageAllows(s.pipeline.workers[w].stage, a)
    ensures forall product :: product in Pipeline.Emitted(s.pipeline.workers[w], a) ==>
      ProductMatches(s.table, s.probes, product)
  {
    assert StageMatches(s.table, s.pipeline.workers[w].stage, s.probes[w]);
    assert PipelineInvariants.FaithfulWorker(s.pipeline.agentID, s.pipeline.workers[w]);
  }

  lemma LostMatches(s: State, w: nat, a: Pipeline.WorkerAction)
    requires StagesMatch(s) && CancelledWhenDone(s) && InstancesMatch(s.pipeline)
    requires Pipeline.WorkerEnabled(s.pipeline, w, a)
    ensures forall l :: l in Pipeline.LostBy(s.pipeline.agentID, s.pipeline.workers[w], a) ==>
      LossMatches(s.pipeline.ctxDone, s.pipeline.writer.Failing?, s.table, s.probes, l)
  {
    if a.Conclude? && Pipeline.ConclusionOf(s.pipeline.agentID, s.pipeline.workers[w]).Drop? {
      DropsMatch(s, w);
    }
  }

  lemma WorkerKeepsResults(s: State, w: nat, a: Pipeline.WorkerAction)
    requires ResultsMatch(s) && InstancesMatch(s.pipeline) && Enabled(s, InPipeline(Pipeline.ByWorker(w, a)))
    ensures ResultsMatch(Step(s, InPipeline(Pipeline.ByWorker(w, a))))
  {
    var u := Step(s, InPipeline(Pipeline.ByWorker(w, a)));
    WorkerStageMatches(s, w, a);
    EmittedMatches(s, w, a);
    LostMatches(s, w, a);
    forall v | 0 <= v < |u.probes|
      ensures StageMatches(u.table, u.pipeline.workers[v].stage, u.probes[v])
    {
      assert StageMatches(s.table, s.pipeline.workers[v].stage, s.probes[v]);
    }
    forall i | 0 <= i < |u.pipeline.offered|
      ensures ProductMatches(u.table, u.probes, u.pipeline.offered[i])
    {
      assert i < |s.pipeline.offered| ==> u.pipeline.offered[i] == s.pipeline.offered[i];
    }
    forall i | 0 <= i < |u.pipeline.lost|
      ensures LossMatches(u.pipeline.ctxDone, u.pipeline.writer.Failing?, u.table, u.probes, u.pipeline.lost[i])
    {
      assert i < |s.pipeline.lost| ==> u.pipeline.lost[i] == s.pipeline.lost[i];
    }
  }

  lemma OthersKeepLosses(s: State, u: State)
    requires LossesMatch(s) && OtherStep(s.pipeline, u.pipeline) && u.table == s.table && ProbesGrow(s.probes, u.probes)
    ensures LossesMatch(u)
  {
    FrozenRefl(s.table.calls);
    forall i | 0 <= i < |u.pipeline.lost|
      ensures LossMatches(u.pipeline.ctxDone, u.pipeline.writer.Failing?, u.table, u.probes, u.pipeline.lost[i])
    {
      if i < |s.pipeline.lost| {
        assert u.pipeline.lost[i] == s.pipeline.lost[i];
        LossStays(s, u, s.pipeline.lost[i]);
      } else {
        var l :| Dropped(s.pipeline, u.pipeline, l);
        assert u.pipeline.lost[i] == l;
      }
    }
  }

  lemma OthersKeepResults(s: State, p: Pipeline.Event)
    requires ResultsMatch(s) && Enabled(s, InPipeline(p)) && !p.ByWorker?
    ensures ResultsMatch(Step(s, InPipeline(p)))
  {
    var u := Step(s, InPipeline(p));
    FrozenRefl(s.table.calls);
    OtherStepsAre(s.pipeline, p);
    OthersKeepLosses(s, u);
    ProductsStay(s, u);
    forall v | 0 <= v < |u.probes|
      ensures StageMatches(u.table, u.pipeline.workers[v].stage, u.probes[v])
    {
      assert v < |s.probes| ==> StageMatches(s.table, s.pipeline.workers[v].stage, s.probes[v]);
    }
  }

  lemma StepKeepsResults(s: State, e: Event)
    requires ResultsMatch(s) && InstancesMatch(s.pipeline) && Enabled(s, e)
    ensures ResultsMatch(Step(s, e))
  {
    match e
    case InPipeline(p) =>
      match p {
        case ByWorker(w, a) => WorkerKeepsResults(s, w, a);
        case _ => OthersKeepResults(s, p);
      }
    case InTable(t) => TableKeepsResults(s, t);
    case StartProbe(w, far) => StartKeepsResults(s, w, far);
    case ProbeReturns(w, far) => ReturnKeepsResults(s, w, far);
  }

  // ----- every run -----

  ghost predicate Invariant(s: State) {
    Parts(s) && OwnersMatch(s) && ResultsMatch(s)
  }

  lemma StepKeepsInvariant(s: State, e: Event)
    requires Invariant(s) && Enabled(s, e)
    ensures Invariant(Step(s, e))
  {
    StepKeepsParts(s, e);
    StepKeepsOwners(s, e);
    InstancesAlwaysMatch(s.pipeline);
    StepKeepsResults(s, e);
  }

  lemma {:induction false} RunKeepsInvariant(s: State, events: seq<Event>)
    requires Invariant(s) && Feasible(s, events)
    ensures Invariant(After(s, events))
    decreases |events|
  {
    if events != [] {
      StepKeepsInvariant(s, events[0]);
      RunKeepsInvariant(Step(s, events[0]), events[1..]);
    }
  }

  lemma InvariantInitially(c: Settings)
    requires c.timeout > 0
    ensures Invariant(Start(c))
  {
    Pipeline.InitiallyReachable(c.agentID, c.pdsCapacity, c.fiesCapacity);
    ProbeTable.InitiallyReachable(c.timeout, c.queueCapacity, c.start);
  }

  lemma InvariantHolds(s: State)
    requires Reachable(s)
    ensures Invariant(s)
  {
    var c: Settings, events: seq<Event> :|
      c.timeout > 0 && Feasible(Start(c), events) && s == After(Start(c), events);
    InvariantInitially(c);
    RunKeepsInvariant(Start(c), events);
  }
}
