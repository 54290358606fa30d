// One run of the agent as a whole: the pipeline of its connection over the probe table of its prober. A directive's
// goroutine makes two calls of Probe, sees only what they return, and they are cancelled by the pipeline's context.
module Session {
  import opened Wrappers
  import opened GoNumbers
  import opened Directives
  import opened ForwardingInfo
  import opened FIEProvenance
  import Pipeline
  import ProbeTable

  /** The calls a goroutine has made, by their index in the table. */
  datatype Probes = Probes(near: Option<nat>, far: Option<nat>)

  /** The goroutine a call belongs to, and which of its two probes it is. */
  datatype Party = Party(w: nat, far: bool)

  datatype State = State(
    pipeline: Pipeline.State,
    table: ProbeTable.State,
    probes: seq<Probes>,    // one for each goroutine
    owners: seq<Party>)     // one for each call, as history

  function Initial(agentID: string, pdsCapacity: nat, fiesCapacity: nat, timeout: int, queueCapacity: nat, start: int):
    State
  {
    State(Pipeline.Initial(agentID, pdsCapacity, fiesCapacity), ProbeTable.Initial(timeout, queueCapacity, start),
      [], [])
  }

  function CallOf(p: Probes, far: bool): Option<nat> {
    if far then p.far else p.near
  }

  function WithCall(p: Probes, far: bool, c: nat): Probes {
    if far then p.(far := Some(c)) else p.(near := Some(c))
  }

  function TTLOf(pd: Directive, far: bool): uint8 {
    if far then FarTTL(pd) else pd.nearTTL
  }

  function ReturnAction(far: bool, r: ProbeReturn): Pipeline.WorkerAction {
    if far then Pipeline.FarReturns(r) else Pipeline.NearReturns(r)
  }

  // ----- events -----

  datatype Event =
    | InPipeline(p: Pipeline.Event)           // anything but the return of a probe
    | InTable(t: ProbeTable.Event)            // anything but the call of Probe
    | StartProbe(w: nat, far: bool)           // a goroutine calls Probe
    | ProbeReturns(w: nat, far: bool)         // and gets its result

  predicate IsReturn(e: Pipeline.Event) {
    e.ByWorker? && (e.a.NearReturns? || e.a.FarReturns?)
  }

  /** A select takes its ctx.Done() case. */
  predicate IsCancellation(e: ProbeTable.Event) {
    e.ByCaller? && (e.caller.AbandonQueue? || e.caller.AbandonWait?)
  }

  predicate CanStart(s: State, w: nat, far: bool) {
    w < |s.probes| && w < |s.pipeline.workers| && CallOf(s.probes[w], far).None?
  }

  predicate CanReturn(s: State, w: nat, far: bool) {
    && w < |s.probes|
    && var c := CallOf(s.probes[w], far);
       && c.Some? && HasReturned(s.table, c.value)
       && Pipeline.WorkerEnabled(s.pipeline, w, ReturnAction(far, ReturnOf(s.table, c.value)))
  }

  predicate Enabled(s: State, e: Event) {
    match e
    case InPipeline(p) => Pipeline.Enabled(s.pipeline, p) && !IsReturn(p)
    case InTable(t) => ProbeTable.Enabled(s.table, t) && !t.Arrive? && (IsCancellation(t) ==> s.pipeline.ctxDone)
    case StartProbe(w, far) => CanStart(s, w, far)
    case ProbeReturns(w, far) => CanReturn(s, w, far)
  }

  function ReturnEvent(s: State, w: nat, far: bool): Pipeline.Event
    requires CanReturn(s, w, far)
  {
    Pipeline.ByWorker(w, ReturnAction(far, ReturnOf(s.table, CallOf(s.probes[w], far).value)))
  }

  function ArriveEvent(s: State, w: nat, far: bool): ProbeTable.Event
    requires CanStart(s, w, far)
  {
    var pd := s.pipeline.workers[w].item.pd;
    ProbeTable.Arrive(pd, TTLOf(pd, far))
  }

  function Step(s: State, e: Event): State
    requires Enabled(s, e)
  {
    match e
    case InPipeline(p) =>
      s.(pipeline := Pipeline.Step(s.pipeline, p),
         probes := if p.ByProcessor? && p.p.Dispatch? then s.probes + [Probes(None, None)] else s.probes)
    case InTable(t) => s.(table := ProbeTable.Step(s.table, t))
    case StartProbe(w, far) =>
      s.(table := ProbeTable.Step(s.table, ArriveEvent(s, w, far)),
         probes := s.probes[w := WithCall(s.probes[w], far, |s.table.calls|)],
         owners := s.owners + [Party(w, far)])
    case ProbeReturns(w, far) => s.(pipeline := Pipeline.Step(s.pipeline, ReturnEvent(s, w, far)))
  }

  // ----- runs -----

  predicate Feasible(s: State, events: seq<Event>)
    decreases |events|
  {
    events == [] || (Enabled(s, events[0]) && Feasible(Step(s, events[0]), events[1..]))
  }

  function After(s: State, events: seq<Event>): State
    requires Feasible(s, events)
    decreases |events|
  {
    if events == [] then s else After(Step(s, events[0]), events[1..])
  }

  lemma {:induction false} RunSnoc(s: State, events: seq<Event>, e: Event)
    requires Feasible(s, events) && Enabled(After(s, events), e)
    ensures Feasible(s, events + [e]) && After(s, events + [e]) == Step(After(s, events), e)
    decreases |events|
  {
    if events == [] {
      assert (events + [e])[1..] == [];
    } else {
      RunSnoc(Step(s, events[0]), events[1..], e);
      assert (events + [e])[1..] == events[1..] + [e];
    }
  }

  datatype Settings = Settings(
    agentID: string, pdsCapacity: nat, fiesCapacity: nat, timeout: int, queueCapacity: nat, start: int)

  function Start(c: Settings): State {
    Initial(c.agentID, c.pdsCapacity, c.fiesCapacity, c.timeout, c.queueCapacity, c.start)
  }

  ghost predicate Reachable(s: State) {
    exists c: Settings, events: seq<Event> ::
      c.timeout > 0 && Feasible(Start(c), events) && s == After(Start(c), events)
  }

  lemma InitiallyReachable(c: Settings)
    requires c.timeout > 0
    ensures Reachable(Start(c))
  {
    assert Feasible(Start(c), []);
    assert After(Start(c), []) == Start(c);
  }

  lemma ReachableStep(s: State, e: Event)
    requires Reachable(s) && Enabled(s, e)
    ensures Reachable(Step(s, e))
  {
    var c: Settings, events: seq<Event> :|
      c.timeout > 0 && Feasible(Start(c), events) && s == After(Start(c), events);
    RunSnoc(Start(c), events, e);
    assert Feasible(Start(c), events + [e]);
  }

  // ----- its two machines -----

  /** What happens in a session is a run of the pipeline beside a run of the table. */
  ghost predicate Parts(s: State) {
    Pipeline.Reachable(s.pipeline) && ProbeTable.Reachable(s.table)
  }

  lemma StepKeepsParts(s: State, e: Event)
    requires Parts(s) && Enabled(s, e)
    ensures Parts(Step(s, e))
  {
    match e
    case InPipeline(p) => Pipeline.ReachableStep(s.pipeline, p);
    case InTable(t) => ProbeTable.ReachableStep(s.table, t);
    case StartProbe(w, far) => ProbeTable.ReachableStep(s.table, ArriveEvent(s, w, far));
    case ProbeReturns(w, far) => Pipeline.ReachableStep(s.pipeline, ReturnEvent(s, w, far));
  }
}
