// The pipeline of one connection as a state machine: reader, processor, one goroutine for each directive, and
// writer, over two bounded channels, with one event for each atomic action (a channel operation, a close, the
// update of an atomic counter, the return of a call) in every interleaving.
module Pipeline {
  import opened Wrappers
  import opened Directives
  import opened ForwardingInfo

  /** An accepted directive. Instances number them in order of acceptance. */
  datatype Item = Item(instance: nat, pd: Directive)

  /** A FIE, with the directive it was made for and what its two probes returned as history. */
  datatype Product = Product(item: Item, near: ProbeReturn, far: ProbeReturn, fie: ForwardingInfoElement)

  datatype Loss = Loss(item: Item, reason: DropReason)

  datatype ReaderStage =
    | Receiving            // in framing.Receive
    | Holding(item: Item)  // at the select that forwards a directive
    | Counting             // sent, pdsDepth not yet incremented
    | Closing              // returning an error, deferred close pending
    | Returning            // `pds` closed, group not yet cancelled
    | ReaderFinished

  datatype ProcessorStage =
    | Selecting
    | Taken(item: Item)        // received, pdsDepth not yet decremented
    | Dispatching(item: Item)  // about to increment PDGoroutines
    | Starting(item: Item)     // about to start the directive's goroutine
    | Draining                 // in wg.Wait
    | ProcessorFinished

  datatype WorkerStage =
    | Probing(near: Option<ProbeReturn>, far: Option<ProbeReturn>)
    | Offering(product: Product)  // at the select that forwards a FIE
    | Reporting                   // sent, fiesDepth not yet incremented
    | Departing                   // returning, PDGoroutines not yet decremented
    | WorkerFinished

  datatype Worker = Worker(item: Item, stage: WorkerStage)

  datatype WriterStage =
    | Awaiting
    | Discounting(product: Product)  // received, fiesDepth not yet decremented
    | Sending(product: Product)
    | Failing                      // returning an error, group not yet cancelled
    | WriterFinished

  datatype State = State(
    agentID: string,
    pdsCapacity: nat,
    fiesCapacity: nat,
    ctxDone: bool,
    connClosed: bool,
    reader: ReaderStage,
    pds: seq<Item>,
    pdsClosed: bool,
    processor: ProcessorStage,
    workers: seq<Worker>,
    fies: seq<Product>,
    fiesClosed: bool,
    writer: WriterStage,
    pdsDepth: int,
    fiesDepth: int,
    pdGoroutines: int,
    accepted: seq<Item>,    // |accepted| is PDsReceivedTotal
    lost: seq<Loss>,
    offered: seq<Product>,  // every FIE ever put in `fies`
    sent: seq<Product>)     // |sent| is FIEsSentTotal

  function Initial(agentID: string, pdsCapacity: nat, fiesCapacity: nat): State {
    State(agentID, pdsCapacity, fiesCapacity, false, false, Receiving, [], false, Selecting, [], [], false, Awaiting,
      0, 0, 0, [], [], [], [])
  }

  // ----- events -----

  datatype ReaderAction = Accept(pd: Directive) | Fail | SendPD | GiveUpPD | CountPD | ClosePDs | ReaderCancels

  datatype ProcessorAction =
    | StopSelecting | TakePD | SeePDsClosed | DiscountPD | CountGoroutine | Dispatch | CloseFIEs

  datatype WorkerAction =
    | NearReturns(near: ProbeReturn) | FarReturns(far: ProbeReturn)
    | Conclude | OfferFIE | GiveUpFIE | ReportFIE | Depart

  datatype WriterAction = StopAwaiting | TakeFIE | SeeFIEsClosed | DiscountFIE | SendFIE | FailSend | WriterCancels

  datatype Event =
    | Cancel      // the caller's context is done
    | CloseConn   // context.AfterFunc closes the connection
    | ByReader(r: ReaderAction)
    | ByProcessor(p: ProcessorAction)
    | ByWorker(w: nat, a: WorkerAction)
    | ByWriter(wr: WriterAction)

  // A send or a receive on a closed channel proceeds, whatever the buffer holds.

  predicate ReaderEnabled(s: State, a: ReaderAction) {
    match a
    case Accept(pd) => s.reader.Receiving? && !s.connClosed && Valid(pd)
    case Fail => s.reader.Receiving?
    case SendPD => s.reader.Holding? && (s.pdsClosed || |s.pds| < s.pdsCapacity)
    case GiveUpPD => s.reader.Holding? && s.ctxDone
    case CountPD => s.reader.Counting?
    case ClosePDs => s.reader.Closing?
    case ReaderCancels => s.reader.Returning?
  }

  predicate ProcessorEnabled(s: State, a: ProcessorAction) {
    match a
    case StopSelecting => s.processor.Selecting? && s.ctxDone
    case TakePD => s.processor.Selecting? && s.pds != []
    case SeePDsClosed => s.processor.Selecting? && s.pds == [] && s.pdsClosed
    case DiscountPD => s.processor.Taken?
    case CountGoroutine => s.processor.Dispatching?
    case Dispatch => s.processor.Starting?
    case CloseFIEs => s.processor.Draining? && AllFinished(s.workers)
  }

  predicate StageAllows(stage: WorkerStage, a: WorkerAction) {
    match a
    case NearReturns(_) => stage.Probing? && stage.near.None?
    case FarReturns(_) => stage.Probing? && stage.far.None?
    case Conclude => stage.Probing? && stage.near.Some? && stage.far.Some?
    case OfferFIE => stage.Offering?
    case GiveUpFIE => stage.Offering?
    case ReportFIE => stage.Reporting?
    case Depart => stage.Departing?
  }

  predicate WorkerEnabled(s: State, w: nat, a: WorkerAction) {
    && w < |s.workers|
    && StageAllows(s.workers[w].stage, a)
    && (a.OfferFIE? ==> s.fiesClosed || |s.fies| < s.fiesCapacity)
    && (a.GiveUpFIE? ==> s.ctxDone)
  }

  predicate WriterEnabled(s: State, a: WriterAction) {
    match a
    case StopAwaiting => s.writer.Awaiting? && s.ctxDone
    case TakeFIE => s.writer.Awaiting? && s.fies != []
    case SeeFIEsClosed => s.writer.Awaiting? && s.fies == [] && s.fiesClosed
    case DiscountFIE => s.writer.Discounting?
    case SendFIE => s.writer.Sending? && !s.connClosed
    case FailSend => s.writer.Sending?
    case WriterCancels => s.writer.Failing?
  }

  predicate Enabled(s: State, e: Event) {
    match e
    case Cancel => !s.ctxDone
    case CloseConn => s.ctxDone && !s.connClosed
    case ByReader(a) => ReaderEnabled(s, a)
    case ByProcessor(a) => ProcessorEnabled(s, a)
    case ByWorker(w, a) => WorkerEnabled(s, w, a)
    case ByWriter(a) => WriterEnabled(s, a)
  }

  predicate AllFinished(workers: seq<Worker>) {
    forall w :: 0 <= w < |workers| ==> workers[w].stage.WorkerFinished?
  }

  /** readerLoop always returns an error, which cancels the group. */
  function ReaderStep(s: State, a: ReaderAction): State
    requires ReaderEnabled(s, a)
  {
    match a
    case Accept(pd) =>
      var item := Item(|s.accepted|, pd);
      s.(reader := Holding(item), accepted := s.accepted + [item])
    case Fail => s.(reader := Closing)
    case SendPD => s.(reader := Counting, pds := s.pds + [s.reader.item])
    case GiveUpPD => s.(reader := Closing, lost := s.lost + [Loss(s.reader.item, ReaderCancelled)])
    case CountPD => s.(reader := Receiving, pdsDepth := s.pdsDepth + 1)
    case ClosePDs => s.(reader := Returning, pdsClosed := true)
    case ReaderCancels => s.(reader := ReaderFinished, ctxDone := true)
  }

  function ProcessorStep(s: State, a: ProcessorAction): State
    requires ProcessorEnabled(s, a)
  {
    match a
    case StopSelecting => s.(processor := Draining)
    case TakePD => s.(processor := Taken(s.pds[0]), pds := s.pds[1..])
    case SeePDsClosed => s.(processor := Draining)
    case DiscountPD => s.(processor := Dispatching(s.processor.item), pdsDepth := s.pdsDepth - 1)
    case CountGoroutine => s.(processor := Starting(s.processor.item), pdGoroutines := s.pdGoroutines + 1)
    case Dispatch =>
      s.(processor := Selecting, workers := s.workers + [Worker(s.processor.item, Probing(None, None))])
    case CloseFIEs => s.(processor := ProcessorFinished, fiesClosed := true)
  }

  function ConclusionOf(agentID: string, w: Worker): Conclusion
    requires StageAllows(w.stage, WorkerAction.Conclude)
  {
    ProcessPD(agentID, w.item.pd, w.stage.near.value, w.stage.far.value)
  }

  function NextStage(agentID: string, w: Worker, a: WorkerAction): WorkerStage
    requires StageAllows(w.stage, a)
  {
    match a
    case NearReturns(r) => w.stage.(near := Some(r))
    case FarReturns(r) => w.stage.(far := Some(r))
    case Conclude =>
      match ConclusionOf(agentID, w) {
        case Forward(fie) => Offering(Product(w.item, w.stage.near.value, w.stage.far.value, fie))
        case Drop(_) => Departing
      }
    case OfferFIE => Reporting
    case GiveUpFIE => Departing
    case ReportFIE => Departing
    case Depart => WorkerFinished
  }

  /** What the step puts in `fies`. */
  function Emitted(w: Worker, a: WorkerAction): seq<Product>
    requires StageAllows(w.stage, a)
  {
    if a.OfferFIE? then [w.stage.product] else []
  }

  /** What the step loses. */
  function LostBy(agentID: string, w: Worker, a: WorkerAction): seq<Loss>
    requires StageAllows(w.stage, a)
  {
    if a.Conclude? && ConclusionOf(agentID, w).Drop? then [Loss(w.item, ConclusionOf(agentID, w).reason)]
    else if a.GiveUpFIE? then [Loss(w.item, OfferCancelled)]
    else []
  }

  function WorkerStep(s: State, w: nat, a: WorkerAction): State
    requires WorkerEnabled(s, w, a)
  {
    s.(workers := s.workers[w := s.workers[w].(stage := NextStage(s.agentID, s.workers[w], a))],
       fies := s.fies + Emitted(s.workers[w], a),
       offered := s.offered + Emitted(s.workers[w], a),
       lost := s.lost + LostBy(s.agentID, s.workers[w], a),
       fiesDepth := s.fiesDepth + (if a.ReportFIE? then 1 else 0),
       pdGoroutines := s.pdGoroutines - (if a.Depart? then 1 else 0))
  }

  /** A failed conversion or send returns an error, which cancels the group. */
  function WriterStep(s: State, a: WriterAction): State
    requires WriterEnabled(s, a)
  {
    match a
    case StopAwaiting => s.(writer := WriterFinished)
    case TakeFIE => s.(writer := Discounting(s.fies[0]), fies := s.fies[1..])
    case SeeFIEsClosed => s.(writer := WriterFinished)
    case DiscountFIE => s.(writer := Sending(s.writer.product), fiesDepth := s.fiesDepth - 1)
    case SendFIE => s.(writer := Awaiting, sent := s.sent + [s.writer.product])
    case FailSend =>
      s.(writer := Failing, lost := s.lost + [Loss(s.writer.product.item, WriteFailed)])
    case WriterCancels => s.(writer := WriterFinished, ctxDone := true)
  }

  function Step(s: State, e: Event): State
    requires Enabled(s, e)
  {
    match e
    case Cancel => s.(ctxDone := true)
    case CloseConn => s.(connClosed := true)
    case ByReader(a) => ReaderStep(s, a)
    case ByProcessor(a) => ProcessorStep(s, a)
    case ByWorker(w, a) => WorkerStep(s, w, a)
    case ByWriter(a) => WriterStep(s, a)
  }

  /** In Go this event panics: a send on a closed channel, or a second close. */
  predicate Panics(s: State, e: Event) {
    match e
    case ByReader(SendPD) => s.pdsClosed
    case ByReader(ClosePDs) => s.pdsClosed
    case ByProcessor(CloseFIEs) => s.fiesClosed
    case ByWorker(_, OfferFIE) => s.fiesClosed
    case _ => false
  }

  // ----- runs -----

  predicate Feasible(s: State, events: seq<Event>)
    decreases |events|
  {
    events == [] || (Enabled(s, events[0]) && Feasible(Step(s, events[0]), events[1..]))
  }

  function After(s: State, events: seq<Event>): State
    requires Feasible(s, events)
    decreases |events|
  {
    if events == [] then s else After(Step(s, events[0]), events[1..])
  }

  lemma {:induction false} RunSnoc(s: State, events: seq<Event>, e: Event)
    requires Feasible(s, events) && Enabled(After(s, events), e)
    ensures Feasible(s, events + [e]) && After(s, events + [e]) == Step(After(s, events), e)
    decreases |events|
  {
    if events == [] {
      assert (events + [e])[1..] == [];
    } else {
      RunSnoc(Step(s, events[0]), events[1..], e);
      assert (events + [e])[1..] == events[1..] + [e];
    }
  }

  ghost predicate Reachable(s: State) {
    exists agentID: string, pdsCapacity: nat, fiesCapacity: nat, events: seq<Event> ::
      && Feasible(Initial(agentID, pdsCapacity, fiesCapacity), events)
      && s == After(Initial(agentID, pdsCapacity, fiesCapacity), events)
  }

  lemma InitiallyReachable(agentID: string, pdsCapacity: nat, fiesCapacity: nat)
    ensures Reachable(Initial(agentID, pdsCapacity, fiesCapacity))
  {
    assert Feasible(Initial(agentID, pdsCapacity, fiesCapacity), []);
    assert After(Initial(agentID, pdsCapacity, fiesCapacity), []) == Initial(agentID, pdsCapacity, fiesCapacity);
  }

  lemma ReachableStep(s: State, e: Event)
    requires Reachable(s) && Enabled(s, e)
    ensures Reachable(Step(s, e))
  {
    var agentID: string, pdsCapacity: nat, fiesCapacity: nat, events: seq<Event> :|
      && Feasible(Initial(agentID, pdsCapacity, fiesCapacity), events)
      && s == After(Initial(agentID, pdsCapacity, fiesCapacity), events);
    RunSnoc(Initial(agentID, pdsCapacity, fiesCapacity), events, e);
    assert Feasible(Initial(agentID, pdsCapacity, fiesCapacity), events + [e]);
  }
}
