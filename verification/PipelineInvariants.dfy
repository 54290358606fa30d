// What every event of the pipeline keeps: the close protocol, the depth counters, and where each directive is.
module PipelineInvariants {
  import opened Wrappers
  import opened Directives
  import opened ForwardingInfo
  import opened Pipeline
  import opened Totals

  // ----- what a step of a directive's goroutine changes -----

  function Moved(s: State, w: nat, stage: WorkerStage): seq<Worker>
    requires w < |s.workers|
  {
    s.workers[w := s.workers[w].(stage := stage)]
  }

  lemma ConcludeChanges(s: State, w: nat)
    requires WorkerEnabled(s, w, WorkerAction.Conclude)
    ensures var worker := s.workers[w];
      var near, far := worker.stage.near.value, worker.stage.far.value;
      WorkerStep(s, w, WorkerAction.Conclude) ==
        match ProcessPD(s.agentID, worker.item.pd, near, far)
        case Forward(fie) => s.(workers := Moved(s, w, Offering(Product(worker.item, near, far, fie))))
        case Drop(reason) => s.(workers := Moved(s, w, Departing), lost := s.lost + [Loss(worker.item, reason)])
  {
    assert s.fies + [] == s.fies && s.offered + [] == s.offered && s.lost + [] == s.lost;
  }

  lemma OfferChanges(s: State, w: nat)
    requires WorkerEnabled(s, w, WorkerAction.OfferFIE)
    ensures var product := s.workers[w].stage.product;
      WorkerStep(s, w, WorkerAction.OfferFIE) ==
        s.(workers := Moved(s, w, Reporting), fies := s.fies + [product], offered := s.offered + [product])
  {
    assert s.lost + [] == s.lost;
  }

  lemma GiveUpChanges(s: State, w: nat)
    requires WorkerEnabled(s, w, WorkerAction.GiveUpFIE)
    ensures WorkerStep(s, w, WorkerAction.GiveUpFIE) ==
      s.(workers := Moved(s, w, Departing), lost := s.lost + [Loss(s.workers[w].item, OfferCancelled)])
  {
    assert s.fies + [] == s.fies && s.offered + [] == s.offered;
  }

  lemma QuietStepChanges(s: State, w: nat, a: WorkerAction)
    requires WorkerEnabled(s, w, a) && (a.NearReturns? || a.FarReturns? || a.ReportFIE? || a.Depart?)
    ensures WorkerStep(s, w, a) ==
      s.(workers := Moved(s, w, NextStage(s.agentID, s.workers[w], a)),
         fiesDepth := s.fiesDepth + (if a.ReportFIE? then 1 else 0),
         pdGoroutines := s.pdGoroutines - (if a.Depart? then 1 else 0))
  {
    assert s.fies + [] == s.fies && s.offered + [] == s.offered && s.lost + [] == s.lost;
  }

  // ----- what is counted -----

  function Live(w: Worker): int {
    if w.stage.WorkerFinished? then 0 else 1
  }

  function Uncounted(w: Worker): int {
    if w.stage.Reporting? then 1 else 0
  }

  // ----- conservation -----

  /** Whether a place holds directive `x`, or the FIE made for it. */
  function OfItem(x: Item): Item -> int {
    (i: Item) => if i == x then 1 else 0
  }

  function OfProduct(x: Item): Product -> int {
    (p: Product) => if p.item == x then 1 else 0
  }

  function OfLoss(x: Item): Loss -> int {
    (l: Loss) => if l.item == x then 1 else 0
  }

  function OfWorker(x: Item): Worker -> int {
    (w: Worker) => if Holds(w) && w.item == x then 1 else 0
  }

  predicate Holds(w: Worker) {
    w.stage.Probing? || w.stage.Offering?
  }

  function Carrying(w: Worker): int {
    OfAny(Holds(w))
  }

  function OfAny(b: bool): int {
    if b then 1 else 0
  }

  function OfReader(x: Item, r: ReaderStage): int {
    if r.Holding? && r.item == x then 1 else 0
  }

  predicate Carries(p: ProcessorStage) {
    p.Taken? || p.Dispatching? || p.Starting?
  }

  function OfProcessor(x: Item, p: ProcessorStage): int {
    if Carries(p) && p.item == x then 1 else 0
  }

  function OfWriter(x: Item, w: WriterStage): int {
    if (w.Discounting? || w.Sending?) && w.product.item == x then 1 else 0
  }

  /** How many places hold directive `x`. */
  function Held(s: State, x: Item): int {
    OfReader(x, s.reader) + Total(s.pds, OfItem(x)) + OfProcessor(x, s.processor) + Total(s.workers, OfWorker(x))
      + Total(s.fies, OfProduct(x)) + OfWriter(x, s.writer) + Total(s.lost, OfLoss(x)) + Total(s.sent, OfProduct(x))
  }

  /** Each accepted directive is in exactly one place, and nothing else is anywhere. */
  ghost predicate Conserved(s: State) {
    && Numbered(s.accepted)
    && forall x: Item :: Held(s, x) == Total(s.accepted, OfItem(x))
  }

  ghost predicate Numbered(accepted: seq<Item>) {
    forall i :: 0 <= i < |accepted| ==> accepted[i].instance == i
  }

  lemma ReaderConserves(s: State, a: ReaderAction, x: Item)
    requires ReaderEnabled(s, a) && Held(s, x) == Total(s.accepted, OfItem(x))
    ensures var t := ReaderStep(s, a); Held(t, x) == Total(t.accepted, OfItem(x))
  {
    match a
    case Accept(pd) => TotalAppend(s.accepted, Item(|s.accepted|, pd), OfItem(x));
    case SendPD => TotalAppend(s.pds, s.reader.item, OfItem(x));
    case GiveUpPD => TotalAppend(s.lost, Loss(s.reader.item, ReaderCancelled), OfLoss(x));
    case _ =>
  }

  lemma ProcessorConserves(s: State, a: ProcessorAction, x: Item)
    requires ProcessorEnabled(s, a) && Held(s, x) == Total(s.accepted, OfItem(x))
    ensures var t := ProcessorStep(s, a); Held(t, x) == Total(t.accepted, OfItem(x))
  {
    match a
    case Dispatch => TotalAppend(s.workers, Worker(s.processor.item, Probing(None, None)), OfWorker(x));
    case TakePD => assert Total(s.pds, OfItem(x)) == OfItem(x)(s.pds[0]) + Total(s.pds[1..], OfItem(x));
    case _ =>
  }

  /** A goroutine's step keeps its directive with it, moves it to `fies`, or loses it. */
  lemma WorkerMoves(agentID: string, w: Worker, a: WorkerAction, x: Item)
    requires FaithfulWorker(agentID, w) && StageAllows(w.stage, a)
    ensures var next := w.(stage := NextStage(agentID, w, a));
      && OfWorker(x)(w) ==
           OfWorker(x)(next) + Total(Emitted(w, a), OfProduct(x)) + Total(LostBy(agentID, w, a), OfLoss(x))
      && Carrying(w) == Carrying(next) + |Emitted(w, a)| + |LostBy(agentID, w, a)|
  {
    if a.OfferFIE? {
      TotalOne(w.stage.product, OfProduct(x));
    } else if |LostBy(agentID, w, a)| > 0 {
      TotalOne(LostBy(agentID, w, a)[0], OfLoss(x));
    }
  }

  lemma WorkerConserves(s: State, w: nat, a: WorkerAction, x: Item)
    requires AllFaithful(s) && WorkerEnabled(s, w, a) && Held(s, x) == Total(s.accepted, OfItem(x))
    ensures var t := WorkerStep(s, w, a); Held(t, x) == Total(t.accepted, OfItem(x))
  {
    assert FaithfulWorker(s.agentID, s.workers[w]);
    WorkerMoves(s.agentID, s.workers[w], a, x);
    TotalUpdate(s.workers, w, s.workers[w].(stage := NextStage(s.agentID, s.workers[w], a)), OfWorker(x));
    TotalConcat(s.fies, Emitted(s.workers[w], a), OfProduct(x));
    TotalConcat(s.lost, LostBy(s.agentID, s.workers[w], a), OfLoss(x));
  }

  lemma WriterConserves(s: State, a: WriterAction, x: Item)
    requires WriterEnabled(s, a) && Held(s, x) == Total(s.accepted, OfItem(x))
    ensures var t := WriterStep(s, a); Held(t, x) == Total(t.accepted, OfItem(x))
  {
    match a
    case SendFIE => TotalAppend(s.sent, s.writer.product, OfProduct(x));
    case FailSend => TotalAppend(s.lost, Loss(s.writer.product.item, WriteFailed), OfLoss(x));
    case _ =>
  }

  lemma StepConservesOne(s: State, e: Event, x: Item)
    requires AllFaithful(s) && Enabled(s, e) && Held(s, x) == Total(s.accepted, OfItem(x))
    ensures Held(Step(s, e), x) == Total(Step(s, e).accepted, OfItem(x))
  {
    match e
    case ByReader(a) => ReaderConserves(s, a, x);
    case ByProcessor(a) => ProcessorConserves(s, a, x);
    case ByWorker(w, a) => WorkerConserves(s, w, a, x);
    case ByWriter(a) => WriterConserves(s, a, x);
    case _ =>
  }

  lemma StepKeepsNumbered(s: State, e: Event)
    requires Numbered(s.accepted) && Enabled(s, e)
    ensures Numbered(Step(s, e).accepted)
  {
    match e
    case ByReader(a) => assert a.Accept? || ReaderStep(s, a).accepted == s.accepted;
    case ByProcessor(a) => assert ProcessorStep(s, a).accepted == s.accepted;
    case ByWorker(w, a) => assert WorkerStep(s, w, a).accepted == s.accepted;
    case ByWriter(a) => assert WriterStep(s, a).accepted == s.accepted;
    case _ =>
  }

  lemma StepConserves(s: State, e: Event)
    requires Conserved(s) && AllFaithful(s) && Enabled(s, e)
    ensures Conserved(Step(s, e))
  {
    StepKeepsNumbered(s, e);
    forall x: Item
      ensures Held(Step(s, e), x) == Total(Step(s, e).accepted, OfItem(x))
    {
      StepConservesOne(s, e, x);
    }
  }

  // ----- closing -----

  ghost predicate ClosedInOrder(s: State) {
    && (s.pdsClosed <==> s.reader.Returning? || s.reader.ReaderFinished?)
    && (s.fiesClosed <==> s.processor.ProcessorFinished?)
    && (s.processor.ProcessorFinished? ==> AllFinished(s.workers))
    && (s.reader.ReaderFinished? ==> s.ctxDone)
    && (s.connClosed ==> s.ctxDone)
    && (!s.ctxDone ==> EndedEmpty(s))
  }

  /** With the context live, the processor and the writer end only at a closed, empty channel. */
  predicate EndedEmpty(s: State) {
    && (s.processor.Draining? || s.processor.ProcessorFinished? ==> s.pdsClosed && s.pds == [])
    && (s.writer.WriterFinished? ==> s.fiesClosed && s.fies == [])
  }

  lemma WorkerKeepsClosing(s: State, w: nat, a: WorkerAction)
    requires ClosedInOrder(s) && WorkerEnabled(s, w, a)
    ensures ClosedInOrder(WorkerStep(s, w, a))
  {
  }

  lemma ProcessorKeepsClosing(s: State, a: ProcessorAction)
    requires ClosedInOrder(s) && ProcessorEnabled(s, a)
    ensures ClosedInOrder(ProcessorStep(s, a))
  {
  }

  lemma ReaderKeepsClosing(s: State, a: ReaderAction)
    requires ClosedInOrder(s) && ReaderEnabled(s, a)
    ensures ClosedInOrder(ReaderStep(s, a))
  {
  }

  lemma WriterKeepsClosing(s: State, a: WriterAction)
    requires ClosedInOrder(s) && WriterEnabled(s, a)
    ensures ClosedInOrder(WriterStep(s, a))
  {
  }

  lemma StepKeepsClosing(s: State, e: Event)
    requires ClosedInOrder(s) && Enabled(s, e)
    ensures ClosedInOrder(Step(s, e))
  {
    match e
    case ByProcessor(a) => ProcessorKeepsClosing(s, a);
    case ByWorker(w, a) => WorkerKeepsClosing(s, w, a);
    case ByReader(a) => ReaderKeepsClosing(s, a);
    case ByWriter(a) => WriterKeepsClosing(s, a);
    case _ =>
  }

  // ----- counters -----

  ghost predicate Counted(s: State) {
    && |s.pds| <= s.pdsCapacity && |s.fies| <= s.fiesCapacity
    && s.pdsDepth == |s.pds| - (if s.reader.Counting? then 1 else 0) + (if s.processor.Taken? then 1 else 0)
    && s.fiesDepth == |s.fies| - Total(s.workers, Uncounted) + (if s.writer.Discounting? then 1 else 0)
    && s.pdGoroutines == Total(s.workers, Live) + OfAny(s.processor.Starting?)
    && |s.accepted| == OfAny(s.reader.Holding?) + |s.pds| + OfAny(Carries(s.processor)) + Total(s.workers, Carrying)
         + |s.fies| + OfAny(s.writer.Discounting? || s.writer.Sending?)
         + |s.lost| + |s.sent|
  }

  lemma WorkerKeepsCounted(s: State, w: nat, a: WorkerAction)
    requires Counted(s) && AllFaithful(s) && WorkerEnabled(s, w, a) && !s.fiesClosed
    ensures Counted(WorkerStep(s, w, a))
  {
    var worker := s.workers[w];
    var next := worker.(stage := NextStage(s.agentID, worker, a));
    assert FaithfulWorker(s.agentID, worker);
    WorkerMoves(s.agentID, worker, a, worker.item);
    TotalUpdate(s.workers, w, next, Live);
    TotalUpdate(s.workers, w, next, Uncounted);
    TotalUpdate(s.workers, w, next, Carrying);
  }

  lemma ProcessorKeepsCounted(s: State, a: ProcessorAction)
    requires Counted(s) && ProcessorEnabled(s, a)
    ensures Counted(ProcessorStep(s, a))
  {
    if a.Dispatch? {
      TotalAppend(s.workers, Worker(s.processor.item, Probing(None, None)), Live);
      TotalAppend(s.workers, Worker(s.processor.item, Probing(None, None)), Uncounted);
      TotalAppend(s.workers, Worker(s.processor.item, Probing(None, None)), Carrying);
    }
  }

  /** A reader's step puts at most one directive in the channel, where there is room, and loses none silently. */
  lemma ReaderChanges(s: State, a: ReaderAction)
    requires ReaderEnabled(s, a) && (a.SendPD? ==> !s.pdsClosed)
    ensures var t := ReaderStep(s, a);
      && t == s.(reader := t.reader, pds := t.pds, pdsClosed := t.pdsClosed, pdsDepth := t.pdsDepth,
                 accepted := t.accepted, lost := t.lost, ctxDone := t.ctxDone)
      && (|t.pds| == |s.pds| || |t.pds| <= s.pdsCapacity)
      && t.pdsDepth - |t.pds| + OfAny(t.reader.Counting?) == s.pdsDepth - |s.pds| + OfAny(s.reader.Counting?)
      && |t.accepted| - OfAny(t.reader.Holding?) - |t.pds| - |t.lost|
         == |s.accepted| - OfAny(s.reader.Holding?) - |s.pds| - |s.lost|
  {
  }

  lemma ReaderKeepsCounted(s: State, a: ReaderAction)
    requires Counted(s) && ReaderEnabled(s, a) && (a.SendPD? ==> !s.pdsClosed)
    ensures Counted(ReaderStep(s, a))
  {
    ReaderChanges(s, a);
  }

  /** A writer's step takes at most one FIE from the channel, and every FIE it took is sent or lost. */
  lemma WriterChanges(s: State, a: WriterAction)
    requires WriterEnabled(s, a)
    ensures var t := WriterStep(s, a);
      && t == s.(writer := t.writer, fies := t.fies, fiesDepth := t.fiesDepth, sent := t.sent, lost := t.lost,
                 ctxDone := t.ctxDone)
      && |t.fies| <= |s.fies|
      && t.fiesDepth - |t.fies| - OfAny(t.writer.Discounting?) == s.fiesDepth - |s.fies| - OfAny(s.writer.Discounting?)
      && |t.fies| + OfAny(t.writer.Discounting? || t.writer.Sending?) + |t.lost| + |t.sent|
         == |s.fies| + OfAny(s.writer.Discounting? || s.writer.Sending?) + |s.lost| + |s.sent|
  {
  }

  lemma WriterKeepsCounted(s: State, a: WriterAction)
    requires Counted(s) && WriterEnabled(s, a)
    ensures Counted(WriterStep(s, a))
  {
    WriterChanges(s, a);
  }

  lemma StepKeepsCounted(s: State, e: Event)
    requires Counted(s) && ClosedInOrder(s) && AllFaithful(s) && Enabled(s, e)
    ensures Counted(Step(s, e))
  {
    match e
    case ByWorker(w, a) =>
      FinishedWorkersAreDone(s, w, a);
      WorkerKeepsCounted(s, w, a);
    case ByProcessor(a) => ProcessorKeepsCounted(s, a);
    case ByReader(a) => ReaderKeepsCounted(s, a);
    case ByWriter(a) => WriterKeepsCounted(s, a);
    case _ =>
  }

  /** While a directive's goroutine can do anything, fies is open. */
  lemma FinishedWorkersAreDone(s: State, w: nat, a: WorkerAction)
    requires ClosedInOrder(s) && WorkerEnabled(s, w, a)
    ensures !s.fiesClosed
  {
  }

  // ----- order -----

  function Items(workers: seq<Worker>): (items: seq<Item>)
    ensures |items| == |workers|
  {
    seq(|workers|, i requires 0 <= i < |workers| => workers[i].item)
  }

  function InProcessor(p: ProcessorStage): seq<Item> {
    if Carries(p) then [p.item] else []
  }

  function InReader(r: ReaderStage): seq<Item> {
    if r.Holding? then [r.item] else []
  }

  function InWriter(w: WriterStage): seq<Product> {
    if w.Discounting? || w.Sending? then [w.product] else []
  }

  /** The directives dispatched, and those on their way, oldest first. */
  function Line(s: State): seq<Item> {
    Items(s.workers) + InProcessor(s.processor) + s.pds + InReader(s.reader)
  }

  function FIELine(s: State): seq<Product> {
    s.sent + InWriter(s.writer) + s.fies
  }

  /** Both channels are first-in first-out from end to end; only the last of a line can be given up. */
  ghost predicate InOrder(s: State) {
    && Line(s) <= s.accepted
    && (!s.ctxDone || s.reader.Receiving? || s.reader.Holding? || s.reader.Counting? ==> Line(s) == s.accepted)
    && s.sent <= s.offered
    && (!s.writer.Failing? && !s.writer.WriterFinished? ==> FIELine(s) == s.offered)
  }

  lemma ReaderKeepsOrder(s: State, a: ReaderAction)
    requires InOrder(s) && ReaderEnabled(s, a)
    ensures InOrder(ReaderStep(s, a))
  {
    var t := ReaderStep(s, a);
    assert FIELine(t) == FIELine(s);
    match a
    case Accept(pd) => assert Line(t) == Line(s) + [t.reader.item];
    case GiveUpPD => assert Line(s) == Line(t) + [s.reader.item];
    case _ => assert Line(t) == Line(s);
  }

  /** The processor passes directives on in the order it takes them. */
  lemma ProcessorKeepsLine(s: State, a: ProcessorAction)
    requires ProcessorEnabled(s, a)
    ensures var t := ProcessorStep(s, a);
      Items(t.workers) + InProcessor(t.processor) + t.pds == Items(s.workers) + InProcessor(s.processor) + s.pds
  {
    var t := ProcessorStep(s, a);
    if a.Dispatch? {
      assert Items(t.workers) == Items(s.workers) + InProcessor(s.processor);
    } else {
      assert InProcessor(t.processor) + t.pds == InProcessor(s.processor) + s.pds;
    }
  }

  lemma ProcessorKeepsOrder(s: State, a: ProcessorAction)
    requires InOrder(s) && ProcessorEnabled(s, a)
    ensures InOrder(ProcessorStep(s, a))
  {
    ProcessorKeepsLine(s, a);
  }

  lemma WorkerKeepsOrder(s: State, w: nat, a: WorkerAction)
    requires InOrder(s) && WorkerEnabled(s, w, a)
    ensures InOrder(WorkerStep(s, w, a))
  {
    var t := WorkerStep(s, w, a);
    assert Items(t.workers) == Items(s.workers);
    assert Line(t) == Line(s);
    assert FIELine(t) == FIELine(s) + Emitted(s.workers[w], a);
  }

  /** The writer passes FIEs on in the order it takes them. */
  lemma WriterKeepsFIELine(s: State, a: WriterAction)
    requires WriterEnabled(s, a)
    ensures var t := WriterStep(s, a);
      && t.offered == s.offered
      && (a.SendFIE? ==> t.sent <= FIELine(s))
      && (!a.SendFIE? ==> t.sent == s.sent)
      && (!t.writer.Failing? && !t.writer.WriterFinished? ==> FIELine(t) == FIELine(s))
  {
    var t := WriterStep(s, a);
    match a
    case TakeFIE => assert InWriter(t.writer) + t.fies == InWriter(s.writer) + s.fies;
    case SendFIE => assert t.sent + InWriter(t.writer) == s.sent + InWriter(s.writer);
    case _ =>
  }

  lemma WriterKeepsOrder(s: State, a: WriterAction)
    requires InOrder(s) && WriterEnabled(s, a)
    ensures InOrder(WriterStep(s, a))
  {
    WriterChanges(s, a);
    WriterKeepsFIELine(s, a);
  }

  lemma StepKeepsOrder(s: State, e: Event)
    requires InOrder(s) && Enabled(s, e)
    ensures InOrder(Step(s, e))
  {
    match e
    case ByReader(a) => ReaderKeepsOrder(s, a);
    case ByProcessor(a) => ProcessorKeepsOrder(s, a);
    case ByWorker(w, a) => WorkerKeepsOrder(s, w, a);
    case ByWriter(a) => WriterKeepsOrder(s, a);
    case _ =>
  }

  // ----- what FIEs say -----

  /** The FIE is what processPD makes of its directive and the two returns. */
  ghost predicate Faithful(agentID: string, p: Product) {
    ProcessPD(agentID, p.item.pd, p.near, p.far) == Forward(p.fie)
  }

  ghost predicate FaithfulWorker(agentID: string, w: Worker) {
    w.stage.Offering? ==> Faithful(agentID, w.stage.product) && w.stage.product.item == w.item
  }

  ghost predicate AllFaithful(s: State) {
    && (forall w :: 0 <= w < |s.workers| ==> FaithfulWorker(s.agentID, s.workers[w]))
    && (forall i :: 0 <= i < |s.fies| ==> Faithful(s.agentID, s.fies[i]))
    && (s.writer.Discounting? || s.writer.Sending? ==> Faithful(s.agentID, s.writer.product))
    && (forall i :: 0 <= i < |s.sent| ==> Faithful(s.agentID, s.sent[i]))
    && (forall i :: 0 <= i < |s.accepted| ==> Valid(s.accepted[i].pd))
  }

  lemma WorkerKeepsFaithful(s: State, w: nat, a: WorkerAction)
    requires AllFaithful(s) && WorkerEnabled(s, w, a)
    ensures AllFaithful(WorkerStep(s, w, a))
  {
    assert FaithfulWorker(s.agentID, s.workers[w]);
    assert FaithfulWorker(s.agentID, s.workers[w].(stage := NextStage(s.agentID, s.workers[w], a)));
  }

  lemma StepKeepsFaithful(s: State, e: Event)
    requires AllFaithful(s) && Enabled(s, e)
    ensures AllFaithful(Step(s, e))
  {
    match e
    case ByWorker(w, a) => WorkerKeepsFaithful(s, w, a);
    case ByReader(a) => ReaderKeepsFaithful(s, a);
    case ByProcessor(a) => ProcessorKeepsFaithful(s, a);
    case ByWriter(a) => WriterKeepsFaithful(s, a);
    case _ =>
  }

  lemma ReaderKeepsFaithful(s: State, a: ReaderAction)
    requires AllFaithful(s) && ReaderEnabled(s, a)
    ensures AllFaithful(ReaderStep(s, a))
  {
  }

  lemma ProcessorKeepsFaithful(s: State, a: ProcessorAction)
    requires AllFaithful(s) && ProcessorEnabled(s, a)
    ensures AllFaithful(ProcessorStep(s, a))
  {
  }

  lemma WriterKeepsFaithful(s: State, a: WriterAction)
    requires AllFaithful(s) && WriterEnabled(s, a)
    ensures AllFaithful(WriterStep(s, a))
  {
  }

  // ----- every run -----

  ghost predicate Invariant(s: State) {
    Conserved(s) && ClosedInOrder(s) && Counted(s) && InOrder(s) && AllFaithful(s)
  }

  /** No enabled event sends on, or closes, a closed channel. */
  lemma NothingPanics(s: State, e: Event)
    requires ClosedInOrder(s) && Enabled(s, e)
    ensures !Panics(s, e)
  {
  }

  lemma StepKeepsInvariant(s: State, e: Event)
    requires Invariant(s) && Enabled(s, e)
    ensures Invariant(Step(s, e))
  {
    StepConserves(s, e);
    StepKeepsClosing(s, e);
    StepKeepsCounted(s, e);
    StepKeepsOrder(s, e);
    StepKeepsFaithful(s, e);
  }

  lemma {:induction false} RunKeepsInvariant(s: State, events: seq<Event>)
    requires Invariant(s) && Feasible(s, events)
    ensures Invariant(After(s, events))
    decreases |events|
  {
    if events != [] {
      StepKeepsInvariant(s, events[0]);
      RunKeepsInvariant(Step(s, events[0]), events[1..]);
    }
  }

  lemma OrderInitially(agentID: string, pdsCapacity: nat, fiesCapacity: nat)
    ensures InOrder(Initial(agentID, pdsCapacity, fiesCapacity))
  {
    var s := Initial(agentID, pdsCapacity, fiesCapacity);
    assert Line(s) == [] && FIELine(s) == [];
  }

  lemma CountedInitially(agentID: string, pdsCapacity: nat, fiesCapacity: nat)
    ensures Counted(Initial(agentID, pdsCapacity, fiesCapacity))
  {
  }

  lemma InvariantInitially(agentID: string, pdsCapacity: nat, fiesCapacity: nat)
    ensures Invariant(Initial(agentID, pdsCapacity, fiesCapacity))
  {
    OrderInitially(agentID, pdsCapacity, fiesCapacity);
    CountedInitially(agentID, pdsCapacity, fiesCapacity);
  }

  lemma InvariantHolds(s: State)
    requires Reachable(s)
    ensures Invariant(s)
  {
    var agentID: string, pdsCapacity: nat, fiesCapacity: nat, events: seq<Event> :|
      && Feasible(Initial(agentID, pdsCapacity, fiesCapacity), events)
      && s == After(Initial(agentID, pdsCapacity, fiesCapacity), events);
    InvariantInitially(agentID, pdsCapacity, fiesCapacity);
    RunKeepsInvariant(Initial(agentID, pdsCapacity, fiesCapacity), events);
  }
}
