// What the pipeline guarantees in every run: nothing panics, nothing is lost silently or sent twice, the depth
// counters are what they count, and a cancelled pipeline always comes to an end.
module PipelineTheorems {
  import opened Wrappers
  import opened Directives
  import opened ForwardingInfo
  import opened Pipeline
  import opened PipelineInvariants
  import opened Totals

  // ----- closing -----

  /**
   * No step ever sends on a closed channel or closes one twice: `pds` is closed once its only sender has stopped,
   * `fies` once every directive's goroutine has finished and the processor can start no more.
   */
  lemma ClosesAreSafe(s: State, e: Event)
    requires Reachable(s)
    ensures Enabled(s, e) ==> !Panics(s, e)
    ensures s.pdsClosed <==> s.reader.Returning? || s.reader.ReaderFinished?
    ensures s.fiesClosed <==> s.processor.ProcessorFinished?
    ensures s.fiesClosed ==> AllFinished(s.workers) && s.pdGoroutines == 0
  {
    InvariantHolds(s);
    if s.fiesClosed {
      FinishedTotals(s.workers);
    }
    if Enabled(s, e) {
      NothingPanics(s, e);
    }
  }

  lemma {:induction false} FinishedTotals(workers: seq<Worker>)
    requires AllFinished(workers)
    ensures Total(workers, Live) == Total(workers, Uncounted) == Total(workers, Carrying) == 0
  {
    if workers != [] {
      assert AllFinished(workers[1..]);
      FinishedTotals(workers[1..]);
    }
  }

  /**
   * The context is cancelled only from outside and, a step after it has returned, by a loop that failed; the connection
   * is closed by a step of its own, once the context is done; each channel is closed by its one closer.
   */
  lemma WhoCancelsAndCloses(s: State, e: Event)
    requires Enabled(s, e)
    ensures var t := Step(s, e);
      && (t.ctxDone <==> s.ctxDone || e in {Cancel, ByReader(ReaderCancels), ByWriter(WriterCancels)})
      && (t.connClosed <==> s.connClosed || (e == CloseConn && s.ctxDone))
      && (t.pdsClosed <==> s.pdsClosed || e == ByReader(ClosePDs))
      && (t.fiesClosed <==> s.fiesClosed || e == ByProcessor(CloseFIEs))
  {
    match e
    case ByReader(a) => ReaderCloses(s, a);
    case ByWriter(a) => WriterCloses(s, a);
    case _ =>
  }

  lemma ReaderCloses(s: State, a: ReaderAction)
    requires ReaderEnabled(s, a)
    ensures var t := ReaderStep(s, a);
      && (t.ctxDone <==> s.ctxDone || a.ReaderCancels?) && t.connClosed == s.connClosed
      && (t.pdsClosed <==> s.pdsClosed || a.ClosePDs?) && t.fiesClosed == s.fiesClosed
  {
  }

  lemma WriterCloses(s: State, a: WriterAction)
    requires WriterEnabled(s, a)
    ensures var t := WriterStep(s, a);
      && (t.ctxDone <==> s.ctxDone || a.WriterCancels?) && t.connClosed == s.connClosed
      && t.pdsClosed == s.pdsClosed && t.fiesClosed == s.fiesClosed
  {
  }

  /** A FIE is offered on an open channel with room, and comes last in it. */
  lemma OffersFindRoom(s: State, w: nat)
    requires Reachable(s) && WorkerEnabled(s, w, OfferFIE)
    ensures !s.fiesClosed && |s.fies| < s.fiesCapacity
    ensures var product := s.workers[w].stage.product;
      var t := s.(workers := Moved(s, w, Reporting), fies := s.fies + [product], offered := s.offered + [product]);
      Reachable(t) && t == Step(s, ByWorker(w, OfferFIE))
  {
    ClosesAreSafe(s, ByWorker(w, OfferFIE));
    OfferChanges(s, w);
    ReachableStep(s, ByWorker(w, OfferFIE));
  }

  // ----- conservation -----

  /** PDsReceivedTotal is the sum of what every stage holds, has lost, and has sent. */
  lemma EveryDirectiveIsAccountedFor(s: State)
    requires Reachable(s)
    ensures |s.accepted| == OfAny(s.reader.Holding?) + |s.pds| + OfAny(Carries(s.processor))
      + Total(s.workers, Carrying) + |s.fies| + OfAny(s.writer.Discounting? || s.writer.Sending?)
      + |s.lost| + |s.sent|
  {
    InvariantHolds(s);
  }

  /** Instances are distinct, so an item is accepted at most once, and only if it is the one of its number. */
  lemma {:induction false} AcceptedOnce(accepted: seq<Item>, x: Item)
    requires forall i :: 0 <= i < |accepted| ==> accepted[i].instance == i
    ensures Total(accepted, OfItem(x)) == if x.instance < |accepted| && accepted[x.instance] == x then 1 else 0
  {
    if accepted != [] {
      var last := |accepted| - 1;
      assert accepted == accepted[..last] + [accepted[last]];
      AcceptedOnce(accepted[..last], x);
      TotalAppend(accepted[..last], accepted[last], OfItem(x));
    }
  }

  /** The places of one directive. */
  lemma PlacesOf(s: State, x: Item)
    requires Reachable(s)
    ensures 0 <= Total(s.sent, OfProduct(x)) && 0 <= Total(s.fies, OfProduct(x)) && 0 <= Total(s.lost, OfLoss(x))
    ensures Total(s.sent, OfProduct(x)) + Total(s.fies, OfProduct(x)) + Total(s.lost, OfLoss(x)) <= Held(s, x)
    ensures Held(s, x) == if x.instance < |s.accepted| && s.accepted[x.instance] == x then 1 else 0
  {
    InvariantHolds(s);
    AcceptedOnce(s.accepted, x);
    TotalNonNegative(s.sent, OfProduct(x));
    TotalNonNegative(s.fies, OfProduct(x));
    TotalNonNegative(s.lost, OfLoss(x));
    TotalNonNegative(s.pds, OfItem(x));
    TotalNonNegative(s.workers, OfWorker(x));
  }

  /** FIEs map injectively to accepted directives: no directive ever gets two. */
  lemma AtMostOneFIE(s: State, i: nat, j: nat)
    requires Reachable(s) && i < j < |s.sent|
    ensures s.sent[i].item != s.sent[j].item
    ensures s.sent[i].item.instance != s.sent[j].item.instance
  {
    var x, y := s.sent[i].item, s.sent[j].item;
    PlacesOf(s, x);
    PlacesOf(s, y);
    TotalAtLeastBoth(s.sent, i, j, OfProduct(x));
    TotalAtLeast(s.sent, i, OfProduct(x));
    TotalAtLeast(s.sent, j, OfProduct(y));
  }

  /**
   * Every FIE sent is the one processPD makes of an accepted, valid directive and what its two probes returned,
   * and that directive was not dropped anywhere.
   */
  lemma SentFIEsAreForAcceptedDirectives(s: State, i: nat)
    requires Reachable(s) && i < |s.sent|
    ensures s.sent[i].item in s.accepted && Valid(s.sent[i].item.pd)
    ensures ProcessPD(s.agentID, s.sent[i].item.pd, s.sent[i].near, s.sent[i].far) == Forward(s.sent[i].fie)
    ensures forall j :: 0 <= j < |s.lost| ==> s.lost[j].item != s.sent[i].item
  {
    var x := s.sent[i].item;
    InvariantHolds(s);
    PlacesOf(s, x);
    TotalAtLeast(s.sent, i, OfProduct(x));
    assert s.accepted[x.instance] == x;
    forall j | 0 <= j < |s.lost|
      ensures s.lost[j].item != x
    {
      TotalAtLeast(s.lost, j, OfLoss(x));
    }
  }

  /** A directive that was lost gets no FIE. */
  lemma LostIsNotSent(s: State, x: Item)
    requires Reachable(s) && exists j :: 0 <= j < |s.lost| && s.lost[j].item == x
    ensures forall i :: 0 <= i < |s.sent| ==> s.sent[i].item != x
  {
    forall i: nat | i < |s.sent|
      ensures s.sent[i].item != x
    {
      SentFIEsAreForAcceptedDirectives(s, i);
    }
  }

  /** No two directives accepted have the same instance. */
  lemma InstancesAreNew(s: State, item: Item)
    requires Reachable(s) && item in s.accepted && item.instance + 1 == |s.accepted|
    ensures forall i :: 0 <= i < |s.accepted| - 1 ==> s.accepted[i].instance != item.instance
  {
    InvariantHolds(s);
  }

  /**
   * Directives are dispatched in the order they were accepted, and FIEs are sent in the order they were put in the
   * channel.
   */
  lemma OrderIsKept(s: State)
    requires Reachable(s)
    ensures Items(s.workers) <= s.accepted && s.sent <= s.offered
    ensures forall w: nat :: w < |s.workers| ==> s.workers[w].item.instance == w
  {
    InvariantHolds(s);
    assert Items(s.workers) <= Line(s);
    forall w: nat | w < |s.workers|
      ensures s.workers[w].item.instance == w
    {
      assert Items(s.workers)[w] == s.accepted[w];
    }
  }

  // ----- depth counters -----

  lemma {:induction false} UncountedAtMostLive(workers: seq<Worker>)
    ensures 0 <= Total(workers, Uncounted) <= Total(workers, Live)
  {
    if workers != [] {
      UncountedAtMostLive(workers[1..]);
    }
  }

  /**
   * pdsDepth is the length of `pds` give or take one on each side, whatever the interleaving; fiesDepth, with many
   * senders, can lag by as many as there are live directive goroutines; both are exact when nobody is in between.
   */
  lemma DepthsStayClose(s: State)
    requires Reachable(s)
    ensures -1 <= s.pdsDepth <= s.pdsCapacity + 1
    ensures -s.pdGoroutines <= s.fiesDepth <= s.fiesCapacity + 1
    ensures !s.reader.Counting? && !s.processor.Taken? ==> s.pdsDepth == |s.pds|
    ensures !s.writer.Discounting? && Total(s.workers, Uncounted) == 0 ==> s.fiesDepth == |s.fies|
  {
    InvariantHolds(s);
    UncountedAtMostLive(s.workers);
  }

  /** PDGoroutines counts the directive goroutines that have not ended, and the one about to start. */
  lemma GoroutinesAreCounted(s: State)
    requires Reachable(s)
    ensures s.pdGoroutines == Total(s.workers, Live) + OfAny(s.processor.Starting?) >= OfAny(s.processor.Starting?)
  {
    InvariantHolds(s);
    UncountedAtMostLive(s.workers);
  }

  // ----- shutdown -----

  function Rank(w: Worker): int {
    match w.stage
    case Probing(near, far) => 7 + (if near.None? then 1 else 0) + (if far.None? then 1 else 0)
    case Offering(_) => 6
    case Reporting => 2
    case Departing => 1
    case WorkerFinished => 0
  }

  function ReaderRank(r: ReaderStage): int {
    match r
    case Receiving => 3
    case Holding(_) => 18
    case Counting => 4
    case Closing => 2
    case Returning => 1
    case ReaderFinished => 0
  }

  function ProcessorRank(p: ProcessorStage): int {
    match p
    case Selecting => 2
    case Taken(_) => 14
    case Dispatching(_) => 13
    case Starting(_) => 12
    case Draining => 1
    case ProcessorFinished => 0
  }

  function WriterRank(w: WriterStage): int {
    match w
    case Awaiting => 1
    case Discounting(_) => 3
    case Sending(_) => 2
    case Failing => 1
    case WriterFinished => 0
  }

  /** The steps the pipeline can still take once the connection is closed, an upper bound. */
  function Remaining(s: State): int {
    ReaderRank(s.reader) + 13 * |s.pds| + ProcessorRank(s.processor) + Total(s.workers, Rank) + 3 * |s.fies|
      + WriterRank(s.writer)
  }

  lemma {:induction false} RankNonNegative(workers: seq<Worker>)
    ensures Total(workers, Rank) >= 0
  {
    if workers != [] {
      RankNonNegative(workers[1..]);
    }
  }

  lemma WorkerRankFalls(agentID: string, w: Worker, a: WorkerAction)
    requires StageAllows(w.stage, a)
    ensures Rank(w.(stage := NextStage(agentID, w, a))) + 3 * |Emitted(w, a)| < Rank(w)
  {
  }

  lemma ProcessorRankFalls(s: State, a: ProcessorAction)
    requires ProcessorEnabled(s, a)
    ensures Remaining(ProcessorStep(s, a)) < Remaining(s)
  {
    if a.Dispatch? {
      TotalAppend(s.workers, Worker(s.processor.item, Probing(None, None)), Rank);
    }
  }

  lemma ReaderRankFalls(s: State, a: ReaderAction)
    requires s.connClosed && ReaderEnabled(s, a)
    ensures Remaining(ReaderStep(s, a)) < Remaining(s)
  {
  }

  lemma WriterRankFalls(s: State, a: WriterAction)
    requires s.connClosed && WriterEnabled(s, a)
    ensures Remaining(WriterStep(s, a)) < Remaining(s)
  {
  }

  /** Once the connection is closed every step brings the end nearer. */
  lemma EveryStepCounts(s: State, e: Event)
    requires s.ctxDone && s.connClosed && Enabled(s, e)
    ensures Step(s, e).ctxDone && Step(s, e).connClosed
    ensures Remaining(Step(s, e)) < Remaining(s)
  {
    match e
    case ByWorker(w, a) =>
      WorkerRankFalls(s.agentID, s.workers[w], a);
      TotalUpdate(s.workers, w, s.workers[w].(stage := NextStage(s.agentID, s.workers[w], a)), Rank);
    case ByProcessor(a) => ProcessorRankFalls(s, a);
    case ByReader(a) => ReaderRankFalls(s, a);
    case ByWriter(a) => WriterRankFalls(s, a);
    case _ =>
  }

  /** Everything has returned: the four parties of the pipeline are finished. */
  predicate Finished(s: State) {
    s.reader.ReaderFinished? && s.processor.ProcessorFinished? && AllFinished(s.workers) && s.writer.WriterFinished?
  }

  /** The events a goroutine of the pipeline can take by itself once the context is done. */
  ghost predicate ReaderCanStep(s: State) {
    exists a: ReaderAction :: ReaderEnabled(s, a)
  }

  ghost predicate ProcessorCanStep(s: State) {
    exists a: ProcessorAction :: ProcessorEnabled(s, a)
  }

  ghost predicate WorkerCanStep(s: State, w: nat) {
    exists a: WorkerAction :: WorkerEnabled(s, w, a)
  }

  ghost predicate WriterCanStep(s: State) {
    exists a: WriterAction :: WriterEnabled(s, a)
  }

  /**
   * After cancellation nobody is stuck, however full the channels are: the reader, the writer and every
   * directive's goroutine can go on by themselves until they finish, and the processor waits for nothing but
   * those goroutines. Here a probe may return at any moment; SessionShutdown shows that it does.
   */
  lemma NobodyIsStuck(s: State)
    requires s.ctxDone
    ensures s.reader.ReaderFinished? || ReaderCanStep(s)
    ensures s.writer.WriterFinished? || WriterCanStep(s)
    ensures forall w: nat :: w < |s.workers| ==> s.workers[w].stage.WorkerFinished? || WorkerCanStep(s, w)
    ensures s.processor.ProcessorFinished? || ProcessorCanStep(s) || (s.processor.Draining? && !AllFinished(s.workers))
  {
    var ra := match s.reader
      case Receiving => Fail case Holding(_) => GiveUpPD case Counting => CountPD case Closing => ClosePDs
      case _ => ReaderCancels;
    assert s.reader.ReaderFinished? || ReaderEnabled(s, ra);
    var wa := match s.writer
      case Awaiting => StopAwaiting case Discounting(_) => DiscountFIE case Sending(_) => FailSend
      case _ => WriterCancels;
    assert s.writer.WriterFinished? || WriterEnabled(s, wa);
    var pa := match s.processor
      case Selecting => StopSelecting case Taken(_) => DiscountPD case Dispatching(_) => CountGoroutine
      case Starting(_) => Dispatch case _ => CloseFIEs;
    assert s.processor.ProcessorFinished? || ProcessorEnabled(s, pa)
      || (s.processor.Draining? && !AllFinished(s.workers));
    forall w: nat | w < |s.workers| && !s.workers[w].stage.WorkerFinished?
      ensures WorkerCanStep(s, w)
    {
      WorkerGoesOn(s, w);
    }
  }

  lemma WorkerGoesOn(s: State, w: nat)
    requires s.ctxDone && w < |s.workers| && !s.workers[w].stage.WorkerFinished?
    ensures WorkerCanStep(s, w)
  {
    var a := match s.workers[w].stage
      case Probing(near, far) =>
        if near.None? then NearReturns(ProbeError) else if far.None? then FarReturns(ProbeError) else Conclude
      case Offering(_) => GiveUpFIE
      case Reporting => ReportFIE
      case _ => Depart;
    assert WorkerEnabled(s, w, a);
  }

  /** A run from a closed connection has no more steps than remained. */
  lemma {:induction false} ShutdownTerminates(s: State, events: seq<Event>)
    requires s.ctxDone && s.connClosed && Feasible(s, events)
    ensures var t := After(s, events);
      t.ctxDone && t.connClosed && |events| + Remaining(t) <= Remaining(s) && Remaining(t) >= 0
    decreases |events|
  {
    RankNonNegative(s.workers);
    if events != [] {
      EveryStepCounts(s, events[0]);
      ShutdownTerminates(Step(s, events[0]), events[1..]);
    }
  }

  /**
   * A run that cannot go on after cancellation has ended well: every goroutine has returned, both channels are
   * closed, the gauges agree with the channels, and each accepted directive was sent, was counted as lost, or is
   * left in a channel nobody reads any more.
   */
  lemma ShutdownCompletes(s: State)
    requires Reachable(s) && s.ctxDone && s.connClosed
    ensures (forall e: Event :: !Enabled(s, e)) <==> Finished(s)
    ensures Finished(s) ==>
      && s.pdsClosed && s.fiesClosed && s.pdGoroutines == 0
      && s.pdsDepth == |s.pds| && s.fiesDepth == |s.fies|
      && |s.accepted| == |s.sent| + |s.lost| + |s.pds| + |s.fies|
  {
    InvariantHolds(s);
    if Finished(s) {
      FinishedTotals(s.workers);
      NothingAfterTheEnd(s);
    } else {
      SomethingBeforeTheEnd(s);
    }
  }

  lemma NothingAfterTheEnd(s: State)
    requires Finished(s) && s.ctxDone && s.connClosed
    ensures forall e: Event :: !Enabled(s, e)
  {
  }

  lemma SomethingBeforeTheEnd(s: State)
    requires s.ctxDone && !Finished(s)
    ensures exists e: Event :: Enabled(s, e)
  {
    NobodyIsStuck(s);
    if !s.reader.ReaderFinished? {
      var a :| ReaderEnabled(s, a);
      assert Enabled(s, ByReader(a));
    } else if !s.writer.WriterFinished? {
      var a :| WriterEnabled(s, a);
      assert Enabled(s, ByWriter(a));
    } else if !AllFinished(s.workers) {
      var w: nat :| w < |s.workers| && !s.workers[w].stage.WorkerFinished?;
      assert WorkerCanStep(s, w);
      var a :| WorkerEnabled(s, w, a);
      assert Enabled(s, ByWorker(w, a));
    } else {
      var a :| ProcessorEnabled(s, a);
      assert Enabled(s, ByProcessor(a));
    }
  }
}
