// The agent's pipeline as an object: each method is one atomic action of one of its goroutines, changes the
// fields the program changes, and is proved to take the step of that name in the state machine Pipeline.
module Agent {
  import opened Wrappers
  import opened Directives
  import opened ForwardingInfo
  import opened Pipeline
  import opened PipelineInvariants
  import opened PipelineTheorems

  class Agent {
    const agentID: string
    const pdsCapacity: nat
    const fiesCapacity: nat
    var ctxDone: bool
    var connClosed: bool
    var reader: ReaderStage
    var pds: seq<Item>
    var pdsClosed: bool
    var processor: ProcessorStage
    var workers: seq<Worker>
    var fies: seq<Product>
    var fiesClosed: bool
    var writer: WriterStage
    var pdsDepth: int
    var fiesDepth: int
    var pdGoroutines: int
    var accepted: seq<Item>
    ghost var lost: seq<Loss>
    ghost var offered: seq<Product>
    var sent: seq<Product>

    ghost function View(): State
      reads this
    {
      State(agentID, pdsCapacity, fiesCapacity, ctxDone, connClosed, reader, pds, pdsClosed, processor, workers, fies,
        fiesClosed, writer, pdsDepth, fiesDepth, pdGoroutines, accepted, lost, offered, sent)
    }

    /** The object is in a state some run of the state machine reaches. */
    ghost predicate Valid()
      reads this
    {
      Reachable(View())
    }

    constructor (agentID: string, pdsCapacity: nat, fiesCapacity: nat)
      ensures Valid() && View() == Initial(agentID, pdsCapacity, fiesCapacity)
    {
      this.agentID := agentID;
      this.pdsCapacity, this.fiesCapacity := pdsCapacity, fiesCapacity;
      ctxDone, connClosed := false, false;
      reader, processor, writer := Receiving, Selecting, Awaiting;
      pds, fies, workers := [], [], [];
      pdsClosed, fiesClosed := false, false;
      pdsDepth, fiesDepth, pdGoroutines := 0, 0, 0;
      accepted, lost, offered, sent := [], [], [], [];
      new;
      InitiallyReachable(agentID, pdsCapacity, fiesCapacity);
    }

    // ----- readerLoop -----

    /** A valid directive has been received. */
    method AcceptPD(pd: Directive)
      requires Valid() && ReaderEnabled(View(), Accept(pd))
      modifies this`reader, this`accepted
      ensures Valid() && View() == Step(old(View()), ByReader(Accept(pd)))
      ensures reader.Holding? && accepted == old(accepted) + [reader.item]
      ensures forall i :: 0 <= i < |old(accepted)| ==> accepted[i].instance != reader.item.instance
    {
      ReachableStep(View(), ByReader(Accept(pd)));
      var item := Item(|accepted|, pd);
      accepted := accepted + [item];
      reader := Holding(item);
      InstancesAreNew(View(), item);
    }

    method FailReceive()
      requires Valid() && ReaderEnabled(View(), Fail)
      modifies this`reader
      ensures Valid() && View() == Step(old(View()), ByReader(Fail))
      ensures !processor.Taken? ==> pdsDepth == |pds|
    {
      ReachableStep(View(), ByReader(Fail));
      reader := Closing;
      DepthsStayClose(View());
    }

    /** The select that sends the directive, or gives it up when `done`. */
    method ForwardPD(done: bool)
      requires Valid() && ReaderEnabled(View(), if done then GiveUpPD else SendPD)
      modifies this`reader, this`pds, this`lost
      ensures Valid() && View() == Step(old(View()), ByReader(if done then GiveUpPD else SendPD))
      ensures !done ==> !old(pdsClosed) && pds == old(pds) + [old(reader).item] && |pds| <= pdsCapacity
    {
      ReachableStep(View(), ByReader(if done then GiveUpPD else SendPD));
      ClosesAreSafe(View(), ByReader(SendPD));
      if done {
        lost := lost + [Loss(reader.item, ReaderCancelled)];
        reader := Closing;
      } else {
        pds := pds + [reader.item];
        reader := Counting;
      }
    }

    /** a.pdsDepth.Add(1) */
    method CountPD()
      requires Valid() && ReaderEnabled(View(), ReaderAction.CountPD)
      modifies this`reader, this`pdsDepth
      ensures Valid() && View() == Step(old(View()), ByReader(ReaderAction.CountPD))
      ensures -1 <= pdsDepth <= pdsCapacity + 1
    {
      ReachableStep(View(), ByReader(ReaderAction.CountPD));
      pdsDepth := pdsDepth + 1;
      reader := Receiving;
      DepthsStayClose(View());
    }

    /** The deferred close. */
    method ClosePDs()
      requires Valid() && ReaderEnabled(View(), ReaderAction.ClosePDs)
      modifies this`reader, this`pdsClosed
      ensures Valid() && View() == Step(old(View()), ByReader(ReaderAction.ClosePDs))
      ensures !old(pdsClosed) && pdsClosed
    {
      ReachableStep(View(), ByReader(ReaderAction.ClosePDs));
      ClosesAreSafe(View(), ByReader(ReaderAction.ClosePDs));
      pdsClosed := true;
      reader := Returning;
    }

    /** The error the reader has returned cancels the group. */
    method ReaderCancels()
      requires Valid() && ReaderEnabled(View(), ReaderAction.ReaderCancels)
      modifies this`reader, this`ctxDone
      ensures Valid() && View() == Step(old(View()), ByReader(ReaderAction.ReaderCancels))
      ensures ctxDone && pdsClosed
    {
      ReachableStep(View(), ByReader(ReaderAction.ReaderCancels));
      ClosesAreSafe(View(), ByReader(ReaderAction.ReaderCancels));
      ctxDone := true;
      reader := ReaderFinished;
    }

    // ----- processorLoop -----

    /** The processor's select: `more` unless it takes its ctx.Done() case or finds `pds` closed and empty. */
    method NextPD(done: bool) returns (more: bool)
      requires Valid() && processor.Selecting? && (if done then ctxDone else pds != [] || pdsClosed)
      modifies this`processor, this`pds
      ensures Valid() && View() == Step(old(View()), ByProcessor(
        if done then StopSelecting else if old(pds) != [] then TakePD else SeePDsClosed))
      ensures more ==> processor.Taken? && old(pds) == [processor.item] + pds
    {
      ReachableStep(View(), ByProcessor(if done then StopSelecting else if pds != [] then TakePD else SeePDsClosed));
      more := !done && pds != [];
      if more {
        processor := Taken(pds[0]);
        pds := pds[1..];
      } else {
        processor := Draining;
      }
    }

    /** a.pdsDepth.Add(-1) */
    method DiscountPD()
      requires Valid() && ProcessorEnabled(View(), ProcessorAction.DiscountPD)
      modifies this`processor, this`pdsDepth
      ensures Valid() && View() == Step(old(View()), ByProcessor(ProcessorAction.DiscountPD))
      ensures -1 <= pdsDepth <= pdsCapacity + 1
    {
      ReachableStep(View(), ByProcessor(ProcessorAction.DiscountPD));
      pdsDepth := pdsDepth - 1;
      processor := Dispatching(processor.item);
      DepthsStayClose(View());
    }

    /** a.metrics.PDGoroutines.Inc() */
    method CountGoroutine()
      requires Valid() && ProcessorEnabled(View(), ProcessorAction.CountGoroutine)
      modifies this`processor, this`pdGoroutines
      ensures Valid() && View() == Step(old(View()), ByProcessor(ProcessorAction.CountGoroutine))
      ensures pdGoroutines > 0
    {
      ReachableStep(View(), ByProcessor(ProcessorAction.CountGoroutine));
      pdGoroutines := pdGoroutines + 1;
      processor := Starting(processor.item);
      GoroutinesAreCounted(View());
    }

    /** wg.Go */
    method Dispatch() returns (w: nat)
      requires Valid() && ProcessorEnabled(View(), ProcessorAction.Dispatch)
      modifies this`processor, this`workers
      ensures Valid() && View() == Step(old(View()), ByProcessor(ProcessorAction.Dispatch))
      ensures w == |old(workers)| && workers == old(workers) + [Worker(old(processor).item, Probing(None, None))]
    {
      ReachableStep(View(), ByProcessor(ProcessorAction.Dispatch));
      w := |workers|;
      workers := workers + [Worker(processor.item, Probing(None, None))];
      processor := Selecting;
    }

    /** The deferred function: wg.Wait has returned. */
    method CloseFIEs()
      requires Valid() && ProcessorEnabled(View(), ProcessorAction.CloseFIEs)
      modifies this`processor, this`fiesClosed
      ensures Valid() && View() == Step(old(View()), ByProcessor(ProcessorAction.CloseFIEs))
      ensures !old(fiesClosed) && fiesClosed && pdGoroutines == 0
    {
      ReachableStep(View(), ByProcessor(ProcessorAction.CloseFIEs));
      ClosesAreSafe(View(), ByProcessor(ProcessorAction.CloseFIEs));
      fiesClosed := true;
      processor := ProcessorFinished;
      ClosesAreSafe(View(), Cancel);
    }

    // ----- processPD -----

    /** One of the two probes returns. */
    method ProbeReturns(w: nat, far: bool, r: ProbeReturn)
      requires Valid() && WorkerEnabled(View(), w, if far then FarReturns(r) else NearReturns(r))
      modifies this`workers
      ensures Valid() && View() == Step(old(View()), ByWorker(w, if far then FarReturns(r) else NearReturns(r)))
      ensures WorkerEnabled(View(), w, WorkerAction.Conclude) <==>
        if far then old(workers[w].stage.near.Some?) else old(workers[w].stage.far.Some?)
    {
      ReachableStep(View(), ByWorker(w, if far then FarReturns(r) else NearReturns(r)));
      QuietStepChanges(View(), w, if far then FarReturns(r) else NearReturns(r));
      var stage := workers[w].stage;
      workers := workers[w := workers[w].(stage := if far then stage.(far := Some(r)) else stage.(near := Some(r)))];
    }

    /** Both probes have returned: a FIE to offer, or a directive to drop. */
    method Conclude(w: nat)
      requires Valid() && WorkerEnabled(View(), w, WorkerAction.Conclude)
      modifies this`workers, this`lost
      ensures Valid() && View() == Step(old(View()), ByWorker(w, WorkerAction.Conclude))
      ensures workers[w].stage.Offering? <==>
        old(workers[w].stage.near.value.Completed?) && old(workers[w].stage.far.value.Completed?)
      ensures !workers[w].stage.Offering? ==> |lost| == |old(lost)| + 1 && lost[|lost| - 1].item == workers[w].item
    {
      ReachableStep(View(), ByWorker(w, WorkerAction.Conclude));
      ConcludeChanges(View(), w);
      var worker := workers[w];
      var near, far := worker.stage.near.value, worker.stage.far.value;
      var conclusion := ProcessPD(agentID, worker.item.pd, near, far);
      if conclusion.Forward? {
        workers := workers[w := worker.(stage := Offering(Product(worker.item, near, far, conclusion.fie)))];
      } else {
        lost := lost + [Loss(worker.item, conclusion.reason)];
        workers := workers[w := worker.(stage := Departing)];
      }
    }

    /** The select sends the FIE. */
    method OfferFIE(w: nat)
      requires Valid() && WorkerEnabled(View(), w, WorkerAction.OfferFIE)
      modifies this`workers, this`fies, this`offered
      ensures Valid() && View() == Step(old(View()), ByWorker(w, WorkerAction.OfferFIE))
      ensures !fiesClosed && |fies| <= fiesCapacity
    {
      OffersFindRoom(View(), w);
      var product := workers[w].stage.product;
      fies := fies + [product];
      offered := offered + [product];
      workers := workers[w := workers[w].(stage := Reporting)];
    }

    /** The select takes its ctx.Done() case. */
    method GiveUpFIE(w: nat)
      requires Valid() && WorkerEnabled(View(), w, WorkerAction.GiveUpFIE)
      modifies this`workers, this`lost
      ensures Valid() && View() == Step(old(View()), ByWorker(w, WorkerAction.GiveUpFIE))
      ensures forall i :: 0 <= i < |sent| ==> sent[i].item != workers[w].item
    {
      ReachableStep(View(), ByWorker(w, WorkerAction.GiveUpFIE));
      GiveUpChanges(View(), w);
      lost := lost + [Loss(workers[w].item, OfferCancelled)];
      workers := workers[w := workers[w].(stage := Departing)];
      assert lost[|lost| - 1].item == workers[w].item;
      LostIsNotSent(View(), workers[w].item);
    }

    /** a.fiesDepth.Add(1) */
    method ReportFIE(w: nat)
      requires Valid() && WorkerEnabled(View(), w, WorkerAction.ReportFIE)
      modifies this`workers, this`fiesDepth
      ensures Valid() && View() == Step(old(View()), ByWorker(w, WorkerAction.ReportFIE))
      ensures -pdGoroutines <= fiesDepth <= fiesCapacity + 1
    {
      ReachableStep(View(), ByWorker(w, WorkerAction.ReportFIE));
      QuietStepChanges(View(), w, WorkerAction.ReportFIE);
      fiesDepth := fiesDepth + 1;
      workers := workers[w := workers[w].(stage := Departing)];
      DepthsStayClose(View());
    }

    /** The deferred a.metrics.PDGoroutines.Dec(), and the end of the goroutine. */
    method Depart(w: nat)
      requires Valid() && WorkerEnabled(View(), w, WorkerAction.Depart)
      modifies this`workers, this`pdGoroutines
      ensures Valid() && View() == Step(old(View()), ByWorker(w, WorkerAction.Depart))
      ensures pdGoroutines >= 0
    {
      ReachableStep(View(), ByWorker(w, WorkerAction.Depart));
      QuietStepChanges(View(), w, WorkerAction.Depart);
      pdGoroutines := pdGoroutines - 1;
      workers := workers[w := workers[w].(stage := WorkerFinished)];
      GoroutinesAreCounted(View());
    }

    // ----- writerLoop -----

    /** The writer's select: `more` unless it takes its ctx.Done() case or finds `fies` closed and empty. */
    method NextFIE(done: bool) returns (more: bool)
      requires Valid() && writer.Awaiting? && (if done then ctxDone else fies != [] || fiesClosed)
      modifies this`writer, this`fies
      ensures Valid() && View() == Step(old(View()), ByWriter(
        if done then StopAwaiting else if old(fies) != [] then TakeFIE else SeeFIEsClosed))
      ensures more ==> writer.Discounting? && old(fies) == [writer.product] + fies
    {
      ReachableStep(View(), ByWriter(if done then StopAwaiting else if fies != [] then TakeFIE else SeeFIEsClosed));
      more := !done && fies != [];
      if more {
        writer := Discounting(fies[0]);
        fies := fies[1..];
      } else {
        writer := WriterFinished;
      }
    }

    /** a.fiesDepth.Add(-1) */
    method DiscountFIE()
      requires Valid() && WriterEnabled(View(), WriterAction.DiscountFIE)
      modifies this`writer, this`fiesDepth
      ensures Valid() && View() == Step(old(View()), ByWriter(WriterAction.DiscountFIE))
      ensures -pdGoroutines <= fiesDepth <= fiesCapacity + 1
    {
      ReachableStep(View(), ByWriter(WriterAction.DiscountFIE));
      fiesDepth := fiesDepth - 1;
      writer := Sending(writer.product);
      DepthsStayClose(View());
    }

    /** The conversion and framing.Send succeed. */
    method SendFIE()
      requires Valid() && WriterEnabled(View(), WriterAction.SendFIE)
      modifies this`writer, this`sent
      ensures Valid() && View() == Step(old(View()), ByWriter(WriterAction.SendFIE))
      ensures |sent| > 0 && forall i :: 0 <= i < |sent| - 1 ==> sent[i].item != sent[|sent| - 1].item
    {
      ReachableStep(View(), ByWriter(WriterAction.SendFIE));
      sent := sent + [writer.product];
      writer := Awaiting;
      forall i | 0 <= i < |sent| - 1
        ensures sent[i].item != sent[|sent| - 1].item
      {
        AtMostOneFIE(View(), i, |sent| - 1);
      }
    }

    /** One of them fails, and the loop returns the error. */
    method FailSend()
      requires Valid() && WriterEnabled(View(), WriterAction.FailSend)
      modifies this`writer, this`lost
      ensures Valid() && View() == Step(old(View()), ByWriter(WriterAction.FailSend))
      ensures forall i :: 0 <= i < |sent| ==> sent[i].item != old(writer).product.item
    {
      ReachableStep(View(), ByWriter(WriterAction.FailSend));
      ghost var item := writer.product.item;
      lost := lost + [Loss(item, WriteFailed)];
      writer := Failing;
      assert lost[|lost| - 1].item == item;
      LostIsNotSent(View(), item);
    }

    /** The error the writer has returned cancels the group. */
    method WriterCancels()
      requires Valid() && WriterEnabled(View(), WriterAction.WriterCancels)
      modifies this`writer, this`ctxDone
      ensures Valid() && View() == Step(old(View()), ByWriter(WriterAction.WriterCancels))
      ensures reader.ReaderFinished? || ReaderCanStep(View())
    {
      ReachableStep(View(), ByWriter(WriterAction.WriterCancels));
      ctxDone := true;
      writer := WriterFinished;
      NobodyIsStuck(View());
    }

    // ----- context and connection -----

    method CancelContext()
      requires Valid() && !ctxDone
      modifies this`ctxDone
      ensures Valid() && View() == Step(old(View()), Cancel)
      ensures ctxDone && connClosed == old(connClosed)
      ensures (reader.ReaderFinished? || ReaderCanStep(View())) && (writer.WriterFinished? || WriterCanStep(View()))
    {
      ReachableStep(View(), Cancel);
      ctxDone := true;
      NobodyIsStuck(View());
    }

    method CloseConnection()
      requires Valid() && Enabled(View(), CloseConn)
      modifies this`connClosed
      ensures Valid() && View() == Step(old(View()), CloseConn)
      ensures forall e: Event :: Enabled(View(), e) ==> Remaining(Step(View(), e)) < Remaining(View())
    {
      ReachableStep(View(), CloseConn);
      connClosed := true;
      forall e: Event | Enabled(View(), e)
        ensures Remaining(Step(View(), e)) < Remaining(View())
      {
        EveryStepCounts(View(), e);
      }
    }
  }
}
