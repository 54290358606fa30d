// The caracal prober as an object: each method is one atomic action of one of its goroutines, changes the
// fields the program changes, and is proved to take the step of that name in the state machine ProbeTable.
module CaracalProber {
  import opened Wrappers
  import opened GoNumbers
  import opened Directives
  import opened CaracalRecords
  import opened ProbeTable
  import opened ProbeTableInvariants
  import opened ProbeTableTheorems
  import opened Totals

  // ----- what the search over the offsets looks for -----

  function Distance(a: int, b: int): (d: nat)
    ensures d == 0 <==> a == b
  {
    if a < b then b - a else a - b
  }

  predicate IsCandidate(inFlight: map<ProbeKey, InFlightProbe>, key: ProbeKey, k: ProbeKey) {
    && k in inFlight
    && k.tuple == key.tuple
    && Distance(k.correlationSecond, key.correlationSecond) <= 2
  }

  /** The nearest candidate in time, the earlier of two equally near ones. */
  ghost predicate IsNearest(inFlight: map<ProbeKey, InFlightProbe>, key: ProbeKey, k: ProbeKey) {
    && IsCandidate(inFlight, key, k)
    && forall other :: IsCandidate(inFlight, key, other) ==>
         var near := Distance(k.correlationSecond, key.correlationSecond);
         var far := Distance(other.correlationSecond, key.correlationSecond);
         near < far || (near == far && k.correlationSecond <= other.correlationSecond)
  }

  lemma NearestIsUnique(inFlight: map<ProbeKey, InFlightProbe>, key: ProbeKey, k: ProbeKey, k': ProbeKey)
    requires IsNearest(inFlight, key, k) && IsNearest(inFlight, key, k')
    ensures k == k'
  {
    assert IsCandidate(inFlight, key, k) && IsCandidate(inFlight, key, k');
  }

  predicate MissedBefore(inFlight: map<ProbeKey, InFlightProbe>, key: ProbeKey, i: nat)
    requires i <= |OFFSETS|
  {
    forall j :: 0 <= j < i ==> SearchKey(key, j) !in inFlight
  }

  /** The first entry met is at offset `i` and belongs to channel `target`. */
  predicate HitAt(inFlight: map<ProbeKey, InFlightProbe>, key: ProbeKey, i: nat, target: nat) {
    && i < |OFFSETS| && MissedBefore(inFlight, key, i)
    && SearchKey(key, i) in inFlight
    && inFlight[SearchKey(key, i)].resultCh == target
  }

  /** The offset order 0, -1, 1, -2, 2 visits every candidate, nearest and earliest first. */
  lemma OffsetsVisitNearestFirst(inFlight: map<ProbeKey, InFlightProbe>, key: ProbeKey, i: nat)
    requires i <= |OFFSETS| && MissedBefore(inFlight, key, i)
    ensures i == |OFFSETS| ==> forall k :: !IsCandidate(inFlight, key, k)
    ensures i < |OFFSETS| && SearchKey(key, i) in inFlight ==> IsNearest(inFlight, key, SearchKey(key, i))
  {
    forall k | IsCandidate(inFlight, key, k)
      ensures exists j :: i <= j < |OFFSETS| && k == SearchKey(key, j)
    {
      var j := match k.correlationSecond - key.correlationSecond
        case 0 => 0 case -1 => 1 case 1 => 2 case -2 => 3 case _ => 4;
      assert k == SearchKey(key, j);
    }
  }

  function ReadAction(record: Record, line: Option<nat>): ReaderAction {
    if line.Some? then Read(record, line.value) else ReadUnusable(record)
  }

  /** A record caracal sends for a line is not rejected, and a usable one carries the line's 5-tuple. */
  lemma ReportedRecords(s: State, record: Record, line: Option<nat>)
    requires ReaderEnabled(s, ReadAction(record, line))
    ensures line.Some? ==> line.value < |s.written| && !Classify(record).Rejected?
    ensures Classify(record).Accepted? ==>
      line.Some? && Classify(record).key.tuple == TupleOf(s.written[line.value].pd, s.written[line.value].ttl)
  {
    if line.Some? {
      EchoedRecordsCarryTheTuple(s.written[line.value].pd, s.written[line.value].ttl, record);
    }
  }

  /** What reading a record changes. */
  lemma ReadingChanges(s: State, record: Record, line: Option<nat>)
    requires Reachable(s) && ReaderEnabled(s, ReadAction(record, line))
    ensures Reachable(Step(s, ByReader(ReadAction(record, line))))
    ensures var m := s.tally.(records := s.tally.records + 1);
      Step(s, ByReader(ReadAction(record, line))) ==
        match Classify(record)
        case Rejected => s.(tally := m.(rejected := m.rejected + 1))
        case Skipped => s.(tally := m.(skipped := m.skipped + 1))
        case Accepted(key, result) =>
          var cause := if line.Some? then s.written[line.value].resultCh else 0;
          s.(reader := Searching(key, result, record, cause, 0), tally := m)
  {
    ReachableStep(s, ByReader(ReadAction(record, line)));
  }

  lemma SubsetSize(part: set<ProbeKey>, whole: set<ProbeKey>)
    requires part <= whole
    ensures |whole - part| == |whole| - |part|
  {
    assert whole == part + (whole - part);
  }

  lemma DeliveryHasTarget(s: State)
    requires Reachable(s) && s.reader.Delivering?
    ensures s.reader.target < |s.calls|
  {
    InvariantHolds(s);
  }

  class CaracalProber {
    const timeout: int
    const capacity: nat
    var now: int
    var calls: seq<Call>
    var inFlight: map<ProbeKey, InFlightProbe>
    var writeQueue: seq<ProbeRequest>
    var writer: Writer
    var written: seq<ProbeRequest>   // history, which names the cause of a reply
    ghost var enqueued: seq<ProbeRequest>
    var reader: Reader
    var cleaner: Cleaner
    var meters: Meters
    var tally: Tally

    ghost function Table(): State
      reads this
    {
      State(timeout, capacity, now, calls, inFlight, writeQueue, writer, written, enqueued, reader, cleaner, meters,
        tally)
    }

    /** The object is in a state some run of the state machine reaches. */
    ghost predicate Valid()
      reads this
    {
      Reachable(Table())
    }

    constructor (timeout: int, capacity: nat, now: int)
      requires timeout > 0
      ensures Valid() && Table() == Initial(timeout, capacity, now)
    {
      this.timeout := timeout;
      this.capacity := capacity;
      this.now := now;
      calls := [];
      inFlight := map[];
      writeQueue := [];
      writer := WriterReady;
      written, enqueued := [], [];
      reader := Reading;
      cleaner := CleanerIdle;
      meters := Meters(0, 0, 0, 0, 0, 0);
      tally := Tally(0, 0, 0, 0, 0, 0);
      new;
      InitiallyReachable(timeout, capacity, now);
    }

    // ----- Probe -----

    /** The call's locals: a result channel, the time and the key. */
    method BeginProbe(pd: Directive, ttl: uint8) returns (c: nat)
      requires Valid()
      modifies this`calls
      ensures Valid() && Table() == Step(old(Table()), Arrive(pd, ttl))
      ensures c == |old(calls)| && |calls| == c + 1 && calls[..c] == old(calls)
      ensures calls[c].phase.Arrived? && calls[c].inbox.None? && calls[c].queued == now
      ensures calls[c].key.tuple == TupleOf(pd, ttl)
      ensures calls[c].key.correlationSecond * SECOND <= now < (calls[c].key.correlationSecond + 1) * SECOND
    {
      ReachableStep(Table(), Arrive(pd, ttl));
      c := |calls|;
      var key := BuildProbeKeyFromDirective(pd, ttl, Unix(now));
      calls := calls + [Call(pd, ttl, now, key, now, Arrived, None, [])];
    }

    /** The locked part of the registration. */
    method Register(c: nat) returns (accepted: bool)
      requires Valid() && CallerEnabled(Table(), c, CallerAction.Register)
      modifies this`calls, this`inFlight, this`meters
      ensures Valid() && Table() == Step(old(Table()), ByCaller(c, CallerAction.Register))
      ensures accepted <==> calls[c].key !in old(inFlight)
      ensures accepted ==> Table().Owns(c) && inFlight.Keys == old(inFlight).Keys + {calls[c].key}
      ensures !accepted ==> inFlight == old(inFlight) && calls[c].Rejected()
    {
      ReachableStep(Table(), ByCaller(c, CallerAction.Register));
      var key := calls[c].key;
      if key in inFlight {
        calls := calls[c := calls[c].(phase := Rejecting(inFlight[key].resultCh))];
        return false;
      }
      inFlight := inFlight[key := InFlightProbe(c, calls[c].queued)];
      meters := meters.(inFlightProbes := meters.inFlightProbes + 1, registered := meters.registered + 1);
      calls := calls[c := calls[c].(phase := Registered, locked := now)];
      return true;
    }

    /** The rejected call counts itself after the unlock, and returns ErrDuplicatePD. */
    method CountDuplicate(c: nat)
      requires Valid() && CallerEnabled(Table(), c, CallerAction.CountDuplicate)
      modifies this`calls, this`meters
      ensures Valid() && Table() == Step(old(Table()), ByCaller(c, CallerAction.CountDuplicate))
      ensures meters.duplicateProbes == Total(calls, Rejections)
    {
      ReachableStep(Table(), ByCaller(c, CallerAction.CountDuplicate));
      meters := meters.(duplicateProbes := meters.duplicateProbes + 1);
      calls := calls[c := calls[c].(phase := Returned(Duplicate(calls[c].phase.blocker)))];
      GaugeIsTableSize(Table());
    }

    method Enqueue(c: nat)
      requires Valid() && CallerEnabled(Table(), c, CallerAction.Enqueue)
      modifies this`calls, this`writeQueue, this`enqueued
      ensures Valid() && Table() == Step(old(Table()), ByCaller(c, CallerAction.Enqueue))
      ensures |writeQueue| <= capacity
    {
      ReachableStep(Table(), ByCaller(c, CallerAction.Enqueue));
      var request := ProbeRequest(calls[c].pd, calls[c].ttl, c);
      writeQueue := writeQueue + [request];
      enqueued := enqueued + [request];
      calls := calls[c := calls[c].(phase := Enqueued)];
    }

    method StartTimer(c: nat)
      requires Valid() && CallerEnabled(Table(), c, CallerAction.StartTimer)
      modifies this`calls
      ensures Valid() && Table() == Step(old(Table()), ByCaller(c, CallerAction.StartTimer))
      ensures calls[c].queued <= calls[c].locked <= calls[c].phase.started == now
    {
      ReachableStep(Table(), ByCaller(c, CallerAction.StartTimer));
      calls := calls[c := calls[c].(phase := Waiting(now))];
      InvariantHolds(Table());
      assert TimelyCall(calls[c], now);
    }

    /** The second select takes the result waiting in the channel. */
    method Receive(c: nat) returns (d: Delivery)
      requires Valid() && CallerEnabled(Table(), c, CallerAction.Receive)
      modifies this`calls
      ensures Valid() && Table() == Step(old(Table()), ByCaller(c, CallerAction.Receive))
      ensures old(calls[c].inbox) == Some(d) && calls[c].delivered == [d] && calls[c].inbox.None?
    {
      InvariantHolds(Table());
      assert ChannelKept(calls[c]);
      ReachableStep(Table(), ByCaller(c, CallerAction.Receive));
      d := calls[c].inbox.value;
      calls := calls[c := calls[c].(phase := Leaving(Replied(d)), inbox := None)];
    }

    /** The timer fires. */
    method Expire(c: nat)
      requires Valid() && CallerEnabled(Table(), c, CallerAction.Expire)
      modifies this`calls
      ensures Valid() && Table() == Step(old(Table()), ByCaller(c, CallerAction.Expire))
      ensures now >= calls[c].queued + timeout
    {
      InvariantHolds(Table());
      assert TimelyCall(calls[c], now);
      ReachableStep(Table(), ByCaller(c, CallerAction.Expire));
      calls := calls[c := calls[c].(phase := Leaving(TimedOut))];
    }

    /** Either select takes its ctx.Done() case. */
    method Abandon(c: nat)
      requires Valid() && (CallerEnabled(Table(), c, AbandonQueue) || CallerEnabled(Table(), c, AbandonWait))
      modifies this`calls
      ensures Valid()
      ensures old(calls[c].phase.Registered?) ==> Table() == Step(old(Table()), ByCaller(c, AbandonQueue))
      ensures old(calls[c].phase.Waiting?) ==> Table() == Step(old(Table()), ByCaller(c, AbandonWait))
      ensures calls[c].phase == Leaving(Cancelled) && CallRank(calls[c]) <= 3
    {
      ReachableStep(Table(), ByCaller(c, if calls[c].phase.Registered? then AbandonQueue else AbandonWait));
      calls := calls[c := calls[c].(phase := Leaving(Cancelled))];
    }

    /** The locked part of the deferred function: an unconditional delete. */
    method Remove(c: nat) returns (stillPresent: bool)
      requires Valid() && CallerEnabled(Table(), c, CallerAction.Remove)
      modifies this`calls, this`inFlight, this`meters
      ensures Valid() && Table() == Step(old(Table()), ByCaller(c, CallerAction.Remove))
      ensures stillPresent <==> calls[c].key in old(inFlight)
      ensures inFlight.Keys == old(inFlight).Keys - {calls[c].key}
    {
      ReachableStep(Table(), ByCaller(c, CallerAction.Remove));
      var key, outcome := calls[c].key, calls[c].phase.outcome;
      stillPresent := key in inFlight;
      ghost var before := inFlight;
      inFlight := inFlight - {key};
      if stillPresent {
        calls := calls[c := calls[c].(phase := Discounting(outcome))];
        meters := meters.(ownRemovals := meters.ownRemovals + 1);
      } else {
        assert inFlight == before;
        calls := calls[c := calls[c].(phase := Returned(outcome))];
      }
    }

    /** The decrement after the unlock. */
    method Discount(c: nat)
      requires Valid() && CallerEnabled(Table(), c, CallerAction.Discount)
      modifies this`calls, this`meters
      ensures Valid() && Table() == Step(old(Table()), ByCaller(c, CallerAction.Discount))
      ensures meters.inFlightProbes >= |inFlight|
    {
      ReachableStep(Table(), ByCaller(c, CallerAction.Discount));
      meters := meters.(inFlightProbes := meters.inFlightProbes - 1);
      calls := calls[c := calls[c].(phase := Returned(calls[c].phase.outcome))];
      GaugeIsTableSize(Table());
    }

    // ----- writerLoop -----

    method TakeRequest()
      requires Valid() && WriterEnabled(Table(), Take)
      modifies this`writer, this`writeQueue
      ensures Valid() && Table() == Step(old(Table()), ByWriter(Take))
      ensures writer.WriterHolding? && Genuine(calls, writer.request)
    {
      InvariantHolds(Table());
      ReachableStep(Table(), ByWriter(Take));
      writer := WriterHolding(writeQueue[0]);
      writeQueue := writeQueue[1..];
    }

    /** encodeAndSendProbe: the line caracal is given, or None when the write fails and the loop returns. */
    method EncodeAndSendProbe(fails: bool) returns (line: Option<Record>)
      requires Valid() && WriterEnabled(Table(), Write)
      modifies this`writer, this`written
      ensures Valid() && Table() == Step(old(Table()), ByWriter(if fails then FailWrite else Write))
      ensures fails <==> line.None?
      ensures line.Some? ==>
        && |written| == |old(written)| + 1
        && line.value == EncodeRequest(written[|written| - 1].pd, written[|written| - 1].ttl)
        && WritesHeader(line.value, written[|written| - 1].pd)
        && CellUint(line.value[3], 255) == Some(written[|written| - 1].ttl)
        && forall record, sentTime :: Echoes(record, line.value) ==>
             BuildProbeKey(record, sentTime)
             == Ok(BuildProbeKeyFromDirective(written[|written| - 1].pd, written[|written| - 1].ttl, Unix(sentTime)))
    {
      ReachableStep(Table(), ByWriter(if fails then FailWrite else Write));
      if fails {
        writer := WriterStopped(Some(writer.request));
        return None;
      }
      var request := writer.request;
      forall record, sentTime | Echoes(record, EncodeRequest(request.pd, request.ttl))
        ensures BuildProbeKey(record, sentTime)
          == Ok(BuildProbeKeyFromDirective(request.pd, request.ttl, Unix(sentTime)))
      {
        KeyRoundTrip(request.pd, request.ttl, record, sentTime);
      }
      RequestsCarryTheProbe(request.pd, request.ttl);
      written := written + [request];
      writer := WriterReady;
      return Some(EncodeRequest(request.pd, request.ttl));
    }

    // ----- readerLoop -----

    /**
     * handleResult up to the search, on a record caracal sends for line `line`, or for no line if the record
     * is unusable.
     */
    method HandleResult(record: Record, line: Option<nat>) returns (verdict: Verdict)
      requires Valid() && ReaderEnabled(Table(), ReadAction(record, line))
      modifies this`reader, this`tally
      ensures Valid() && Table() == Step(old(Table()), ByReader(ReadAction(record, line)))
      ensures line.Some? ==> !verdict.Rejected?
      ensures |record| < 17 ==> verdict.Rejected?
      ensures verdict.Accepted? ==>
        && line.Some?
        && reader == Searching(verdict.key, verdict.result, record, written[line.value].resultCh, 0)
        && ReadsAs(record, verdict.result)
        && (RttFits(Rtt(record)) ==>
             verdict.key.correlationSecond == (Micros(record) - 100 * Rtt(record)) / 1_000_000)
        && verdict.key.tuple == TupleOf(written[line.value].pd, written[line.value].ttl)
    {
      ReadingChanges(Table(), record, line);
      ReportedRecords(Table(), record, line);
      if Classify(record).Accepted? {
        AcceptedResults(record);
      }
      verdict := Classify(record);
      tally := tally.(records := tally.records + 1);
      if verdict.Accepted? {
        reader := Searching(verdict.key, verdict.result, record, written[line.value].resultCh, 0);
      } else if verdict.Rejected? {
        tally := tally.(rejected := tally.rejected + 1);
      } else {
        tally := tally.(skipped := tally.skipped + 1);
      }
    }

    /** One turn of the search: a single read-locked lookup. */
    method LookUp()
      requires Valid() && ReaderEnabled(Table(), ReaderAction.LookUp)
      modifies this`reader, this`tally
      ensures Valid() && Table() == Step(old(Table()), ByReader(ReaderAction.LookUp))
      ensures ReaderRank(Table()) < ReaderRank(old(Table()))
    {
      ReaderNeverBlocks(Table());
      ReachableStep(Table(), ByReader(ReaderAction.LookUp));
      var Searching(key, result, record, cause, next) := reader;
      if next >= |OFFSETS| {
        tally := tally.(correlationFailures := tally.correlationFailures + 1);
        reader := Reading;
        return;
      }
      var searchKey := key.(correlationSecond := key.correlationSecond + OFFSETS[next]);
      if searchKey in inFlight {
        reader := Delivering(inFlight[searchKey].resultCh, Delivery(result, key, record, cause));
      } else {
        reader := Searching(key, result, record, cause, next + 1);
      }
    }

    /** The select with a default: the result is dropped when the channel is full. */
    method Deliver() returns (sent: bool)
      requires Valid() && ReaderEnabled(Table(), ReaderAction.Deliver)
      modifies this`reader, this`calls, this`tally
      ensures Valid() && Table() == Step(old(Table()), ByReader(ReaderAction.Deliver))
      ensures sent <==> old(calls[reader.target].inbox.None?)
    {
      ReachableStep(Table(), ByReader(ReaderAction.Deliver));
      var Delivering(target, d) := reader;
      var call := calls[target];
      sent := call.inbox.None?;
      if sent {
        calls := calls[target := call.(inbox := Some(d), delivered := call.delivered + [d])];
        tally := tally.(delivered := tally.delivered + 1);
      } else {
        tally := tally.(dropped := tally.dropped + 1);
      }
      reader := Reading;
    }

    /** The five lookups of matchAndDeliverResult while nothing else happens. */
    method Search()
      requires Valid() && reader.Searching? && reader.next == 0
      modifies this`reader, this`tally
      ensures Valid() && !reader.Searching?
      ensures reader.Delivering? ==>
        && reader.delivery == Delivery(old(reader).result, old(reader).key, old(reader).record, old(reader).cause)
        && (exists i :: HitAt(inFlight, old(reader).key, i, reader.target))
        && tally == old(tally)
      ensures reader.Reading? ==>
        && MissedBefore(inFlight, old(reader).key, |OFFSETS|)
        && tally == old(tally).(correlationFailures := old(tally).correlationFailures + 1)
    {
      ghost var start := reader;
      while reader.Searching?
        invariant Valid()
        invariant !reader.Reading? ==> tally == old(tally)
        invariant reader.Searching? ==> reader == start.(next := reader.next) && reader.next <= |OFFSETS|
        invariant reader.Searching? ==> MissedBefore(inFlight, start.key, reader.next)
        invariant reader.Delivering? ==> reader.delivery == Delivery(start.result, start.key, start.record, start.cause)
        invariant reader.Delivering? ==> exists i :: HitAt(inFlight, start.key, i, reader.target)
        invariant reader.Reading? ==> MissedBefore(inFlight, start.key, |OFFSETS|)
        invariant reader.Reading? ==> tally == old(tally).(correlationFailures := old(tally).correlationFailures + 1)
        decreases reader.Searching?, if reader.Searching? then |OFFSETS| - reader.next else 0
      {
        ghost var next := reader.next;
        LookUp();
        assert reader.Delivering? ==> HitAt(inFlight, start.key, next, reader.target);
      }
    }

    /**
     * matchAndDeliverResult while nothing else happens: the result goes to the nearest in-flight probe with the
     * same 5-tuple at most two seconds away, if its channel has room, and a correlation failure is counted
     * exactly when there is no such probe.
     */
    method MatchAndDeliverResult() returns (ghost found: Option<ProbeKey>)
      requires Valid() && reader.Searching? && reader.next == 0
      modifies this`reader, this`calls, this`tally
      ensures Valid() && reader.Reading?
      ensures found.Some? ==> IsNearest(inFlight, old(reader).key, found.value)
      ensures found.None? ==> forall k :: !IsCandidate(inFlight, old(reader).key, k)
      ensures found.None? ==>
        calls == old(calls) && tally == old(tally).(correlationFailures := old(tally).correlationFailures + 1)
      ensures found.Some? ==>
        var target := inFlight[found.value].resultCh;
        var d := Delivery(old(reader).result, old(reader).key, old(reader).record, old(reader).cause);
        && target < |old(calls)|
        && if old(calls)[target].inbox.None? then
             calls == old(calls)[target :=
               old(calls)[target].(inbox := Some(d), delivered := old(calls)[target].delivered + [d])]
             && tally == old(tally).(delivered := old(tally).delivered + 1)
           else calls == old(calls) && tally == old(tally).(dropped := old(tally).dropped + 1)
    {
      ghost var key := reader.key;
      Search();
      if reader.Delivering? {
        ghost var i :| HitAt(inFlight, key, i, reader.target);
        OffsetsVisitNearestFirst(inFlight, key, i);
        found := Some(SearchKey(key, i));
        DeliveryHasTarget(Table());
        var _ := Deliver();
      } else {
        OffsetsVisitNearestFirst(inFlight, key, |OFFSETS|);
        found := None;
      }
    }

    // ----- cleanupLoop -----

    /** cleanupStaleProbes reads the clock before it takes the lock. */
    method StartSweep()
      requires Valid() && CleanerEnabled(Table(), CleanerAction.StartSweep)
      modifies this`cleaner
      ensures Valid() && Table() == Step(old(Table()), ByCleaner(CleanerAction.StartSweep))
      ensures forall c: nat :: TimerStillRunning(Table(), c) ==> calls[c].queued >= cleaner.cutoff
    {
      ReachableStep(Table(), ByCleaner(CleanerAction.StartSweep));
      cleaner := CleanerSweeping(now - timeout - STALE_MARGIN);
    }

    /** The loop over the map, in whatever order the keys come. */
    method DeleteStale(cutoff: int) returns (cleaned: nat)
      modifies this`inFlight
      ensures inFlight == Fresh(old(inFlight), cutoff)
      ensures cleaned == |old(inFlight).Keys - inFlight.Keys|
    {
      ghost var before := inFlight;
      var keys := inFlight.Keys;
      cleaned := 0;
      while keys != {}
        invariant keys <= inFlight.Keys <= before.Keys
        invariant forall k :: k in inFlight ==> inFlight[k] == before[k]
        invariant forall k :: k in before && k !in keys ==> (k in inFlight <==> before[k].queuedTime >= cutoff)
        invariant cleaned + |inFlight| == |before|
        decreases keys
      {
        var k :| k in keys;
        if inFlight[k].queuedTime < cutoff {
          KeyRemoved(inFlight, k);
          inFlight := inFlight - {k};
          cleaned := cleaned + 1;
        }
        keys := keys - {k};
      }
      SubsetSize(inFlight.Keys, before.Keys);
    }

    /** The lock region of cleanupStaleProbes: exactly the entries queued before the cutoff go, and are counted. */
    method Sweep() returns (cleaned: nat)
      requires Valid() && CleanerEnabled(Table(), CleanerAction.Sweep)
      modifies this`inFlight, this`cleaner, this`meters
      ensures Valid() && Table() == Step(old(Table()), ByCleaner(CleanerAction.Sweep))
      ensures cleaned == |old(inFlight).Keys - inFlight.Keys|
      ensures forall k :: k in inFlight <==> k in old(inFlight) && old(inFlight)[k].queuedTime >= old(cleaner).cutoff
    {
      ReachableStep(Table(), ByCleaner(CleanerAction.Sweep));
      cleaned := DeleteStale(cleaner.cutoff);
      meters := meters.(swept := meters.swept + cleaned);
      cleaner := if cleaned > 0 then CleanerReporting(cleaned) else CleanerIdle;
    }

    /** The counter after the unlock. */
    method ReportSweep()
      requires Valid() && CleanerEnabled(Table(), CleanerAction.ReportSweep)
      modifies this`cleaner, this`meters
      ensures Valid() && Table() == Step(old(Table()), ByCleaner(CleanerAction.ReportSweep))
      ensures meters.staleProbesCleaned == meters.swept
    {
      InvariantHolds(Table());
      ReachableStep(Table(), ByCleaner(CleanerAction.ReportSweep));
      meters := meters.(staleProbesCleaned := meters.staleProbesCleaned + cleaner.cleaned);
      cleaner := CleanerLowering(cleaner.cleaned);
    }

    /** cleanupLoop returns when the prober's own context is done. */
    method StopSweeping()
      requires Valid() && CleanerEnabled(Table(), CleanerAction.StopSweeping)
      modifies this`cleaner
      ensures Valid() && Table() == Step(old(Table()), ByCleaner(CleanerAction.StopSweeping))
    {
      ReachableStep(Table(), ByCleaner(CleanerAction.StopSweeping));
      cleaner := CleanerStopped;
    }

    /** The gauge after the counter. */
    method LowerGauge()
      requires Valid() && CleanerEnabled(Table(), CleanerAction.LowerGauge)
      modifies this`cleaner, this`meters
      ensures Valid() && Table() == Step(old(Table()), ByCleaner(CleanerAction.LowerGauge))
      ensures meters.inFlightProbes >= |inFlight|
    {
      ReachableStep(Table(), ByCleaner(CleanerAction.LowerGauge));
      meters := meters.(inFlightProbes := meters.inFlightProbes - cleaner.cleaned);
      cleaner := CleanerIdle;
      GaugeIsTableSize(Table());
    }
  }
}
