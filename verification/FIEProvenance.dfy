// From a directive's two probes, through the in-flight table, to its forwarding information element.
module FIEProvenance {
  import opened Wrappers
  import opened GoNumbers
  import opened Directives
  import opened CaracalRecords
  import opened ProbeTable
  import opened ProbeTableInvariants
  import opened ProbeTableTheorems
  import opened Attribution
  import opened ForwardingInfo

  /** Call `c` of Probe has returned. */
  predicate HasReturned(s: State, c: nat) {
    c < |s.calls| && s.calls[c].phase.Returned?
  }

  /** What it returned: a timed-out result carries the time the call was queued. */
  function ReturnOf(s: State, c: nat): ProbeReturn
    requires HasReturned(s, c)
  {
    match s.calls[c].phase.outcome
    case Duplicate(_) => DuplicatePD
    case Replied(d) => Completed(d.result)
    case TimedOut => Completed(ProbeResult(None, None, s.calls[c].queued, ZERO_TIME, true))
    case Cancelled => ProbeError
  }

  /** The two calls processPD makes for a directive. */
  predicate ProbesOf(s: State, pd: Directive, near: nat, far: nat) {
    && HasReturned(s, near) && HasReturned(s, far)
    && s.calls[near].pd == pd && s.calls[near].ttl == pd.nearTTL
    && s.calls[far].pd == pd && s.calls[far].ttl == FarTTL(pd)
  }

  /**
   * The info was made from a record caracal reported under the directive's own 5-tuple at this TTL: the address in its
   * column 8 replied, at its capture time, to a probe sent its RTT earlier.
   */
  ghost predicate MadeFrom(info: Info, pd: Directive, ttl: uint8, d: Delivery) {
    && d.key.tuple == TupleOf(pd, ttl)
    && ReadsAs(d.record, d.result)
    && info.probeTTL == ttl
    && info.replyAddress == (if d.record[8].Literal? then Some(d.record[8].ip) else None)
    && info.receivedTimestamp == 1_000 * Micros(d.record)
    && info.sentTimestamp == 1_000 * Micros(d.record) + Wrap64(-100_000 * Rtt(d.record))
  }

  lemma InfoProvenance(s: State, c: nat)
    requires Reachable(s) && HasReturned(s, c) && ReturnOf(s, c).Completed?
    ensures var info := ProbeResultToInfo(ReturnOf(s, c).result, s.calls[c].ttl);
      && (info.None? <==> s.calls[c].phase.outcome.TimedOut?)
      && (info.Some? ==> exists d: Delivery ::
            Answers(s, c, d) && MadeFrom(info.value, s.calls[c].pd, s.calls[c].ttl, d))
  {
    if s.calls[c].phase.outcome.Replied? {
      var d := s.calls[c].phase.outcome.delivery;
      assert Answers(s, c, d);
      AnswersFit(s, c, d);
      assert MadeFrom(ProbeResultToInfo(d.result, s.calls[c].ttl).value, s.calls[c].pd, s.calls[c].ttl, d);
    }
  }

  /**
   * From directive to FIE. In every run, the infos of a FIE carry NearTTL and NearTTL + 1, which does not wrap;
   * each comes from a record with the directive's destination, protocol and half words and that very TTL, and is
   * absent exactly when that probe timed out; and the two probes neither blocked nor answered for each other.
   */
  lemma FIEProvenance(s: State, agentID: string, pd: Directive, near: nat, far: nat)
    requires Reachable(s) && Valid(pd) && ProbesOf(s, pd, near, far)
    requires ProcessPD(agentID, pd, ReturnOf(s, near), ReturnOf(s, far)).Forward?
    ensures var fie := ProcessPD(agentID, pd, ReturnOf(s, near), ReturnOf(s, far)).fie;
      && fie.agentID == agentID && fie.directiveID == pd.id
      && fie.destinationAddress == pd.destination && fie.protocol == pd.protocol
      && (fie.nearInfo.None? <==> s.calls[near].phase.outcome.TimedOut?)
      && (fie.farInfo.None? <==> s.calls[far].phase.outcome.TimedOut?)
      && (fie.nearInfo.Some? ==> (
            && fie.nearInfo.value.probeTTL == pd.nearTTL
            && exists d: Delivery ::
                 Answers(s, near, d) && d.cause != far && MadeFrom(fie.nearInfo.value, pd, pd.nearTTL, d)))
      && (fie.farInfo.Some? ==> (
            && fie.farInfo.value.probeTTL == pd.nearTTL + 1
            && exists d: Delivery ::
                 Answers(s, far, d) && d.cause != near && MadeFrom(fie.farInfo.value, pd, pd.nearTTL + 1, d)))
  {
    InfoProvenance(s, near);
    InfoProvenance(s, far);
    SiblingsNeverCollide(s, near, far);
  }

  /** The address in column 2 of the record a call was answered with; a call that timed out has none. */
  function AnswerSource(call: Call): Option<IP> {
    match call.phase
    case Returned(Replied(d)) =>
      if |d.record| >= 17 && d.record[2].Literal? then Some(d.record[2].ip) else None
    case _ => None
  }

  lemma OfferedByRecord(s: State, c: nat)
    requires Reachable(s) && HasReturned(s, c) && ReturnOf(s, c).Completed?
    ensures Offered(ReturnOf(s, c).result) == AnswerSource(s.calls[c])
  {
    if s.calls[c].phase.outcome.Replied? {
      AnswersFit(s, c, s.calls[c].phase.outcome.delivery);
    }
  }

  /** A FIE's source address is the near record's, if that one holds an address, and otherwise the far record's. */
  lemma SourceProvenance(s: State, agentID: string, pd: Directive, near: nat, far: nat)
    requires Reachable(s) && ProbesOf(s, pd, near, far)
    requires ProcessPD(agentID, pd, ReturnOf(s, near), ReturnOf(s, far)).Forward?
    ensures var nearSource, farSource := AnswerSource(s.calls[near]), AnswerSource(s.calls[far]);
      ProcessPD(agentID, pd, ReturnOf(s, near), ReturnOf(s, far)).fie.sourceAddress ==
        if nearSource.Some? then nearSource else farSource
  {
    OfferedByRecord(s, near);
    OfferedByRecord(s, far);
  }

  /** What Probe returns says how the call ended; a timed-out result carries the clock reading and no address. */
  lemma ReturnsSayHowCallsEnded(s: State, c: nat)
    requires Reachable(s) && HasReturned(s, c)
    ensures ReturnOf(s, c) == DuplicatePD <==> s.calls[c].Rejected()
    ensures ReturnOf(s, c) == ProbeError <==> HasOutcome(s.calls[c], Cancelled)
    ensures ReturnOf(s, c).Completed? && ReturnOf(s, c).result.timedOut ==>
      var result := ReturnOf(s, c).result;
      && s.now >= result.sentTime + s.timeout && Unix(result.sentTime) == s.calls[c].key.correlationSecond
      && result.sourceAddress.None? && result.replyAddress.None?
    ensures ReturnOf(s, c).Completed? && !ReturnOf(s, c).result.timedOut ==>
      exists d: Delivery :: Answers(s, c, d) && d.result == ReturnOf(s, c).result
  {
    ClocksFit(s, c);
    match s.calls[c].phase.outcome
    case TimedOut => TimeoutsAreNotEarly(s, c);
    case Replied(d) =>
      assert Answers(s, c, d);
      AnswersFit(s, c, d);
    case _ =>
  }

  /** A probe given up at either select returns the context's error in every continuation; its directive is dropped. */
  lemma AbandonedProbesFail(s: State, a: CallerAction, events: seq<Event>, c: nat)
    requires (a.AbandonQueue? || a.AbandonWait?) && CallerEnabled(s, c, a)
    requires Feasible(Step(s, ByCaller(c, a)), events)
    requires HasReturned(After(Step(s, ByCaller(c, a)), events), c)
    ensures var t := After(Step(s, ByCaller(c, a)), events);
      && ReturnOf(t, c) == ProbeError
      && forall agentID: string, pd: Directive, other: ProbeReturn ::
           ProcessPD(agentID, pd, ReturnOf(t, c), other).Drop? && ProcessPD(agentID, pd, other, ReturnOf(t, c)).Drop?
  {
    OutcomesAreDecidedByTheSelects(s, ByCaller(c, a), c);
    OutcomeIsFinal(Step(s, ByCaller(c, a)), events, c, Cancelled);
  }

  /**
   * A directive yields no FIE exactly when one of its probes was a duplicate or was cancelled; a duplicate is
   * always of another directive's probe, never of its sibling.
   */
  lemma NoFIEIff(s: State, agentID: string, pd: Directive, near: nat, far: nat)
    requires Reachable(s) && ProbesOf(s, pd, near, far)
    ensures ProcessPD(agentID, pd, ReturnOf(s, near), ReturnOf(s, far)).Drop? <==>
      || s.calls[near].phase.outcome.Duplicate? || s.calls[near].phase.outcome.Cancelled?
      || s.calls[far].phase.outcome.Duplicate? || s.calls[far].phase.outcome.Cancelled?
    ensures s.calls[near].phase.outcome.Duplicate? ==> s.calls[near].phase.outcome.blocker !in {near, far}
    ensures s.calls[far].phase.outcome.Duplicate? ==> s.calls[far].phase.outcome.blocker !in {near, far}
  {
    SiblingsNeverCollide(s, near, far);
    RejectionsAreExplained(s, near);
    RejectionsAreExplained(s, far);
  }

  lemma RejectionsAreExplained(s: State, c: nat)
    requires Reachable(s) && c < |s.calls|
    ensures Explained(s.calls, c)
  {
    InvariantHolds(s);
  }

  predicate Uncancelled(s: State, near: nat, far: nat)
    requires HasReturned(s, near) && HasReturned(s, far)
  {
    !s.calls[near].phase.outcome.Cancelled? && !s.calls[far].phase.outcome.Cancelled?
  }

  /**
   * One key second is the least spacing of equal 5-tuples under which every directive whose probes are not cancelled
   * yields a FIE, in every run.
   */
  lemma LeastSpacingForFIEs(spacing: int)
    ensures (forall s: State, agentID: string, pd: Directive, near: nat, far: nat ::
        Reachable(s) && ProbesOf(s, pd, near, far) && Uncancelled(s, near, far) && Apart(s, spacing)
        ==> ProcessPD(agentID, pd, ReturnOf(s, near), ReturnOf(s, far)).Forward?)
      <==> spacing >= 1
  {
    forall s: State, agentID: string, pd: Directive, near: nat, far: nat |
        spacing >= 1 && Reachable(s) && ProbesOf(s, pd, near, far) && Uncancelled(s, near, far) && Apart(s, spacing)
      ensures ProcessPD(agentID, pd, ReturnOf(s, near), ReturnOf(s, far)).Forward?
    {
      NoFIEIff(s, agentID, pd, near, far);
      LeastSpacingWithoutDuplicates(spacing);
    }
    if spacing < 1 {
      var s := DuplicateDirectiveRun();
      assert Apart(s, spacing) && Uncancelled(s, 1, 2);
      assert ProcessPD("", SOME_DIRECTIVE, ReturnOf(s, 1), ReturnOf(s, 2)).Drop?;
    }
  }

  /**
   * A valid directive that gets no FIE: it arrives twice in one second, and the near probe of the second finds
   * the first's still in flight. A FIE is therefore not sent for every directive.
   */
  lemma DuplicateDirectiveRun() returns (s: State)
    ensures Reachable(s) && Valid(SOME_DIRECTIVE) && ProbesOf(s, SOME_DIRECTIVE, 1, 2) && Uncancelled(s, 1, 2)
    ensures forall agentID: string ::
      ProcessPD(agentID, SOME_DIRECTIVE, ReturnOf(s, 1), ReturnOf(s, 2)) == Drop(DuplicateProbe)
  {
    s := RejectedCallRun();
    s := Extend(s, Arrive(SOME_DIRECTIVE, 2));
    s := FarProbeRun(s);
  }

  /** The far probe of the second directive registers, waits for its timer and returns. */
  lemma FarProbeRun(s: State) returns (t: State)
    requires Reachable(s) && |s.calls| == 3 && s.queue == [] && s.capacity == 1 && s.timeout == 1
    requires s.calls[2] == NewCall(SOME_DIRECTIVE, 2, s.now) && s.calls[2].key !in s.inFlight
    ensures Reachable(t) && |t.calls| == 3 && t.calls[..2] == s.calls[..2]
    ensures t.calls[2].phase == Returned(TimedOut) && t.calls[2].pd == SOME_DIRECTIVE && t.calls[2].ttl == 2
  {
    t := Extend(s, ByCaller(2, Register));
    t := Extend(t, ByCaller(2, Enqueue));
    t := Extend(t, ByCaller(2, StartTimer));
    t := Extend(t, Tick(s.now + 1));
    t := Extend(t, ByCaller(2, Expire));
    t := ReturnRun(t, 2);
  }

  lemma ReturnRun(s: State, c: nat) returns (t: State)
    requires Reachable(s) && c < |s.calls| && s.calls[c].phase.Leaving? && s.Owns(c)
    ensures Reachable(t)
    ensures t.calls == s.calls[c := s.calls[c].(phase := Returned(s.calls[c].phase.outcome))]
  {
    t := Extend(s, ByCaller(c, Remove));
    t := Extend(t, ByCaller(c, Discount));
  }
}
