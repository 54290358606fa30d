// readerLoop and handleDecodeError: which receive events end the connection, and what is forwarded before.
module ReaderLoop {
  import opened Wrappers
  import opened Directives

  const MAX_CONSECUTIVE_READ_TIMEOUTS: nat := 6

  /**
   * One turn of the loop as the environment decides it. For an error: what the context says when it is first
   * asked, whether the error is a timeout, a network error (EOF included) or a protocol violation, which may hold
   * together, and what the context says when handleDecodeError asks again. For a frame: whether it converts
   * to a directive, and whether the select takes its ctx.Done() case instead of the send.
   */
  datatype Receipt =
    | Failure(cancelled: bool, timeout: bool, network: bool, violation: bool, cancelledLater: bool)
    | Frame(converts: bool, pd: Directive, selectsDone: bool)

  datatype StopReason = ContextDone | TooManyTimeouts | ConnectionLost | TooManyDecodeErrors

  // ----- reference definition -----

  datatype Kind = Cancelled | Timeout | Fatal | Retriable | Invalid | Accepted

  function KindOf(e: Receipt): Kind {
    match e
    case Failure(cancelled, timeout, network, violation, cancelledLater) =>
      if cancelled then Cancelled
      else if timeout then Timeout
      else if cancelledLater then Cancelled
      else if network || violation then Fatal
      else Retriable
    case Frame(converts, pd, _) => if converts && Valid(pd) then Accepted else Invalid
  }

  // The same by the receipt's own fields.

  /** A frame that converts to a valid directive. */
  predicate Delivers(e: Receipt) {
    e.Frame? && e.converts && Valid(e.pd)
  }

  /** A frame that does not. */
  predicate Spurned(e: Receipt) {
    e.Frame? && !(e.converts && Valid(e.pd))
  }

  predicate TimesOut(e: Receipt) {
    e.Failure? && !e.cancelled && e.timeout
  }

  /** An error that says nothing worse than that a frame could not be decoded. */
  predicate Garbles(e: Receipt) {
    e.Failure? && !e.cancelled && !e.timeout && !e.cancelledLater && !e.network && !e.violation
  }

  lemma KindsAre(e: Receipt)
    ensures KindOf(e) == Accepted <==> Delivers(e)
    ensures KindOf(e) == Invalid <==> Spurned(e)
    ensures KindOf(e) == Timeout <==> TimesOut(e)
    ensures KindOf(e) == Retriable <==> Garbles(e)
    ensures KindOf(e) == Fatal <==>
      e.Failure? && !e.cancelled && !e.timeout && !e.cancelledLater && (e.network || e.violation)
    ensures KindOf(e) == Cancelled <==> e.Failure? && (e.cancelled || (!e.timeout && e.cancelledLater))
  {
  }

  function Count(events: seq<Receipt>, lo: nat, hi: nat, kind: Kind): (n: nat)
    requires lo <= hi <= |events|
    ensures n <= hi - lo
  {
    if lo == hi then 0 else Count(events, lo, hi - 1, kind) + (if KindOf(events[hi - 1]) == kind then 1 else 0)
  }

  /** The position after the last event before `i` whose kind is in `resets`, or 0. */
  function Since(events: seq<Receipt>, i: nat, resets: set<Kind>): (lo: nat)
    requires i <= |events|
    ensures lo <= i
  {
    if i == 0 || KindOf(events[i - 1]) in resets then i else Since(events, i - 1, resets)
  }

  /** Which is what it says: nothing from there to `i` resets, and what comes just before does. */
  lemma {:induction false} SinceIsAfterLastReset(events: seq<Receipt>, i: nat, resets: set<Kind>)
    requires i <= |events|
    ensures var lo := Since(events, i, resets);
      && (lo == 0 || KindOf(events[lo - 1]) in resets)
      && forall j :: lo <= j < i ==> KindOf(events[j]) !in resets
  {
    if i != 0 && KindOf(events[i - 1]) !in resets {
      SinceIsAfterLastReset(events, i - 1, resets);
    }
  }

  /** Timeouts since the last accepted directive or retriable decode error; invalid directives do not matter. */
  function Timeouts(events: seq<Receipt>, i: nat): nat
    requires i <= |events|
  {
    Count(events, Since(events, i, {Accepted, Retriable}), i, Timeout)
  }

  /** Retriable decode errors since the last accepted directive; neither timeouts nor invalid directives matter. */
  function DecodeErrors(events: seq<Receipt>, i: nat): nat
    requires i <= |events|
  {
    Count(events, Since(events, i, {Accepted}), i, Retriable)
  }

  /** Event `i` ends the loop, if the loop gets that far. */
  predicate StopsAt(events: seq<Receipt>, maxDecodeErrors: nat, i: nat)
    requires i < |events|
  {
    match KindOf(events[i])
    case Cancelled => true
    case Fatal => true
    case Timeout => Timeouts(events, i + 1) >= MAX_CONSECUTIVE_READ_TIMEOUTS
    case Retriable => 0 < maxDecodeErrors <= DecodeErrors(events, i + 1)
    case Accepted => events[i].selectsDone
    case Invalid => false
  }

  ghost predicate NoStopBefore(events: seq<Receipt>, maxDecodeErrors: nat, n: nat)
    requires n <= |events|
  {
    forall i :: 0 <= i < n ==> !StopsAt(events, maxDecodeErrors, i)
  }

  /** The reason, with each limit reached exactly. */
  predicate ReasonAt(events: seq<Receipt>, maxDecodeErrors: nat, i: nat, reason: StopReason)
    requires i < |events|
  {
    match reason
    case ContextDone => KindOf(events[i]) == Cancelled || (KindOf(events[i]) == Accepted && events[i].selectsDone)
    case ConnectionLost => KindOf(events[i]) == Fatal
    case TooManyTimeouts => KindOf(events[i]) == Timeout && Timeouts(events, i + 1) == MAX_CONSECUTIVE_READ_TIMEOUTS
    case TooManyDecodeErrors => KindOf(events[i]) == Retriable && DecodeErrors(events, i + 1) == maxDecodeErrors > 0
  }

  function AcceptedDirectives(events: seq<Receipt>): (pds: seq<Directive>)
    ensures |pds| == Count(events, 0, |events|, Accepted)
  {
    if events == [] then []
    else
      var last := |events| - 1;
      CountOfPrefix(events, last, last, Accepted);
      AcceptedDirectives(events[..last]) + (if Delivers(events[last]) then [events[last].pd] else [])
  }

  lemma {:induction false} CountOfPrefix(events: seq<Receipt>, n: nat, hi: nat, kind: Kind)
    requires hi <= n <= |events|
    ensures Count(events[..n], 0, hi, kind) == Count(events, 0, hi, kind)
  {
    if hi > 0 {
      CountOfPrefix(events, n, hi - 1, kind);
    }
  }

  /** How one event moves the reference counters. */
  lemma TimeoutsStep(events: seq<Receipt>, n: nat)
    requires n < |events|
    ensures Timeouts(events, n + 1) ==
      if KindOf(events[n]) in {Accepted, Retriable} then 0
      else Timeouts(events, n) + (if KindOf(events[n]) == Timeout then 1 else 0)
  {
  }

  lemma DecodeErrorsStep(events: seq<Receipt>, n: nat)
    requires n < |events|
    ensures DecodeErrors(events, n + 1) ==
      if KindOf(events[n]) == Accepted then 0
      else DecodeErrors(events, n) + (if KindOf(events[n]) == Retriable then 1 else 0)
  {
  }

  lemma AcceptedDirectivesStep(events: seq<Receipt>, n: nat)
    requires n < |events|
    ensures AcceptedDirectives(events[..n + 1]) ==
      AcceptedDirectives(events[..n]) + (if Delivers(events[n]) then [events[n].pd] else [])
  {
    assert events[..n + 1][..n] == events[..n];
  }

  // ----- the loop -----

  /** handleDecodeError: whether to go on, the new count, and the error to return. */
  method HandleDecodeError(e: Receipt, maxDecodeErrors: nat, consecutiveErrors: nat)
    returns (shouldContinue: bool, count: nat, reason: StopReason)
    requires e.Failure?
    ensures !e.cancelledLater && !e.network && !e.violation ==>
      count == consecutiveErrors + 1 && (shouldContinue <==> maxDecodeErrors == 0 || count < maxDecodeErrors)
    ensures e.cancelledLater || e.network || e.violation ==> count == consecutiveErrors && !shouldContinue
    ensures !shouldContinue ==>
      reason == if e.cancelledLater then ContextDone
                else if e.network || e.violation then ConnectionLost else TooManyDecodeErrors
  {
    if e.cancelledLater {
      return false, consecutiveErrors, ContextDone;
    }
    if e.network || e.violation {
      return false, consecutiveErrors, ConnectionLost;
    }
    count := consecutiveErrors + 1;
    if maxDecodeErrors > 0 && count >= maxDecodeErrors {
      return false, count, TooManyDecodeErrors;
    }
    return true, count, ContextDone;
  }

  /** What one turn makes of the counters, and the reason it returns, if it does, by the receipt's own fields. */
  predicate TurnDecides(e: Receipt, maxDecodeErrors: nat, timeouts: nat, decodeErrors: nat,
    timeouts': nat, decodeErrors': nat, reason: Option<StopReason>)
  {
    match e
    case Frame(converts, pd, selectsDone) =>
      if converts && Valid(pd) then
        timeouts' == 0 && decodeErrors' == 0 && reason == if selectsDone then Some(ContextDone) else None
      else
        timeouts' == timeouts && decodeErrors' == decodeErrors && reason == None
    case Failure(cancelled, timeout, network, violation, cancelledLater) =>
      if cancelled then reason == Some(ContextDone)
      else if timeout then
        && timeouts' == timeouts + 1 && decodeErrors' == decodeErrors
        && reason == if timeouts + 1 >= 6 then Some(TooManyTimeouts) else None
      else if cancelledLater then reason == Some(ContextDone)
      else if network || violation then reason == Some(ConnectionLost)
      else
        && timeouts' == 0 && decodeErrors' == decodeErrors + 1
        && reason == if 0 < maxDecodeErrors <= decodeErrors + 1 then Some(TooManyDecodeErrors) else None
  }

  /** The counters are the reference counters, below their limits. */
  predicate Counting(events: seq<Receipt>, maxDecodeErrors: nat, n: nat, timeouts: nat, decodeErrors: nat)
    requires n <= |events|
  {
    && timeouts == Timeouts(events, n) < MAX_CONSECUTIVE_READ_TIMEOUTS
    && decodeErrors == DecodeErrors(events, n)
    && (maxDecodeErrors > 0 ==> decodeErrors < maxDecodeErrors)
  }

  predicate Stopped(events: seq<Receipt>, maxDecodeErrors: nat, n: nat, reason: StopReason)
    requires n <= |events|
  {
    n < |events| && StopsAt(events, maxDecodeErrors, n) && ReasonAt(events, maxDecodeErrors, n, reason)
  }

  lemma TurnFollowsReference(events: seq<Receipt>, maxDecodeErrors: nat, n: nat, timeouts: nat, decodeErrors: nat,
    timeouts': nat, decodeErrors': nat, reason: Option<StopReason>)
    requires n < |events| && Counting(events, maxDecodeErrors, n, timeouts, decodeErrors)
    requires TurnDecides(events[n], maxDecodeErrors, timeouts, decodeErrors, timeouts', decodeErrors', reason)
    ensures reason.Some? <==> StopsAt(events, maxDecodeErrors, n)
    ensures reason.Some? ==> Stopped(events, maxDecodeErrors, n, reason.value)
    ensures reason.None? ==> Counting(events, maxDecodeErrors, n + 1, timeouts', decodeErrors')
  {
    TimeoutsStep(events, n);
    DecodeErrorsStep(events, n);
    KindsAre(events[n]);
  }

  /** The body of the loop. */
  method Turn(e: Receipt, maxDecodeErrors: nat, timeouts: nat, decodeErrors: nat)
    returns (timeouts': nat, decodeErrors': nat, reason: Option<StopReason>)
    ensures TurnDecides(e, maxDecodeErrors, timeouts, decodeErrors, timeouts', decodeErrors', reason)
  {
    timeouts', decodeErrors', reason := timeouts, decodeErrors, None;
    if e.Failure? {
      if e.cancelled {
        reason := Some(ContextDone);
      } else if e.timeout {
        timeouts' := timeouts + 1;
        if timeouts' >= MAX_CONSECUTIVE_READ_TIMEOUTS {
          reason := Some(TooManyTimeouts);
        }
      } else {
        timeouts' := 0;
        var shouldContinue, count, cause := HandleDecodeError(e, maxDecodeErrors, decodeErrors);
        decodeErrors' := count;
        if !shouldContinue {
          reason := Some(cause);
        }
      }
    } else if e.converts && ValidatePD(e.pd).Ok? {
      timeouts', decodeErrors' := 0, 0;
      if e.selectsDone {
        reason := Some(ContextDone);
      }
    }
  }

  /** The events without the frames that do not convert to a valid directive. */
  function Heard(events: seq<Receipt>): (heard: seq<Receipt>)
    ensures |heard| <= |events|
  {
    if events == [] then []
    else
      var last := |events| - 1;
      if Spurned(events[last]) then Heard(events[..last]) else Heard(events[..last]) + [events[last]]
  }

  lemma HeardStep(events: seq<Receipt>, n: nat)
    requires n < |events|
    ensures Heard(events[..n + 1]) ==
      if Spurned(events[n]) then Heard(events[..n]) else Heard(events[..n]) + [events[n]]
  {
    assert events[..n + 1][..n] == events[..n];
  }

  /**
   * What the loop has done once it has survived the first `n` events: forwarded the directives of the frames that
   * deliver one, and counted the other frames.
   */
  ghost predicate Survived(events: seq<Receipt>, maxDecodeErrors: nat, n: nat, forwarded: seq<Directive>, invalid: nat)
    requires n <= |events|
  {
    && NoStopBefore(events, maxDecodeErrors, n)
    && forwarded == AcceptedDirectives(events[..n])
    && invalid + |Heard(events[..n])| == n
  }

  lemma SurvivedStep(events: seq<Receipt>, maxDecodeErrors: nat, n: nat, forwarded: seq<Directive>, invalid: nat)
    requires n < |events| && !StopsAt(events, maxDecodeErrors, n)
    requires Survived(events, maxDecodeErrors, n, forwarded, invalid)
    ensures Survived(events, maxDecodeErrors, n + 1,
      if Delivers(events[n]) then forwarded + [events[n].pd] else forwarded,
      if Spurned(events[n]) then invalid + 1 else invalid)
  {
    AcceptedDirectivesStep(events, n);
    HeardStep(events, n);
  }

  /**
   * The loop over any sequence of receive events. It stops at the first event that satisfies the reference
   * definition, for the reason the definition gives, and has then forwarded exactly the accepted directives
   * before it, in order.
   */
  method Run(maxDecodeErrors: nat, events: seq<Receipt>)
    returns (n: nat, reason: Option<StopReason>, forwarded: seq<Directive>, received: nat, invalid: nat)
    ensures n <= |events| && (n == |events| <==> reason.None?)
    ensures Survived(events, maxDecodeErrors, n, forwarded, invalid)
    ensures reason.Some? ==> Stopped(events, maxDecodeErrors, n, reason.value)
    ensures received == |forwarded| + (if n < |events| && Delivers(events[n]) then 1 else 0)
  {
    var consecutiveDecodeErrors, consecutiveTimeouts := 0, 0;
    n, reason, forwarded, received, invalid := 0, None, [], 0, 0;
    while n < |events| && reason.None?
      invariant n <= |events|
      invariant Survived(events, maxDecodeErrors, n, forwarded, invalid)
      invariant reason.None? ==> Counting(events, maxDecodeErrors, n, consecutiveTimeouts, consecutiveDecodeErrors)
      invariant reason.None? ==> received == |forwarded|
      invariant reason.Some? ==> Stopped(events, maxDecodeErrors, n, reason.value)
      invariant reason.Some? ==> received == |forwarded| + (if Delivers(events[n]) then 1 else 0)
      decreases |events| - n, reason.None?
    {
      var e := events[n];
      var timeouts, decodeErrors;
      timeouts, decodeErrors, reason := Turn(e, maxDecodeErrors, consecutiveTimeouts, consecutiveDecodeErrors);
      TurnFollowsReference(events, maxDecodeErrors, n, consecutiveTimeouts, consecutiveDecodeErrors,
        timeouts, decodeErrors, reason);
      consecutiveTimeouts, consecutiveDecodeErrors := timeouts, decodeErrors;
      received := if Delivers(e) then received + 1 else received;
      if reason.None? {
        SurvivedStep(events, maxDecodeErrors, n, forwarded, invalid);
        forwarded := if Delivers(e) then forwarded + [e.pd] else forwarded;
        invalid := if Spurned(e) then invalid + 1 else invalid;
        n := n + 1;
      }
    }
  }

  // ----- consequences -----

  /** The loop has one stopping point: the first event that stops it. */
  lemma FirstStopIsUnique(events: seq<Receipt>, maxDecodeErrors: nat, n: nat, n': nat)
    requires n < |events| && n' < |events|
    requires StopsAt(events, maxDecodeErrors, n) && NoStopBefore(events, maxDecodeErrors, n)
    requires StopsAt(events, maxDecodeErrors, n') && NoStopBefore(events, maxDecodeErrors, n')
    ensures n == n'
  {
  }

  lemma {:induction false} CountOfRange(events: seq<Receipt>, lo: nat, mid: nat, hi: nat, kind: Kind)
    requires lo <= mid <= hi <= |events|
    ensures Count(events, lo, hi, kind) == Count(events, lo, mid, kind) + Count(events, mid, hi, kind)
  {
    if mid < hi {
      CountOfRange(events, lo, mid, hi - 1, kind);
    }
  }

  lemma {:induction false} SinceCovers(events: seq<Receipt>, lo: nat, i: nat, resets: set<Kind>)
    requires lo <= i <= |events| && forall j :: lo <= j < i ==> KindOf(events[j]) !in resets
    ensures Since(events, i, resets) <= lo
  {
    if lo < i {
      SinceCovers(events, lo, i - 1, resets);
    }
  }

  /**
   * A dead connection is noticed: any stretch with six timeouts and nothing but timeouts and invalid directives
   * in it ends the loop, at its last timeout if not before.
   */
  lemma SixTimeoutsEndTheLoop(events: seq<Receipt>, maxDecodeErrors: nat, lo: nat, i: nat)
    requires lo <= i < |events| && TimesOut(events[i])
    requires forall j :: lo <= j <= i ==> TimesOut(events[j]) || Spurned(events[j])
    requires Count(events, lo, i + 1, Timeout) >= 6
    ensures StopsAt(events, maxDecodeErrors, i)
  {
    SinceCovers(events, lo, i + 1, {Accepted, Retriable});
    var since := Since(events, i + 1, {Accepted, Retriable});
    CountOfRange(events, since, lo, i + 1, Timeout);
  }

  /** A broken peer is noticed: timeouts and invalid directives between decode errors do not save it. */
  lemma DecodeErrorsEndTheLoop(events: seq<Receipt>, maxDecodeErrors: nat, lo: nat, i: nat)
    requires lo <= i < |events| && Garbles(events[i]) && maxDecodeErrors > 0
    requires forall j :: lo <= j <= i ==> !Delivers(events[j])
    requires Count(events, lo, i + 1, Retriable) >= maxDecodeErrors
    ensures StopsAt(events, maxDecodeErrors, i)
  {
    SinceCovers(events, lo, i + 1, {Accepted});
    var since := Since(events, i + 1, {Accepted});
    CountOfRange(events, since, lo, i + 1, Retriable);
  }

  /** A loop that has survived `n` events has counted fewer timeouts than end it. */
  lemma {:induction false} TimeoutsBelowLimit(events: seq<Receipt>, maxDecodeErrors: nat, n: nat)
    requires n <= |events| && NoStopBefore(events, maxDecodeErrors, n)
    ensures Timeouts(events, n) < 6
  {
    if n > 0 {
      TimeoutsBelowLimit(events, maxDecodeErrors, n - 1);
      TimeoutsStep(events, n - 1);
      assert !StopsAt(events, maxDecodeErrors, n - 1);
    }
  }

  /**
   * A partial frame ends a loop that has come this far, as the comments promise for every one, exactly when the
   * error carries no timeout, or the context is done, or five timeouts have been counted already: the timeout test
   * comes first.
   */
  lemma PartialFrameIsFatalIff(events: seq<Receipt>, maxDecodeErrors: nat, n: nat)
    requires n < |events| && NoStopBefore(events, maxDecodeErrors, n)
    requires events[n].Failure? && events[n].violation
    ensures StopsAt(events, maxDecodeErrors, n) <==>
      || !events[n].timeout
      || events[n].cancelled
      || Timeouts(events, n) == 5
  {
    TimeoutsBelowLimit(events, maxDecodeErrors, n);
    TimeoutsStep(events, n);
  }

  /** What is to come does not change what a prefix does. */
  lemma {:induction false} SincePrefix(events: seq<Receipt>, more: seq<Receipt>, i: nat, resets: set<Kind>)
    requires i <= |events|
    ensures Since(events + more, i, resets) == Since(events, i, resets)
  {
    if i > 0 {
      SincePrefix(events, more, i - 1, resets);
    }
  }

  lemma {:induction false} CountPrefix(events: seq<Receipt>, more: seq<Receipt>, lo: nat, hi: nat, kind: Kind)
    requires lo <= hi <= |events|
    ensures Count(events + more, lo, hi, kind) == Count(events, lo, hi, kind)
  {
    if lo < hi {
      CountPrefix(events, more, lo, hi - 1, kind);
    }
  }

  lemma CountersOfPrefix(events: seq<Receipt>, more: seq<Receipt>, i: nat)
    requires i <= |events|
    ensures Timeouts(events + more, i) == Timeouts(events, i)
    ensures DecodeErrors(events + more, i) == DecodeErrors(events, i)
  {
    SincePrefix(events, more, i, {Accepted, Retriable});
    SincePrefix(events, more, i, {Accepted});
    CountPrefix(events, more, Since(events, i, {Accepted, Retriable}), i, Timeout);
    CountPrefix(events, more, Since(events, i, {Accepted}), i, Retriable);
  }

  lemma SurvivalOfPrefix(events: seq<Receipt>, more: seq<Receipt>, maxDecodeErrors: nat)
    requires NoStopBefore(events, maxDecodeErrors, |events|)
    ensures NoStopBefore(events + more, maxDecodeErrors, |events|)
  {
    forall i | 0 <= i < |events|
      ensures !StopsAt(events + more, maxDecodeErrors, i)
    {
      assert !StopsAt(events, maxDecodeErrors, i) && (events + more)[i] == events[i];
      CountersOfPrefix(events, more, i + 1);
    }
  }

  /**
   * The loop itself, on a partial frame that follows any events it has survived: it goes on, with the directives
   * forwarded so far and one more timeout counted, exactly when the error carries a timeout, the context is live and
   * fewer than five timeouts have been counted.
   */
  method MeetPartialFrame(maxDecodeErrors: nat, events: seq<Receipt>, frame: Receipt)
    returns (survived: bool, forwarded: seq<Directive>)
    requires NoStopBefore(events, maxDecodeErrors, |events|)
    requires frame.Failure? && frame.violation
    ensures survived <==>
      frame.timeout && !frame.cancelled && Timeouts(events, |events|) < 5
    ensures survived ==> Timeouts(events + [frame], |events| + 1) == Timeouts(events, |events|) + 1
    ensures forwarded == AcceptedDirectives(events)
  {
    var all := events + [frame];
    var n, reason, directives, _, _ := Run(maxDecodeErrors, all);
    SurvivalOfPrefix(events, [frame], maxDecodeErrors);
    CountersOfPrefix(events, [frame], |events|);
    TimeoutsBelowLimit(events, maxDecodeErrors, |events|);
    PartialFrameIsFatalIff(all, maxDecodeErrors, |events|);
    TimeoutsStep(all, |events|);
    AcceptedDirectivesStep(all, |events|);
    assert all[..|events|] == events;
    assert all[..|all|] == all;
    survived, forwarded := reason.None?, directives;
  }

  /** A partial frame cut short by a timeout, then a directive: the loop survives the one and forwards the other. */
  method PartialFrameSurvived(maxDecodeErrors: nat, pd: Directive) returns (forwarded: seq<Directive>)
    requires Valid(pd)
    ensures forwarded == [pd]
  {
    var partial := Failure(false, true, true, true, false);
    var events := [partial, Frame(true, pd, false)];
    assert events[..0] == [] && events[..1] == [partial];
    TimeoutsStep(events, 0);
    AcceptedDirectivesStep(events, 0);
    AcceptedDirectivesStep(events, 1);
    var n, reason, directives, _, _ := Run(maxDecodeErrors, events);
    assert !StopsAt(events, maxDecodeErrors, 0) && !StopsAt(events, maxDecodeErrors, 1);
    assert events[..2] == events;
    return directives;
  }

  // ----- invalid frames -----

  lemma {:induction false} HeardCounters(events: seq<Receipt>)
    ensures Timeouts(events, |events|) == Timeouts(Heard(events), |Heard(events)|)
    ensures DecodeErrors(events, |events|) == DecodeErrors(Heard(events), |Heard(events)|)
  {
    if events != [] {
      var last := |events| - 1;
      var init, e := events[..last], events[last];
      assert events == init + [e];
      HeardCounters(init);
      CountersOfPrefix(init, [e], last);
      TimeoutsStep(events, last);
      DecodeErrorsStep(events, last);
      KindsAre(e);
      if !Spurned(e) {
        var heard := Heard(init);
        CountersOfPrefix(heard, [e], |heard|);
        TimeoutsStep(heard + [e], |heard|);
        DecodeErrorsStep(heard + [e], |heard|);
      }
    }
  }

  lemma {:induction false} HeardGrows(events: seq<Receipt>, n: nat)
    requires n <= |events|
    ensures Heard(events[..n]) <= Heard(events)
    decreases |events| - n
  {
    if n < |events| {
      HeardStep(events, n);
      HeardGrows(events, n + 1);
    } else {
      assert events[..n] == events;
    }
  }

  lemma CountersAfterPrefix(events: seq<Receipt>, n: nat)
    requires n <= |events|
    ensures Timeouts(events, n) == Timeouts(events[..n], n) && DecodeErrors(events, n) == DecodeErrors(events[..n], n)
  {
    assert events == events[..n] + events[n..];
    CountersOfPrefix(events[..n], events[n..], n);
  }

  /** Where an event that is heard comes among the others, and the counters with it. */
  lemma HeardAt(events: seq<Receipt>, i: nat)
    requires i < |events| && !Spurned(events[i])
    ensures var heard, m := Heard(events), |Heard(events[..i])|;
      && m < |heard| && heard[m] == events[i]
      && Timeouts(events, i + 1) == Timeouts(heard, m + 1) && DecodeErrors(events, i + 1) == DecodeErrors(heard, m + 1)
  {
    var heard, m := Heard(events), |Heard(events[..i])|;
    HeardStep(events, i);
    HeardGrows(events, i + 1);
    assert heard[..m + 1] == Heard(events[..i + 1]);
    HeardCounters(events[..i + 1]);
    CountersAfterPrefix(events, i + 1);
    CountersAfterPrefix(heard, m + 1);
  }

  /** Each event that is heard stops the loop exactly when it does with the others alone. */
  lemma HeardStops(events: seq<Receipt>, maxDecodeErrors: nat, i: nat)
    requires i < |events|
    ensures Spurned(events[i]) ==> !StopsAt(events, maxDecodeErrors, i)
    ensures !Spurned(events[i]) ==>
      var m := |Heard(events[..i])|;
      && m < |Heard(events)| && Heard(events)[m] == events[i]
      && (StopsAt(events, maxDecodeErrors, i) <==> StopsAt(Heard(events), maxDecodeErrors, m))
  {
    KindsAre(events[i]);
    if !Spurned(events[i]) {
      HeardAt(events, i);
    }
  }

  lemma NoStopStep(events: seq<Receipt>, maxDecodeErrors: nat, n: nat)
    requires n < |events|
    ensures NoStopBefore(events, maxDecodeErrors, n + 1) <==>
      NoStopBefore(events, maxDecodeErrors, n) && !StopsAt(events, maxDecodeErrors, n)
  {
  }

  lemma {:induction false} HeardSurvives(events: seq<Receipt>, maxDecodeErrors: nat, n: nat)
    requires n <= |events|
    ensures |Heard(events[..n])| <= |Heard(events)|
    ensures NoStopBefore(events, maxDecodeErrors, n) <==>
      NoStopBefore(Heard(events), maxDecodeErrors, |Heard(events[..n])|)
  {
    HeardGrows(events, n);
    if n > 0 {
      HeardSurvives(events, maxDecodeErrors, n - 1);
      HeardStops(events, maxDecodeErrors, n - 1);
      HeardStep(events, n - 1);
      NoStopStep(events, maxDecodeErrors, n - 1);
      if !Spurned(events[n - 1]) {
        NoStopStep(Heard(events), maxDecodeErrors, |Heard(events[..n - 1])|);
      }
    }
  }

  lemma {:induction false} HeardDirectives(events: seq<Receipt>)
    ensures AcceptedDirectives(Heard(events)) == AcceptedDirectives(events)
  {
    if events != [] {
      var init, e := events[..|events| - 1], events[|events| - 1];
      HeardDirectives(init);
      if !Spurned(e) {
        assert (Heard(init) + [e])[..|Heard(init)|] == Heard(init);
      }
    }
  }

  /**
   * Frames that do not convert to a valid directive do not matter, wherever and however many they come: the loop
   * counts them, and stops at the same event, for the same reason, with the same directives forwarded, as without them.
   */
  method RunPastInvalidFrames(maxDecodeErrors: nat, events: seq<Receipt>)
    returns (n: nat, reason: Option<StopReason>, forwarded: seq<Directive>, invalid: nat,
      m: nat, reason': Option<StopReason>, forwarded': seq<Directive>)
    ensures n <= |events| && m == |Heard(events[..n])| <= |Heard(events)|
    ensures reason == reason' && forwarded == forwarded' && invalid == n - m
    ensures reason.Some? ==> n < |events| && m < |Heard(events)| && events[n] == Heard(events)[m]
  {
    var received, received', invalid';
    n, reason, forwarded, received, invalid := Run(maxDecodeErrors, events);
    m, reason', forwarded', received', invalid' := Run(maxDecodeErrors, Heard(events));
    ghost var heard := Heard(events);
    HeardSurvives(events, maxDecodeErrors, n);
    HeardGrows(events, n);
    if n < |events| {
      HeardStops(events, maxDecodeErrors, n);
      if m < |heard| {
        FirstStopIsUnique(heard, maxDecodeErrors, m, |Heard(events[..n])|);
      }
    } else {
      assert events[..n] == events;
    }
    assert heard[..m] == Heard(events[..n]);
    HeardDirectives(events[..n]);
  }
}
