// runWithReconnect: how long the agent waits before each reconnection.
module Reconnect {
  import opened GoNumbers

  const INITIAL_BACKOFF: int := 1_000_000_000   // nanoseconds
  const BACKOFF_FACTOR: int := 2

  /**
   * One run of the agent: how many nanoseconds it lasted (a failed dial lasts, too), whether it ended in a
   * cancellation, and whether the context becomes done during the wait that follows.
   */
  datatype Attempt = Attempt(lasted: nat, cancelled: bool, cancelledWaiting: bool) {
    /** It counts as a connection. */
    predicate Long() {
      lasted >= INITIAL_BACKOFF
    }
  }

  // ----- reference definition -----

  function Pow2(j: nat): (p: nat)
    ensures p > 0
  {
    if j == 0 then 1 else 2 * Pow2(j - 1)
  }

  /** The last run up to `k` that lasted, or the first run. */
  function LastReset(attempts: seq<Attempt>, k: nat): (r: nat)
    requires k < |attempts|
    ensures r <= k
    ensures r == 0 || attempts[r].Long()
    ensures forall i :: r < i <= k ==> !attempts[i].Long()
  {
    if k == 0 || attempts[k].Long() then k else LastReset(attempts, k - 1)
  }

  function Min(a: int, b: int): int {
    if a < b then a else b
  }

  /** The wait after run `k`: a second after a reset, then doubling from one short run to the next, up to `max`. */
  function Wait(attempts: seq<Attempt>, max: int, k: nat): int
    requires k < |attempts|
  {
    var j := k - LastReset(attempts, k);
    if j == 0 then INITIAL_BACKOFF else Min(Pow2(j) * INITIAL_BACKOFF, max)
  }

  // ----- the loop, in int64 arithmetic -----

  /** backoff *= backoffFactor, and the cap. */
  function NextBackoff(backoff: int, max: int): int {
    var doubled := Wrap64(backoff * BACKOFF_FACTOR);
    if doubled > max then max else doubled
  }

  /** The value of `backoff` after run `k` has been looked at, when no run before was cancelled. */
  function Backoff(attempts: seq<Attempt>, max: int, k: nat): int
    requires k < |attempts|
  {
    if k == 0 || attempts[k].Long() then INITIAL_BACKOFF else NextBackoff(Backoff(attempts, max, k - 1), max)
  }

  predicate Ends(a: Attempt) {
    a.cancelled || a.cancelledWaiting
  }

  ghost predicate Follows(waits: seq<int>, attempts: seq<Attempt>, max: int) {
    |waits| <= |attempts| && forall k :: 0 <= k < |waits| ==> waits[k] == Backoff(attempts, max, k)
  }

  ghost predicate NoneEnds(attempts: seq<Attempt>, n: nat)
    requires n <= |attempts|
  {
    forall k :: 0 <= k < n ==> !Ends(attempts[k])
  }

  /** `backoff` at the start of turn `n`. */
  function BackoffBefore(attempts: seq<Attempt>, max: int, n: nat): int
    requires n <= |attempts|
  {
    if n == 0 then INITIAL_BACKOFF else NextBackoff(Backoff(attempts, max, n - 1), max)
  }

  /**
   * The loop over any sequence of runs, one turn for each, up to the first at which the context is done: `n` runs
   * were followed by another. `waits` are the timers armed, `waits[k]` after run `k`.
   */
  method RunWithReconnect(attempts: seq<Attempt>, max: int) returns (n: nat, waits: seq<int>, reconnections: nat)
    requires 0 < max < TWO_TO_63
    ensures n <= |attempts| && NoneEnds(attempts, n) && (n < |attempts| ==> Ends(attempts[n]))
    ensures reconnections == |waits| == n + (if n < |attempts| && !attempts[n].cancelled then 1 else 0)
    ensures Follows(waits, attempts, max)
    ensures max < TWO_TO_63 / 2 ==> forall k :: 0 <= k < |waits| ==> waits[k] == Wait(attempts, max, k)
  {
    var backoff := INITIAL_BACKOFF;
    n, waits, reconnections := 0, [], 0;
    while n < |attempts|
      invariant n <= |attempts| && reconnections == |waits| == n
      invariant NoneEnds(attempts, n)
      invariant Follows(waits, attempts, max)
      invariant backoff == BackoffBefore(attempts, max, n)
    {
      if attempts[n].cancelled {
        break;
      }
      if attempts[n].Long() {
        backoff := INITIAL_BACKOFF;
      }
      reconnections := reconnections + 1;
      waits := waits + [backoff];
      if attempts[n].cancelledWaiting {
        break;
      }
      backoff := Wrap64(backoff * BACKOFF_FACTOR);
      if backoff > max {
        backoff := max;
      }
      n := n + 1;
    }
    if max < TWO_TO_63 / 2 {
      WaitsHaveClosedForm(waits, attempts, max);
    }
  }

  // ----- the closed form -----

  lemma WaitsHaveClosedForm(waits: seq<int>, attempts: seq<Attempt>, max: int)
    requires 0 < max < TWO_TO_63 / 2 && Follows(waits, attempts, max)
    ensures forall k :: 0 <= k < |waits| ==> waits[k] == Wait(attempts, max, k)
  {
    forall k | 0 <= k < |waits|
      ensures waits[k] == Wait(attempts, max, k)
    {
      ClosedForm(attempts, max, k);
    }
  }

  /** With a cap below 2^62 ns the loop waits as the closed form says, within the cap, and never overflows. */
  lemma {:induction false} ClosedForm(attempts: seq<Attempt>, max: int, k: nat)
    requires 0 < max < TWO_TO_63 / 2 && k < |attempts|
    ensures Backoff(attempts, max, k) == Wait(attempts, max, k)
    ensures 0 < Wait(attempts, max, k) && (Wait(attempts, max, k) <= max || Wait(attempts, max, k) == INITIAL_BACKOFF)
    ensures IsInt64(Wait(attempts, max, k) * BACKOFF_FACTOR)
  {
    if k > 0 && !attempts[k].Long() {
      ClosedForm(attempts, max, k - 1);
    }
  }

  function ShortRuns(n: nat): (attempts: seq<Attempt>)
    ensures |attempts| == n && forall k :: 0 <= k < n ==> attempts[k] == Attempt(0, false, false)
  {
    seq(n, i => Attempt(0, false, false))
  }

  /** Thirty-two short runs in a row are all doublings when the cap is 2^62 ns or more. */
  lemma {:induction false} Doublings(max: int, k: nat)
    requires TWO_TO_63 / 2 <= max < TWO_TO_63 && k <= 32
    ensures Backoff(ShortRuns(35), max, k) == Pow2(k) * INITIAL_BACKOFF
    ensures Pow2(k) <= Pow2(32) == 0x1_0000_0000
  {
    if k > 0 {
      Doublings(max, k - 1);
    }
    Pow2Grows(k, 32);
    assert Pow2(4) == 16;
    Pow2Adds(4, 4);
    Pow2Adds(8, 8);
    Pow2Adds(16, 16);
  }

  lemma {:induction false} Pow2Adds(a: nat, b: nat)
    ensures Pow2(a + b) == Pow2(a) * Pow2(b)
  {
    if b > 0 {
      Pow2Adds(a, b - 1);
    }
  }

  lemma {:induction false} Pow2Grows(a: nat, b: nat)
    requires a <= b
    ensures Pow2(a) <= Pow2(b)
  {
    if a < b {
      Pow2Grows(a, b - 1);
    }
  }

  /** With a cap of 2^62 ns or more, the wait after the thirty-fifth short run in a row is negative. */
  lemma OverflowRun(max: int)
    requires TWO_TO_63 / 2 <= max < TWO_TO_63
    ensures Backoff(ShortRuns(35), max, 34) < 0 < Wait(ShortRuns(35), max, 34)
  {
    var runs := ShortRuns(35);
    Doublings(max, 32);
    assert Backoff(runs, max, 33) == NextBackoff(Backoff(runs, max, 32), max);
    assert TWO_TO_63 / 2 <= Backoff(runs, max, 33) < TWO_TO_63;
    assert Backoff(runs, max, 34) == NextBackoff(Backoff(runs, max, 33), max);
    assert LastReset(runs, 34) == 0;
    Pow2Grows(32, 34);
  }

  /** The loop follows the closed form for every sequence of runs exactly when the cap is below 2^62 ns. */
  lemma BackoffIsClosedFormIff(max: int)
    requires 0 < max < TWO_TO_63
    ensures
      (forall attempts: seq<Attempt>, k: nat ::
        k < |attempts| ==> Backoff(attempts, max, k) == Wait(attempts, max, k))
      <==> max < TWO_TO_63 / 2
  {
    forall attempts: seq<Attempt>, k: nat | k < |attempts| && max < TWO_TO_63 / 2
      ensures Backoff(attempts, max, k) == Wait(attempts, max, k)
    {
      ClosedForm(attempts, max, k);
    }
    if max >= TWO_TO_63 / 2 {
      OverflowRun(max);
    }
  }

  /**
   * In nanoseconds: one second after the first run and after any that lasted a second or more, and two seconds, within
   * the cap, after a shorter run that follows such a one.
   */
  lemma FirstWaits(attempts: seq<Attempt>, max: int, k: nat)
    requires 0 < max < TWO_TO_63 / 2 && k < |attempts|
    ensures k == 0 || attempts[k].lasted >= 1_000_000_000 ==> Backoff(attempts, max, k) == 1_000_000_000
    ensures k > 0 && attempts[k].lasted < 1_000_000_000 && (k == 1 || attempts[k - 1].lasted >= 1_000_000_000) ==>
      Backoff(attempts, max, k) == if max < 2_000_000_000 then max else 2_000_000_000
  {
    ClosedForm(attempts, max, k);
    if k > 0 {
      ClosedForm(attempts, max, k - 1);
    }
  }
}
