/** _WaitForCondition with an exact clock: sleeping takes as long as it says, everything else no time. */
module PollingWait {
  import opened Common

  const WAIT_MIN_RECHECK_DELAY := 0.001
  const WAIT_MAX_RECHECK_DELAY := 0.050

  function Min(a: real, b: real): real { if a < b then a else b }

  ghost function Total(pauses: seq<real>): real {
    if pauses == [] then 0.0 else Total(pauses[..|pauses| - 1]) + pauses[|pauses| - 1]
  }

  /** The pause that follows: twice the last one, at most what remained before it, at most 50 ms. */
  ghost function NextPause(timeout: Option<real>, pauses: seq<real>): real {
    if pauses == [] then WAIT_MIN_RECHECK_DELAY else
      var before := pauses[..|pauses| - 1];
      Min(Min(pauses[|pauses| - 1] * 2.0, Remaining(timeout, Total(before))), WAIT_MAX_RECHECK_DELAY)
  }

  /** Every pause follows the back-off, is between 1 and 50 ms long, and at most 1 ms longer than
      everything before it. */
  ghost predicate BacksOff(timeout: Option<real>, pauses: seq<real>) {
    pauses != [] ==>
      var before, last := pauses[..|pauses| - 1], pauses[|pauses| - 1];
      && BacksOff(timeout, before) && last == NextPause(timeout, before)
      && WAIT_MIN_RECHECK_DELAY <= last <= WAIT_MAX_RECHECK_DELAY
      && last <= Total(before) + WAIT_MIN_RECHECK_DELAY
  }

  /** What may be slept without passing the timeout. */
  function Remaining(timeout: Option<real>, slept: real): real {
    if timeout.None? then WAIT_MAX_RECHECK_DELAY else timeout.value - slept
  }

  lemma OnePause(timeout: Option<real>, pauses: seq<real>, pause: real)
    requires BacksOff(timeout, pauses) && pause == NextPause(timeout, pauses)
    requires WAIT_MIN_RECHECK_DELAY <= pause <= WAIT_MAX_RECHECK_DELAY && pause <= Total(pauses) + WAIT_MIN_RECHECK_DELAY
    ensures BacksOff(timeout, pauses + [pause]) && Total(pauses + [pause]) == Total(pauses) + pause
    ensures NextPause(timeout, pauses + [pause]) ==
              Min(Min(pause * 2.0, Remaining(timeout, Total(pauses))), WAIT_MAX_RECHECK_DELAY)
  {
    assert (pauses + [pause])[..|pauses|] == pauses;
  }

  /** The shortest delay, doubled k times. */
  ghost function Doubled(k: nat): real { if k == 0 then WAIT_MIN_RECHECK_DELAY else 2.0 * Doubled(k - 1) }

  /** Pause k without its history: the shortest delay doubled k times, at most 50 ms, and at most the time
      that remained before the pause ahead of it. Without a timeout that is no limit. */
  ghost function PauseAt(timeout: Option<real>, pauses: seq<real>, k: nat): real
    requires k <= |pauses|
  {
    if k == 0 then WAIT_MIN_RECHECK_DELAY
    else Min(Min(Doubled(k), Remaining(timeout, Total(pauses[..k - 1]))), WAIT_MAX_RECHECK_DELAY)
  }

  lemma TotalStep(pauses: seq<real>, k: nat)
    requires 0 < k <= |pauses|
    ensures Total(pauses[..k]) == Total(pauses[..k - 1]) + pauses[k - 1]
  {
    assert pauses[..k][..k - 1] == pauses[..k - 1];
  }

  /** Every pause of a wait that backs off is the one given in closed form: an earlier shortage of time never
      shows again in a later pause. */
  lemma {:induction false} PausesDouble(timeout: Option<real>, pauses: seq<real>, k: nat)
    requires BacksOff(timeout, pauses) && k < |pauses|
    ensures pauses[k] == PauseAt(timeout, pauses, k) && 0.001 <= pauses[k] <= 0.050
    ensures k == 0 ==> pauses[k] == 0.001
    ensures timeout.None? && k > 0 ==> pauses[k] == if pauses[k - 1] < 0.025 then 2.0 * pauses[k - 1] else 0.050
  {
    var n := |pauses| - 1;
    var front := pauses[..n];
    if k < n {
      PausesDouble(timeout, front, k);
      if k > 0 {
        assert front[..k - 1] == pauses[..k - 1];
      }
    } else if n > 0 {
      PausesDouble(timeout, front, n - 1);
      assert front[..n - 1] == pauses[..n - 1];
      if n > 1 {
        assert front[..n - 2] == pauses[..n - 2];
        PausesDouble(timeout, front, n - 2);
        TotalStep(pauses, n - 1);
      }
    }
  }

  /** Enough of the shortest delays to use the timeout up. */
  lemma Budget(timeout: Option<real>) returns (n: nat)
    ensures timeout.Some? ==> timeout.value <= n as real * WAIT_MIN_RECHECK_DELAY
  {
    n := if timeout.None? || timeout.value <= 0.0 then 0 else (timeout.value * 1000.0).Floor + 1;
  }

  /** The pace of the wait after so many polls: no delay is far ahead of the time already spent. */
  ghost predicate Paced(timeout: Option<real>, polls: nat, elapsed: real, delay: real) {
    && 0.0 <= elapsed && (polls == 0 ==> elapsed == 0.0)
    && delay <= WAIT_MAX_RECHECK_DELAY && delay <= elapsed + WAIT_MIN_RECHECK_DELAY
    && (timeout.None? || elapsed < timeout.value ==> WAIT_MIN_RECHECK_DELAY <= delay)
    && (timeout.Some? && polls > 0 ==> timeout.value > 0.0 && InTime(timeout.value, elapsed))
  }

  /** Less than 50 ms late, and less than one timeout and 1 ms late. */
  predicate InTime(timeout: real, elapsed: real) {
    elapsed < timeout + WAIT_MAX_RECHECK_DELAY && elapsed < 2.0 * timeout + WAIT_MIN_RECHECK_DELAY
  }

  lemma PacedFurther(timeout: Option<real>, polls: nat, elapsed: real, delay: real)
    requires Paced(timeout, polls, elapsed, delay) && Remaining(timeout, elapsed) > 0.0
    ensures WAIT_MIN_RECHECK_DELAY <= delay
    ensures Paced(timeout, polls + 1, elapsed + delay, Min(Min(delay * 2.0, Remaining(timeout, elapsed)), WAIT_MAX_RECHECK_DELAY))
  {
  }

  /** Polls condition, whose k-th answer is condition(k), until it holds or the timeout has passed.
      Without a timeout the wait ends only if the condition holds at some poll, say the answer-th.
      pauses lists the delays slept. */
  method WaitForCondition(condition: nat -> bool, timeout: Option<real>, ghost answer: nat)
    returns (satisfied: bool, polls: nat, elapsed: real, ghost pauses: seq<real>)
    requires timeout.None? ==> condition(answer)
    ensures polls >= 1 && satisfied == condition(polls - 1) && forall k :: 0 <= k < polls - 1 ==> !condition(k)
    ensures |pauses| == polls - 1 && elapsed == Total(pauses) && BacksOff(timeout, pauses)
    ensures !satisfied ==> timeout.Some? && timeout.value <= elapsed
    ensures timeout.Some? && timeout.value <= 0.0 ==> polls == 1 && elapsed == 0.0
    ensures timeout.Some? && timeout.value > 0.0 ==> elapsed < timeout.value + 0.050 && elapsed < 2.0 * timeout.value + 0.001
  {
    polls, elapsed, pauses := 0, 0.0, [];
    var delay := WAIT_MIN_RECHECK_DELAY;
    ghost var budget: nat := Budget(timeout);
    while true
      invariant |pauses| == polls && elapsed == Total(pauses) && Paced(timeout, polls, elapsed, delay)
      invariant forall k :: 0 <= k < polls ==> !condition(k)
      invariant timeout.None? ==> polls <= answer
      invariant BacksOff(timeout, pauses) && delay == NextPause(timeout, pauses)
      invariant timeout.Some? ==> timeout.value - elapsed <= budget as real * WAIT_MIN_RECHECK_DELAY
      decreases if timeout.None? then answer - polls else budget
    {
      polls := polls + 1;
      if condition(polls - 1) {
        satisfied := true;
        return;
      }
      var remaining := Remaining(timeout, elapsed);
      if remaining <= 0.0 {
        satisfied := false;
        return;
      }
      PacedFurther(timeout, polls - 1, elapsed, delay);
      OnePause(timeout, pauses, delay);
      budget := if timeout.Some? then budget - 1 else 0;
      elapsed, pauses := elapsed + delay, pauses + [delay];
      delay := Min(Min(delay * 2.0, remaining), WAIT_MAX_RECHECK_DELAY);
    }
  }
}
