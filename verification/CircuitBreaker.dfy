/** The circuit breaker and the guard agents put around a call, with any number of calls
    in flight. All it stores is shown to be a summary of the history of completions. */
module CircuitBreaker {
  import opened Wrappers

  datatype CircuitState = Closed | Open | HalfOpen

  /** A guarded call that finished, in the order the breaker heard of it. */
  datatype Completion = Completion(success: bool, time: real)

  // ---- what the history decides ----

  function FailuresSince(h: seq<Completion>): nat {
    if h == [] || h[|h| - 1].success then 0 else FailuresSince(h[..|h| - 1]) + 1
  }

  /** They are the longest run of failures at the end of the history. */
  lemma {:induction false} FailuresEndHistory(h: seq<Completion>)
    ensures var n := FailuresSince(h);
            && n <= |h|
            && (forall i | |h| - n <= i < |h| :: !h[i].success)
            && (n < |h| ==> h[|h| - n - 1].success)
  {
    if h != [] && !h[|h| - 1].success {
      var init := h[..|h| - 1];
      FailuresEndHistory(init);
      assert forall i | 0 <= i < |init| :: h[i] == init[i];
    }
  }

  /** A call is refused while the failures since the last success reach the threshold and
      the latest of them is younger than the recovery timeout. */
  predicate Refused(h: seq<Completion>, threshold: nat, timeout: real, now: real) {
    threshold > 0 && FailuresSince(h) >= threshold && now < h[|h| - 1].time + timeout
  }

  /** In other words: the last `threshold` completions all failed, and the very last one within
      the timeout. */
  lemma RefusedExactly(h: seq<Completion>, threshold: nat, timeout: real, now: real)
    requires threshold > 0
    ensures Refused(h, threshold, timeout, now) <==>
            && |h| >= threshold
            && (forall i | |h| - threshold <= i < |h| :: !h[i].success)
            && now < h[|h| - 1].time + timeout
  {
    FailuresEndHistory(h);
  }

  /** Completion times never go back. */
  predicate InOrder(h: seq<Completion>) {
    |h| <= 1 || (h[|h| - 2].time <= h[|h| - 1].time && InOrder(h[..|h| - 1]))
  }

  lemma HistorySnoc(h: seq<Completion>, c: Completion)
    requires InOrder(h) && (h != [] ==> h[|h| - 1].time <= c.time)
    ensures InOrder(h + [c])
    ensures FailuresSince(h + [c]) == if c.success then 0 else FailuresSince(h) + 1
  {
    hide InOrder;
    InOrderSnoc(h, c);
    assert (h + [c])[..|h|] == h;
  }

  lemma InOrderSnoc(h: seq<Completion>, c: Completion)
    requires InOrder(h) && (h != [] ==> h[|h| - 1].time <= c.time)
    ensures InOrder(h + [c])
  {
    hide FailuresSince;
    assert (h + [c])[..|h|] == h;
  }

  /** Failures that arrive from calls already in flight only lengthen an outage: until a
      success is heard, every call within the timeout of the trip is refused. */
  lemma {:induction false} OutageHolds(h: seq<Completion>, later: seq<Completion>, threshold: nat,
                                       timeout: real, now: real)
    requires Refused(h, threshold, timeout, now) && InOrder(h + later)
    requires forall i | 0 <= i < |later| :: !later[i].success
    ensures Refused(h + later, threshold, timeout, now)
    ensures FailuresSince(h + later) == FailuresSince(h) + |later|
  {
    if later == [] {
      assert h + later == h;
    } else {
      var all := h + later;
      var init := later[..|later| - 1];
      assert all[..|all| - 1] == h + init;
      OutageHolds(h, init, threshold, timeout, now);
      assert all[|h| - 1] == h[|h| - 1] && all[|all| - 1] == later[|later| - 1];
    }
  }

  /** One success reopens the way whatever came before; once the threshold was reached,
      one more failure shuts it for a whole timeout again. */
  lemma ProbeDecides(h: seq<Completion>, threshold: nat, timeout: real, t: real, now: real)
    requires timeout > 0.0 && t <= now
    ensures !Refused(h + [Completion(true, t)], threshold, timeout, now)
    ensures FailuresSince(h) >= threshold > 0 ==>
              (Refused(h + [Completion(false, t)], threshold, timeout, now) <==> now < t + timeout)
  {
    assert (h + [Completion(false, t)])[..|h|] == h;
  }

  class CircuitBreaker {
    const failureThreshold: nat
    const recoveryTimeout: real
    var failures: nat
    var state: CircuitState
    var openedAt: Option<real>
    ghost var history: seq<Completion>
    ghost var clock: real

    ghost predicate Valid()
      reads this
    {
      && failureThreshold >= 1
      && recoveryTimeout > 0.0
      && InOrder(history)
      && (history != [] ==> history[|history| - 1].time <= clock)
      && failures == FailuresSince(history)
      && (state == Closed <==> failures < failureThreshold)
      && openedAt == (if failures < failureThreshold then None else Some(history[|history| - 1].time))
      && (state == HalfOpen ==> clock >= openedAt.value + recoveryTimeout)
    }

    constructor (failureThreshold: nat, recoveryTimeout: real)
      requires failureThreshold >= 1 && recoveryTimeout > 0.0
      ensures Valid() && history == [] && clock == 0.0
      ensures this.failureThreshold == failureThreshold && this.recoveryTimeout == recoveryTimeout
    {
      this.failureThreshold, this.recoveryTimeout := failureThreshold, recoveryTimeout;
      failures, state, openedAt := 0, Closed, None;
      history, clock := [], 0.0;
    }

    /** Reading the state may promote an open circuit to half-open. What is read is what
        the history says at this moment. */
    method State(now: real) returns (s: CircuitState)
      requires Valid() && clock <= now
      modifies this`state, this`clock
      ensures Valid() && clock == now && s == state
      ensures s == Open <==> Refused(history, failureThreshold, recoveryTimeout, now)
      ensures s == Closed <==> FailuresSince(history) < failureThreshold
    {
      if state == Open && openedAt.Some? && now - openedAt.value >= recoveryTimeout {
        state := HalfOpen;
      }
      clock := now;
      s := state;
    }

    method IsOpen(now: real) returns (open: bool)
      requires Valid() && clock <= now
      modifies this`state, this`clock
      ensures Valid() && clock == now
      ensures open <==> Refused(history, failureThreshold, recoveryTimeout, now)
    {
      var s := State(now);
      open := s == Open;
    }

    method RecordSuccess(ghost now: real)
      requires Valid() && clock <= now
      modifies this
      ensures Valid() && clock == now && history == old(history) + [Completion(true, now)]
    {
      hide FailuresSince, InOrder;
      HistorySnoc(history, Completion(true, now));
      failures := 0;
      if state != Closed {
        state := Closed;
      }
      openedAt := None;
      history := history + [Completion(true, now)];
      clock := now;
    }

    method RecordFailure(now: real)
      requires Valid() && clock <= now
      modifies this
      ensures Valid() && clock == now && history == old(history) + [Completion(false, now)]
    {
      hide FailuresSince, InOrder;
      HistorySnoc(history, Completion(false, now));
      failures := failures + 1;
      history := history + [Completion(false, now)];
      clock := now;
      if failures >= failureThreshold {
        state := Open;
        openedAt := Some(now);
      }
    }
  }

  /** The guard around an agent's calls. A call is a start, refused or admitted, and for
      an admitted call one completion some time later; others may run in between. */
  class GuardedAgent {
    const breaker: CircuitBreaker
    ghost var inFlight: nat

    constructor (breaker: CircuitBreaker)
      ensures this.breaker == breaker && inFlight == 0
    {
      this.breaker := breaker;
      inFlight := 0;
    }

    /** Refused exactly when the history of completions says so. */
    method Start(now: real) returns (admitted: bool)
      requires breaker.Valid() && breaker.clock <= now
      modifies this, breaker`state, breaker`clock
      ensures breaker.Valid() && breaker.clock == now && breaker.history == old(breaker.history)
      ensures admitted <==> !Refused(breaker.history, breaker.failureThreshold, breaker.recoveryTimeout, now)
      ensures inFlight == old(inFlight) + if admitted then 1 else 0
    {
      var open := breaker.IsOpen(now);
      if open {
        return false;
      }
      inFlight := inFlight + 1;
      admitted := true;
    }

    /** A call that raised, or whose output does not validate, counts as a failure. */
    method Complete(raised: bool, validates: bool, now: real)
      requires breaker.Valid() && breaker.clock <= now && inFlight > 0
      modifies this, breaker
      ensures breaker.Valid() && breaker.clock == now && inFlight == old(inFlight) - 1
      ensures breaker.history == old(breaker.history) + [Completion(!raised && validates, now)]
    {
      inFlight := inFlight - 1;
      if raised || !validates {
        breaker.RecordFailure(now);
      } else {
        breaker.RecordSuccess(now);
      }
    }

    /** A cancelled call is no Exception: it ends without a word to the breaker. */
    method Cancel()
      requires breaker.Valid() && inFlight > 0
      modifies this
      ensures breaker.Valid() && inFlight == old(inFlight) - 1
    {
      inFlight := inFlight - 1;
    }
  }
}
