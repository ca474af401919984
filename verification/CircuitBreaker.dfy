/** Circuit breaking and retry: services/adapter/runtime.py. Times are seconds passed in by the caller. */
module CircuitBreaker {
  import opened Common

  datatype State = Closed | Open | HalfOpen

  datatype Outcome = Success | Failure(at: real)

  // ---------------------------------------------------------------- what the breaker stands for

  /** Failures since the last success. */
  function Consecutive(outcomes: seq<Outcome>): nat {
    if outcomes == [] || outcomes[|outcomes| - 1].Success? then 0 else 1 + Consecutive(outcomes[..|outcomes| - 1])
  }

  /** When the breaker refuses requests, in terms of the whole history: the failures since the last success have
      reached the limit (at least one is always needed) and the latest is younger than the timeout. */
  ghost predicate Refuses(outcomes: seq<Outcome>, maxFailures: int, resetTimeout: real, now: real) {
    && Consecutive(outcomes) >= 1
    && Consecutive(outcomes) >= maxFailures
    && now - outcomes[|outcomes| - 1].at < resetTimeout
  }

  function LastFailure(outcomes: seq<Outcome>): Option<real> {
    if outcomes == [] then None
    else if outcomes[|outcomes| - 1].Failure? then Some(outcomes[|outcomes| - 1].at)
    else LastFailure(outcomes[..|outcomes| - 1])
  }

  class Breaker {
    const maxFailures: int
    const resetTimeout: real
    var state: State
    var failureCount: int
    var lastFailureTime: Option<real>
    /** Every recorded outcome. */
    ghost var outcomes: seq<Outcome>

    ghost predicate Valid()
      reads this
    {
      && failureCount == Consecutive(outcomes)
      && lastFailureTime == LastFailure(outcomes)
      && state == if Consecutive(outcomes) >= 1 && Consecutive(outcomes) >= maxFailures then Open else Closed
    }

    constructor (maxFailures: int, resetTimeout: real)
      ensures Valid() && outcomes == []
      ensures this.maxFailures == maxFailures && this.resetTimeout == resetTimeout
    {
      this.maxFailures := maxFailures;
      this.resetTimeout := resetTimeout;
      state, failureCount, lastFailureTime, outcomes := Closed, 0, None, [];
    }

    /** The `state` property: an open breaker shows as half open once the timeout has passed. */
    function StateAt(now: real): State
      reads this
    {
      if state == Open && lastFailureTime.Some? then
        if now - lastFailureTime.value >= resetTimeout then HalfOpen else state
      else state
    }

    method RecordSuccess()
      requires Valid()
      modifies this
      ensures Valid() && outcomes == old(outcomes) + [Success]
    {
      failureCount := 0;
      if state == HalfOpen || state == Open {
        state := Closed;
      }
      outcomes := outcomes + [Success];
      assert outcomes[..|outcomes| - 1] == old(outcomes);
    }

    method RecordFailure(now: real)
      requires Valid()
      modifies this
      ensures Valid() && outcomes == old(outcomes) + [Failure(now)]
    {
      failureCount := failureCount + 1;
      lastFailureTime := Some(now);
      if failureCount >= maxFailures {
        state := Open;
      }
      outcomes := outcomes + [Failure(now)];
      assert outcomes[..|outcomes| - 1] == old(outcomes);
    }

    method AllowRequest(now: real) returns (allowed: bool)
      requires Valid()
      ensures allowed <==> !Refuses(outcomes, maxFailures, resetTimeout, now)
    {
      var current := StateAt(now);
      if current == Closed {
        return true;
      }
      if current == HalfOpen {
        return true;
      }
      return false;
    }
  }

  // ---------------------------------------------------------------- retry

  function Pow2(n: nat): nat {
    if n == 0 then 1 else 2 * Pow2(n - 1)
  }

  function Sum(delays: seq<real>): real {
    if delays == [] then 0.0 else Sum(delays[..|delays| - 1]) + delays[|delays| - 1]
  }

  function Delay(base: real, attempt: nat): real {
    base * (Pow2(attempt) as real)
  }

  /** The delays base, 2 base, 4 base, ... */
  function Backoff(base: real, n: nat): seq<real> {
    if n == 0 then [] else Backoff(base, n - 1) + [Delay(base, n - 1)]
  }

  lemma BackoffTotal(base: real, n: nat)
    ensures Sum(Backoff(base, n)) == base * ((Pow2(n) - 1) as real)
  {
    SumIsNextDelay(base, n);
    assert (Pow2(n) - 1) as real == (Pow2(n) as real) - 1.0;
  }

  lemma SumOneMore(delays: seq<real>, delay: real)
    ensures Sum(delays + [delay]) == Sum(delays) + delay
  {
    assert (delays + [delay])[..|delays|] == delays;
  }

  lemma DelayDoubles(base: real, n: nat)
    ensures Delay(base, n + 1) == 2.0 * Delay(base, n)
  {
    assert Pow2(n + 1) as real == 2.0 * (Pow2(n) as real);
  }

  lemma {:induction false} SumIsNextDelay(base: real, n: nat)
    ensures Sum(Backoff(base, n)) == Delay(base, n) - base
  {
    if n > 0 {
      SumIsNextDelay(base, n - 1);
      SumOneMore(Backoff(base, n - 1), Delay(base, n - 1));
      DelayDoubles(base, n - 1);
    } else {
      assert Pow2(0) == 1;
    }
  }

  /** Attempts that fail before the first success. */
  function FailuresFirst(attempts: seq<Outcome>): (k: nat)
    ensures k <= |attempts|
    ensures forall i :: 0 <= i < k ==> attempts[i].Failure?
    ensures k < |attempts| ==> attempts[k].Success?
  {
    if attempts == [] || attempts[0].Success? then 0 else 1 + FailuresFirst(attempts[1..])
  }

  /** One sleep after every failed attempt but the last one allowed. */
  function SleepCount(attempts: seq<Outcome>): nat {
    SleepsAfter(FailuresFirst(attempts), |attempts|)
  }

  /** Sleeps after i failed attempts of n. */
  function SleepsAfter(i: nat, n: nat): nat {
    if i == n && i > 0 then i - 1 else i
  }

  datatype Probe = Healthy | Unhealthy | Raises

  class AdapterRuntime {
    const maxRetries: int
    const baseRetryDelay: real
    const breaker: Breaker

    constructor (maxRetries: int, baseRetryDelay: real, maxFailures: int, resetTimeout: real)
      ensures this.maxRetries == maxRetries && this.baseRetryDelay == baseRetryDelay
      ensures fresh(breaker) && breaker.Valid() && breaker.outcomes == []
      ensures breaker.maxFailures == maxFailures && breaker.resetTimeout == resetTimeout
    {
      this.maxRetries := maxRetries;
      this.baseRetryDelay := baseRetryDelay;
      breaker := new Breaker(maxFailures, resetTimeout);
    }

    /** `connect_with_retry`; `attempts` says how each call of the adapter's `connect` would end. The connection is
        made by the first success, every attempt made is recorded, and the sleeps double from the base delay. */
    method ConnectWithRetry(attempts: seq<Outcome>) returns (connected: bool, sleeps: seq<real>)
      requires breaker.Valid()
      requires |attempts| == if maxRetries < 0 then 0 else maxRetries
      modifies breaker
      ensures breaker.Valid()
      ensures connected <==> FailuresFirst(attempts) < |attempts|
      ensures breaker.outcomes ==
                old(breaker.outcomes) + attempts[..FailuresFirst(attempts)] + if connected then [Success] else []
      ensures sleeps == Backoff(baseRetryDelay, SleepCount(attempts))
      ensures Sum(sleeps) == baseRetryDelay * ((Pow2(SleepCount(attempts)) - 1) as real)
    {
      BackoffTotal(baseRetryDelay, SleepCount(attempts));
      sleeps := [];
      var attempt := 0;
      while attempt < maxRetries
        invariant 0 <= attempt <= |attempts|
        invariant breaker.Valid()
        invariant forall i :: 0 <= i < attempt ==> attempts[i].Failure?
        invariant breaker.outcomes == old(breaker.outcomes) + attempts[..attempt]
        invariant sleeps == Backoff(baseRetryDelay, SleepsAfter(attempt, |attempts|))
      {
        if attempts[attempt].Success? {
          breaker.RecordSuccess();
          FirstSuccessAt(attempts, attempt);
          return true, sleeps;
        }
        breaker.RecordFailure(attempts[attempt].at);
        RecordedOneMore(old(breaker.outcomes), attempts, attempt);
        if attempt < maxRetries - 1 {
          sleeps := sleeps + [Delay(baseRetryDelay, attempt)];
        }
        attempt := attempt + 1;
      }
      NoSuccess(attempts);
      return false, sleeps;
    }

    /** `check_health`: refused without probing while the breaker refuses; otherwise the probe is recorded. */
    method CheckHealth(probe: Probe, now: real, failedAt: real) returns (healthy: bool)
      requires breaker.Valid()
      modifies breaker
      ensures breaker.Valid()
      ensures var refused := Refuses(old(breaker.outcomes), breaker.maxFailures, breaker.resetTimeout, now);
              && (healthy <==> !refused && probe == Healthy)
              && breaker.outcomes == old(breaker.outcomes) +
                   if refused then [] else if probe == Healthy then [Success] else [Failure(failedAt)]
    {
      var allowed := breaker.AllowRequest(now);
      if !allowed {
        return false;
      }
      match probe
      case Healthy =>
        breaker.RecordSuccess();
        return true;
      case Unhealthy =>
        breaker.RecordFailure(failedAt);
        return false;
      case Raises =>
        breaker.RecordFailure(failedAt);
        return false;
    }
  }

  /** When all of n >= 1 attempts fail, n - 1 sleeps take base (2^(n - 1) - 1) seconds together. */
  lemma FailedConnectsSleep(base: real, attempts: seq<Outcome>)
    requires attempts != [] && forall i :: 0 <= i < |attempts| ==> attempts[i].Failure?
    ensures SleepCount(attempts) == |attempts| - 1
    ensures Sum(Backoff(base, SleepCount(attempts))) == base * ((Pow2(|attempts| - 1) - 1) as real)
  {
    NoSuccess(attempts);
    BackoffTotal(base, |attempts| - 1);
  }

  /** The i-th sleep takes base * 2^i seconds. */
  lemma {:induction false} DelaysDouble(base: real, n: nat)
    ensures |Backoff(base, n)| == n
    ensures n > 0 ==> Backoff(base, n)[0] == base
    ensures forall i :: 0 < i < n ==> Backoff(base, n)[i] == 2.0 * Backoff(base, n)[i - 1]
  {
    if n > 0 {
      DelaysDouble(base, n - 1);
      if n > 1 {
        DelayDoubles(base, n - 2);
      } else {
        assert Pow2(0) == 1;
      }
    }
  }

  /** A success after k failed attempts is preceded by k sleeps. */
  lemma SuccessAfterSleeps(attempts: seq<Outcome>, k: nat)
    requires k < |attempts| && attempts[k].Success? && forall i :: 0 <= i < k ==> attempts[i].Failure?
    ensures SleepCount(attempts) == k
  {
    FirstSuccessAt(attempts, k);
  }

  lemma RecordedOneMore(before: seq<Outcome>, attempts: seq<Outcome>, i: nat)
    requires i < |attempts|
    ensures before + attempts[..i] + [attempts[i]] == before + attempts[..i + 1]
  {
  }

  lemma FirstSuccessAt(attempts: seq<Outcome>, k: nat)
    requires k < |attempts| && attempts[k].Success?
    requires forall i :: 0 <= i < k ==> attempts[i].Failure?
    ensures FailuresFirst(attempts) == k
  {
  }

  lemma NoSuccess(attempts: seq<Outcome>)
    requires forall i :: 0 <= i < |attempts| ==> attempts[i].Failure?
    ensures FailuresFirst(attempts) == |attempts| && attempts[..|attempts|] == attempts
  {
  }

  // ---------------------------------------------------------------- laws of refusal

  lemma {:induction false} ConsecutiveAppend(outcomes: seq<Outcome>, failures: seq<Outcome>)
    requires forall i :: 0 <= i < |failures| ==> failures[i].Failure?
    ensures Consecutive(outcomes + failures) == Consecutive(outcomes) + |failures|
  {
    if failures == [] {
      assert outcomes + failures == outcomes;
    } else {
      var all, front := outcomes + failures, failures[..|failures| - 1];
      assert all[..|all| - 1] == outcomes + front;
      ConsecutiveAppend(outcomes, front);
    }
  }

  /** Whatever happened before, a success admits every request, and a run of failures is refused exactly when it
      completes the limit and its last failure is younger than the timeout. */
  lemma RefusalAfterFailures(outcomes: seq<Outcome>, failures: seq<Outcome>, maxFailures: int, resetTimeout: real,
                             now: real)
    requires failures != [] && forall i :: 0 <= i < |failures| ==> failures[i].Failure?
    ensures !Refuses(outcomes + [Success], maxFailures, resetTimeout, now)
    ensures Refuses(outcomes + [Success] + failures, maxFailures, resetTimeout, now) <==>
            (|failures| >= maxFailures && now - failures[|failures| - 1].at < resetTimeout)
  {
    ConsecutiveAppend(outcomes + [Success], failures);
  }
}
