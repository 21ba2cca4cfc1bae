/**
 * `retry`: call a fallible operation up to a given number of times, with
 * exponential backoff between attempts.
 *
 * The operation is modelled by the outcomes of its successive calls. A failed
 * call also carries the number `random.random()` yields for the jitter drawn
 * after it; sleeping is recorded in a log of waits instead of being performed.
 */
module Retrying {
  import opened Wrappers

  /** The outcome of one call: its value, or the exception it raised and the random draw made after it. */
  datatype Call<+T, +E> = Returned(value: T) | Raised(error: E, draw: real)

  /** The keyword arguments of `retry` that shape its schedule. */
  datatype RetryPolicy = RetryPolicy(attempts: int, baseDelay: real, backoff: real, maxDelay: real)

  /** The schedule `retry` uses unless told otherwise: 3 attempts, 1s doubling up to 20s. */
  const DEFAULT_POLICY := RetryPolicy(3, 1.0, 2.0, 20.0)

  /**
   * Why `retry` gave up: the exception of the last attempt, (with no attempt
   * allowed at all) the failed assertion that some exception was seen, or the
   * `ValueError` `time.sleep` raises when asked to wait a negative time.
   */
  datatype RetryFailure<+E> = LastError(error: E) | NoAttempts | SleepRejected

  function Pow(base: real, n: nat): real
  {
    if n == 0 then 1.0 else Pow(base, n - 1) * base
  }

  /** The delay before jitter after the k-th failure (counting from 0): base * backoff^k. */
  function Delay(policy: RetryPolicy, k: nat): real
  {
    policy.baseDelay * Pow(policy.backoff, k)
  }

  function Min(a: real, b: real): real
  {
    if a <= b then a else b
  }

  /** `random.uniform(0, 0.2 * delay)` for the draw `random.random()` returned. */
  function Jitter(delay: real, draw: real): real
  {
    0.2 * delay * draw
  }

  /** The sleep after the k-th failure (counting from 0): the jittered delay, capped at maxDelay. */
  function Wait(policy: RetryPolicy, k: nat, draw: real): real
  {
    Min(policy.maxDelay, Delay(policy, k) + Jitter(Delay(policy, k), draw))
  }

  /** Each delay is the one before it times the backoff factor. */
  lemma DelayStep(policy: RetryPolicy, k: nat)
    ensures Delay(policy, k + 1) == Delay(policy, k) * policy.backoff
  {
    assert Pow(policy.backoff, k + 1) == Pow(policy.backoff, k) * policy.backoff;
  }

  lemma {:induction false} DelayNonNegative(policy: RetryPolicy, k: nat)
    requires 0.0 <= policy.baseDelay && 0.0 <= policy.backoff
    ensures 0.0 <= Delay(policy, k)
  {
    if k > 0 {
      DelayNonNegative(policy, k - 1);
      DelayStep(policy, k - 1);
    }
  }

  /**
   * With a draw in [0, 1] and non-negative delays, a wait is never above
   * maxDelay, never below the un-jittered delay (or maxDelay, if that is
   * smaller) and never more than 20% above it.
   */
  lemma WaitBounds(policy: RetryPolicy, k: nat, draw: real)
    requires 0.0 <= policy.baseDelay && 0.0 <= policy.backoff
    requires 0.0 <= draw <= 1.0
    ensures Wait(policy, k, draw) <= policy.maxDelay
    ensures Min(policy.maxDelay, Delay(policy, k)) <= Wait(policy, k, draw)
    ensures Wait(policy, k, draw) <= Min(policy.maxDelay, 1.2 * Delay(policy, k))
  {
    var d := Delay(policy, k);
    DelayNonNegative(policy, k);
    var x := 0.2 * d;
    ScaledDraw(x, draw);
    assert Jitter(d, draw) == x * draw;
  }

  lemma ScaledDraw(x: real, draw: real)
    requires 0.0 <= x && 0.0 <= draw <= 1.0
    ensures 0.0 <= x * draw <= x
  {
    assert x - x * draw == x * (1.0 - draw);
  }

  /** The default schedule: 1s, 2s, 4s, ... before jitter, and never more than 20s. */
  lemma DefaultSchedule()
    ensures Wait(DEFAULT_POLICY, 0, 0.0) == 1.0
    ensures Wait(DEFAULT_POLICY, 1, 0.0) == 2.0
    ensures Wait(DEFAULT_POLICY, 1, 1.0) == 2.4
    ensures Wait(DEFAULT_POLICY, 5, 0.0) == 20.0
  {
    assert Pow(2.0, 5) == 32.0;
  }

  /** The number of calls `retry` is allowed to make. */
  function Allowed(policy: RetryPolicy): nat
  {
    if policy.attempts < 0 then 0 else policy.attempts
  }

  /** The first `n` calls raise, and the wait after each of them is a length `time.sleep` accepts. */
  predicate SleepsAccepted<T, E>(calls: seq<Call<T, E>>, policy: RetryPolicy, n: nat)
    requires n <= |calls|
  {
    forall j :: 0 <= j < n ==> calls[j].Raised? && 0.0 <= Wait(policy, j, calls[j].draw)
  }

  /** `retry` returns a value: some allowed call returns, and every wait before it was accepted. */
  predicate Succeeds<T, E>(calls: seq<Call<T, E>>, policy: RetryPolicy)
  {
    exists i :: 0 <= i < policy.attempts && i < |calls| && calls[i].Returned? && SleepsAccepted(calls, policy, i)
  }

  /** One step of the loop of `retry`: the wait it computes from the running delay, and the next delay. */
  lemma NextWait(policy: RetryPolicy, k: nat, delay: real, draw: real)
    requires delay == Delay(policy, k)
    ensures Min(policy.maxDelay, delay + Jitter(delay, draw)) == Wait(policy, k, draw)
    ensures delay * policy.backoff == Delay(policy, k + 1)
  {
    DelayStep(policy, k);
  }

  /** A returning call after accepted waits makes the retry succeed. */
  lemma SucceedsAt<T, E>(calls: seq<Call<T, E>>, policy: RetryPolicy, i: nat)
    requires i < policy.attempts && i < |calls| && calls[i].Returned? && SleepsAccepted(calls, policy, i)
    ensures Succeeds(calls, policy)
  {
  }

  /** Once the wait after the `n`th failure is negative, no later call can make the retry succeed. */
  lemma RejectedFails<T, E>(calls: seq<Call<T, E>>, policy: RetryPolicy, n: nat)
    requires n < |calls| && forall j :: 0 <= j <= n ==> calls[j].Raised?
    requires Wait(policy, n, calls[n].draw) < 0.0
    ensures !Succeeds(calls, policy)
  {
    forall i | 0 <= i < policy.attempts && i < |calls| && calls[i].Returned?
      ensures !SleepsAccepted(calls, policy, i)
    {
      assert n < i;
    }
  }

  /** When every allowed call raises, the retry does not succeed. */
  lemma AllRaisedFails<T, E>(calls: seq<Call<T, E>>, policy: RetryPolicy)
    requires forall j :: 0 <= j < policy.attempts && j < |calls| ==> calls[j].Raised?
    ensures !Succeeds(calls, policy)
  {
  }

  /**
   * `retry`. It returns the value of the first call that returns, having made
   * exactly the calls up to that one; if every allowed call raises, it raises
   * the last exception after making all of them. It waits after every failed
   * call except the last allowed one, for min(maxDelay, delay + jitter), the
   * delay growing by the backoff factor each time and the jitter drawn
   * uniformly from [0, 0.2 * delay]. A negative wait makes `time.sleep`
   * raise inside the handler, which ends `retry` with that error.
   */
  method Retry<T, E>(calls: seq<Call<T, E>>, policy: RetryPolicy)
    returns (r: Result<T, RetryFailure<E>>, made: nat, waits: seq<real>)
    requires policy.attempts <= |calls|
    ensures made <= Allowed(policy)
    ensures forall j :: 0 <= j < made - 1 ==> calls[j].Raised?
    ensures r.Ok? ==> 0 < made && calls[made - 1] == Returned(r.value)
    ensures r.Ok? <==> Succeeds(calls, policy)
    ensures r == Err(NoAttempts) <==> policy.attempts <= 0
    ensures r.Err? && r.error.LastError? ==>
              0 < made == Allowed(policy) && calls[made - 1].Raised? && r.error.error == calls[made - 1].error
    ensures r == Err(SleepRejected) ==>
              0 < made < Allowed(policy) && calls[made - 1].Raised? && Wait(policy, made - 1, calls[made - 1].draw) < 0.0
    ensures |waits| == if made == 0 then 0 else made - 1
    ensures forall j :: 0 <= j < |waits| ==>
              calls[j].Raised? && waits[j] == Wait(policy, j, calls[j].draw) && 0.0 <= waits[j]
  {
    var lastError: Option<E> := None;
    var delay := policy.baseDelay;
    made, waits := 0, [];
    var i := 1;
    while i <= policy.attempts
      invariant 1 <= i && made == i - 1 && made <= Allowed(policy)
      invariant 0 < policy.attempts ==> i <= policy.attempts
      invariant |waits| == made && SleepsAccepted(calls, policy, made)
      invariant lastError.None? <==> made == 0
      invariant lastError.Some? ==> lastError.value == calls[made - 1].error
      invariant delay == Delay(policy, made)
      invariant forall j :: 0 <= j < |waits| ==>
                  waits[j] == Wait(policy, j, calls[j].draw)
    {
      var call := calls[i - 1];
      made := i;
      if call.Returned? {
        r := Ok(call.value);
        SucceedsAt(calls, policy, made - 1);
        return;
      }
      lastError := Some(call.error);
      if i == policy.attempts {
        break;
      }
      NextWait(policy, made - 1, delay, call.draw);
      var jitter := Jitter(delay, call.draw);
      var sleepFor := Min(policy.maxDelay, delay + jitter);
      if sleepFor < 0.0 {
        RejectedFails(calls, policy, made - 1);
        r := Err(SleepRejected);
        return;
      }
      waits := waits + [sleepFor];
      delay := delay * policy.backoff;
      i := i + 1;
    }
    AllRaisedFails(calls, policy);
    match lastError {
      case Some(e) => r := Err(LastError(e));
      case None => r := Err(NoAttempts);
    }
  }
}
