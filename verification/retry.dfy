/**
 * `withRetry`: call an asynchronous function, and while it rejects with a
 * retryable error and retries remain, wait with exponential backoff, notify
 * `onRetry`, and call it again.
 *
 * The function being retried is abstract: `fn(k)` is how its `k`-th call
 * (counting from 0) settles. Timers are not run; each wait is recorded as a
 * number of milliseconds.
 */
module Retry {
  import opened Base
  import opened Api

  /** The numeric `withRetry` options: how many retries (not calls) and the first backoff delay. */
  datatype Policy = Policy(maxRetries: nat, retryDelay: nat)

  /** The options' defaults: 3 retries, 1000 ms. */
  const DefaultPolicy := Policy(3, 1000)

  /**
   * One retry, in the order it happens: wait `delay` ms, then call
   * `onRetry({attempt, maxRetries, error})` with the previous call's error,
   * then call the function again.
   */
  datatype RetryStep = RetryStep(delay: nat, attempt: nat, maxRetries: nat, error: ApiError)

  /**
   * What one `withRetry` call did: the retries it made, in order, and how it
   * settled. The function was called `|retries| + 1` times.
   */
  datatype Run<+T> = Run(retries: seq<RetryStep>, outcome: Outcome<T>)
  {
    function Calls(): nat
    {
      |retries| + 1
    }
  }

  /** The wait before call number `attempt` (>= 1): `retryDelay · 2^(attempt−1)`. */
  function Backoff(policy: Policy, attempt: nat): nat
    requires attempt >= 1
  {
    policy.retryDelay * Pow2(attempt - 1)
  }

  /** `step` is the retry made after call `k` rejected with an error the predicate accepts. */
  ghost predicate RetriedAfter<T>(fn: nat -> Outcome<T>, policy: Policy, shouldRetry: ApiError -> bool,
                                  k: nat, step: RetryStep)
  {
    && fn(k).Fail?
    && shouldRetry(fn(k).error)
    && step == RetryStep(Backoff(policy, k + 1), k + 1, policy.maxRetries, fn(k).error)
  }

  /**
   * The loop from iteration `attempt` on: its retries (numbered from
   * `attempt + 1`) and how it settles.
   */
  function Loop<T>(fn: nat -> Outcome<T>, policy: Policy, shouldRetry: ApiError -> bool, attempt: nat): (r: Run<T>)
    requires attempt <= policy.maxRetries
    ensures attempt + |r.retries| <= policy.maxRetries
    ensures forall j :: 0 <= j < |r.retries| ==> RetriedAfter(fn, policy, shouldRetry, attempt + j, r.retries[j])
    ensures r.outcome == fn(attempt + |r.retries|)
    ensures r.outcome.Fail? ==> attempt + |r.retries| == policy.maxRetries || !shouldRetry(r.outcome.error)
    decreases policy.maxRetries - attempt
  {
    match fn(attempt)
    case Ok(v) => Run([], Ok(v))
    case Fail(e) =>
      if attempt >= policy.maxRetries || !shouldRetry(e) then Run([], Fail(e))
      else
        var rest := Loop(fn, policy, shouldRetry, attempt + 1);
        Run([RetryStep(Backoff(policy, attempt + 1), attempt + 1, policy.maxRetries, e)] + rest.retries, rest.outcome)
  }

  /**
   * `withRetry(fn, {maxRetries, retryDelay, shouldRetry})`. At most
   * `maxRetries + 1` calls; every retry follows a call that rejected with an
   * error `shouldRetry` accepts and carries that error; the promise settles
   * like the last call; and it rejects only when the budget is spent or the
   * last error is not retryable.
   */
  function WithRetry<T>(fn: nat -> Outcome<T>, policy: Policy, shouldRetry: ApiError -> bool): (r: Run<T>)
    ensures |r.retries| <= policy.maxRetries
    ensures forall k :: 0 <= k < |r.retries| ==> RetriedAfter(fn, policy, shouldRetry, k, r.retries[k])
    ensures r.outcome == fn(|r.retries|)
    ensures r.outcome.Fail? ==> |r.retries| == policy.maxRetries || !shouldRetry(r.outcome.error)
  {
    var r := Loop(fn, policy, shouldRetry, 0);
    assert forall k :: 0 <= k < |r.retries| ==> RetriedAfter(fn, policy, shouldRetry, 0 + k, r.retries[k]);
    r
  }

  /**
   * The contract of `WithRetry` pins its result down: any run that makes the
   * same promises is the one `WithRetry` returns.
   */
  lemma {:induction false} WithRetryUnique<T>(fn: nat -> Outcome<T>, policy: Policy, shouldRetry: ApiError -> bool, r: Run<T>)
    requires |r.retries| <= policy.maxRetries
    requires forall k :: 0 <= k < |r.retries| ==> RetriedAfter(fn, policy, shouldRetry, k, r.retries[k])
    requires r.outcome == fn(|r.retries|)
    requires r.outcome.Fail? ==> |r.retries| == policy.maxRetries || !shouldRetry(r.outcome.error)
    ensures r == WithRetry(fn, policy, shouldRetry)
  {
    var w := WithRetry(fn, policy, shouldRetry);
    var m, n := |r.retries|, |w.retries|;
    // a run that stopped after call m cannot have retried after it, and vice versa
    assert m < n ==> RetriedAfter(fn, policy, shouldRetry, m, w.retries[m]);
    assert n < m ==> RetriedAfter(fn, policy, shouldRetry, n, r.retries[n]);
    assert m == n;
    assert forall k :: 0 <= k < m ==> r.retries[k] == w.retries[k];
  }

  /**
   * The first call that fulfils ends the loop: if calls `0..j-1` all rejected
   * retryably and `j` is within the budget, `withRetry` fulfils with call `j`'s
   * value after exactly `j + 1` calls, and makes no further call.
   */
  lemma {:induction false} FirstSuccessWins<T>(fn: nat -> Outcome<T>, policy: Policy, shouldRetry: ApiError -> bool, j: nat)
    requires j <= policy.maxRetries
    requires forall k :: 0 <= k < j ==> fn(k).Fail? && shouldRetry(fn(k).error)
    requires fn(j).Ok?
    ensures WithRetry(fn, policy, shouldRetry).Calls() == j + 1
    ensures WithRetry(fn, policy, shouldRetry).outcome == fn(j)
  {
    StopsAtFirstNonRetryable(fn, policy, shouldRetry, j);
  }

  /**
   * A rejection the predicate refuses is rethrown at once, even with retries
   * left: if calls `0..j-1` rejected retryably and call `j` rejects with an
   * error `shouldRetry` refuses, `withRetry` rejects with that error after
   * `j + 1` calls.
   */
  lemma {:induction false} NonRetryableRethrown<T>(fn: nat -> Outcome<T>, policy: Policy, shouldRetry: ApiError -> bool, j: nat)
    requires j <= policy.maxRetries
    requires forall k :: 0 <= k < j ==> fn(k).Fail? && shouldRetry(fn(k).error)
    requires fn(j).Fail? && !shouldRetry(fn(j).error)
    ensures WithRetry(fn, policy, shouldRetry).Calls() == j + 1
    ensures WithRetry(fn, policy, shouldRetry).outcome == Fail(fn(j).error)
  {
    StopsAtFirstNonRetryable(fn, policy, shouldRetry, j);
  }

  /**
   * When every call within the budget rejects retryably, `withRetry` makes
   * `maxRetries + 1` calls and rejects with the last call's error.
   */
  lemma {:induction false} ExhaustedBudget<T>(fn: nat -> Outcome<T>, policy: Policy, shouldRetry: ApiError -> bool)
    requires forall k :: 0 <= k <= policy.maxRetries ==> fn(k).Fail? && shouldRetry(fn(k).error)
    ensures WithRetry(fn, policy, shouldRetry).Calls() == policy.maxRetries + 1
    ensures WithRetry(fn, policy, shouldRetry).outcome == Fail(fn(policy.maxRetries).error)
  {
    StopsAtFirstNonRetryable(fn, policy, shouldRetry, policy.maxRetries);
  }

  /** The loop runs on through every retryable rejection and stops at the first call `j` that is not one, or at the budget. */
  lemma {:induction false} StopsAtFirstNonRetryable<T>(fn: nat -> Outcome<T>, policy: Policy, shouldRetry: ApiError -> bool, j: nat)
    requires j <= policy.maxRetries
    requires forall k :: 0 <= k < j ==> fn(k).Fail? && shouldRetry(fn(k).error)
    requires j == policy.maxRetries || fn(j).Ok? || !shouldRetry(fn(j).error)
    ensures |WithRetry(fn, policy, shouldRetry).retries| == j
  {
    var r := WithRetry(fn, policy, shouldRetry);
    var n := |r.retries|;
    // a retry after call j would need call j to have rejected retryably with budget left
    assert n > j ==> RetriedAfter(fn, policy, shouldRetry, j, r.retries[j]);
  }

  /** The total time spent waiting over `n` retries: `retryDelay · (2^n − 1)`. */
  function TotalWait(steps: seq<RetryStep>): nat
  {
    if |steps| == 0 then 0 else TotalWait(steps[..|steps| - 1]) + steps[|steps| - 1].delay
  }

  lemma {:induction false} TotalWaitGeometric<T>(fn: nat -> Outcome<T>, policy: Policy, shouldRetry: ApiError -> bool, n: nat)
    requires n <= |WithRetry(fn, policy, shouldRetry).retries|
    ensures TotalWait(WithRetry(fn, policy, shouldRetry).retries[..n]) + policy.retryDelay == policy.retryDelay * Pow2(n)
  {
    var r := WithRetry(fn, policy, shouldRetry);
    if n > 0 {
      TotalWaitGeometric(fn, policy, shouldRetry, n - 1);
      var prefix := r.retries[..n];
      assert prefix[..n - 1] == r.retries[..n - 1];
      assert prefix[n - 1].delay == policy.retryDelay * Pow2(n - 1) by {
        assert RetriedAfter(fn, policy, shouldRetry, n - 1, r.retries[n - 1]);
      }
      Doubled(policy.retryDelay, Pow2(n - 1));
    }
  }

  /** Twice a product doubles one factor. */
  lemma Doubled(d: nat, p: nat)
    ensures d * p + d * p == d * (2 * p)
  {
  }
}
