/**
 Retries with exponential backoff (src/retry.rs), with `f64` as real numbers and delays in
 milliseconds. The configured jitter does not enter any delay.
 */
module Retry {
  import opened Changes

  /** `maxRetries` of zero means without limit. */
  datatype RetryConfig = RetryConfig(initialDelay: nat, maxDelay: nat, maxRetries: nat, multiplier: real)

  function Power(m: real, n: nat): real {
    if n == 0 then 1.0 else Times(m, Power(m, n - 1))
  }

  function Times(x: real, y: real): real {
    x * y
  }

  /** `as u64`: toward zero, and zero for a negative value. */
  function Truncate(x: real): nat {
    if x < 0.0 then 0 else x.Floor
  }

  function RealMin(x: real, y: real): real {
    if y < x then y else x
  }

  function Delay(config: RetryConfig, attempts: nat): nat {
    Truncate(RealMin(Times(config.initialDelay as real, Power(config.multiplier, attempts)), config.maxDelay as real))
  }

  /** The sleep of `count` retries, the first of them after `attempts` earlier ones. */
  function TotalDelay(config: RetryConfig, attempts: nat, count: nat): nat {
    if count == 0 then 0 else TotalDelay(config, attempts, count - 1) + Delay(config, attempts + count - 1)
  }

  predicate ShouldRetry(config: RetryConfig, attempts: nat) {
    config.maxRetries == 0 || attempts < config.maxRetries
  }

  lemma {:induction false} PowerPositive(m: real, n: nat)
    requires m >= 0.0
    ensures Power(m, n) >= 0.0
    decreases n
  {
    if n > 0 {
      PowerPositive(m, n - 1);
    }
  }

  lemma ProductPositive(a: real, p: real)
    requires a >= 0.0 && p >= 0.0
    ensures Times(a, p) >= 0.0
  {
  }

  /** The exponential delay in whole milliseconds, up to the maximum and never beyond it. */
  lemma DelayIsExact(config: RetryConfig, attempts: nat)
    requires config.multiplier >= 0.0
    ensures var exact := Times(config.initialDelay as real, Power(config.multiplier, attempts));
            if exact >= config.maxDelay as real then Delay(config, attempts) == config.maxDelay
            else Delay(config, attempts) as real <= exact < Delay(config, attempts) as real + 1.0
  {
    PowerPositive(config.multiplier, attempts);
    ProductPositive(config.initialDelay as real, Power(config.multiplier, attempts));
    hide Power, Times;
  }

  /** Retries come no faster as they go on. */
  lemma {:induction false} DelaysNeverFall(config: RetryConfig, a: nat, b: nat)
    requires config.multiplier >= 1.0 && a <= b
    ensures Delay(config, a) <= Delay(config, b)
    decreases b
  {
    if a < b {
      DelaysNeverFall(config, a, b - 1);
      var initial, p := config.initialDelay as real, Power(config.multiplier, b - 1);
      PowerPositive(config.multiplier, b - 1);
      assert Power(config.multiplier, b) == Times(config.multiplier, p);
      hide Power;
      NoSmallerProduct(initial, config.multiplier, p);
      hide Times;
    }
  }

  lemma NoSmallerProduct(initial: real, m: real, p: real)
    requires initial >= 0.0 && m >= 1.0 && p >= 0.0
    ensures Times(initial, p) <= Times(initial, Times(m, p))
  {
    assert (m - 1.0) * p >= 0.0;
    assert initial * ((m - 1.0) * p) >= 0.0;
    assert initial * (m * p) == initial * p + initial * ((m - 1.0) * p);
  }

  class RetryPolicy {
    const config: RetryConfig
    var attempts: nat

    constructor (config: RetryConfig)
      ensures this.config == config && attempts == 0
    {
      this.config := config;
      attempts := 0;
    }

    method NextDelay() returns (r: Option<nat>)
      ensures r == if ShouldRetry(config, attempts) then Some(Delay(config, attempts)) else None
      ensures r.Some? && config.multiplier >= 0.0 ==>
                var exact := Times(config.initialDelay as real, Power(config.multiplier, attempts));
                if exact >= config.maxDelay as real then r.value == config.maxDelay
                else r.value as real <= exact < r.value as real + 1.0
    {
      hide Power, Times, Truncate, RealMin;
      if config.multiplier >= 0.0 {
        DelayIsExact(config, attempts);
      }
      if !ShouldRetry(config, attempts) {
        return None;
      }
      var delay := Times(config.initialDelay as real, Power(config.multiplier, attempts));
      r := Some(Truncate(RealMin(delay, config.maxDelay as real)));
    }

    method RecordAttempt()
      modifies this
      ensures attempts == old(attempts) + 1
    {
      attempts := attempts + 1;
    }

    method RecordSuccess()
      modifies this
      ensures attempts == 0
    {
      attempts := 0;
    }
  }

  datatype RetryError<+E> = MaxRetriesExceeded(attempts: nat, lastError: E)

  /** How many retries are left to a policy with a limit. */
  function RetriesLeft(config: RetryConfig, attempts: nat): nat {
    Max(config.maxRetries - attempts, 0)
  }

  /** `calls` calls of an operation end `execute`: the last succeeded or no retry is left, and none before did. */
  ghost predicate Ends<T, E>(config: RetryConfig, attempts: nat, outcome: nat -> Result<T, E>, calls: nat) {
    && calls > 0
    && (forall k: nat :: k < calls - 1 ==> outcome(k).Err?)
    && (config.maxRetries > 0 ==> calls - 1 <= RetriesLeft(config, attempts))
    && (outcome(calls - 1).Ok? || (config.maxRetries > 0 && calls - 1 == RetriesLeft(config, attempts)))
  }

  class RetryOperation {
    const policy: RetryPolicy

    constructor (config: RetryConfig)
      ensures fresh(policy) && policy.config == config && policy.attempts == 0
    {
      policy := new RetryPolicy(config);
    }

    /**
     `outcome(k)` is what the k'th call of the operation returns. The source's loop has no end of its
     own without a limit; `patience` is the number of calls it is watched for, and None the answer
     if it is still running then. A failed run leaves the attempts spent.
     */
    method Execute<T, E>(outcome: nat -> Result<T, E>, patience: nat)
      returns (r: Option<Result<T, RetryError<E>>>, calls: nat, slept: nat)
      modifies policy
      ensures r.Some? <==> exists n: nat :: n <= patience && Ends(policy.config, old(policy.attempts), outcome, n)
      ensures r.Some? ==>
                && Ends(policy.config, old(policy.attempts), outcome, calls)
                && (r.value.Ok? <==> outcome(calls - 1).Ok?)
                && (r.value.Ok? ==> r.value.value == outcome(calls - 1).value && policy.attempts == 0)
                && (r.value.Err? ==>
                      && policy.attempts == old(policy.attempts) + calls - 1
                      && r.value.error == MaxRetriesExceeded(policy.attempts, outcome(calls - 1).error))
                && slept == TotalDelay(policy.config, old(policy.attempts), calls - 1)
      ensures r.None? ==>
                && calls == patience && (forall k: nat :: k < calls ==> outcome(k).Err?)
                && policy.attempts == old(policy.attempts) + calls
                && slept == TotalDelay(policy.config, old(policy.attempts), calls)
    {
      var config := policy.config;
      calls, slept := 0, 0;
      while calls < patience
        invariant calls <= patience
        invariant policy.attempts == old(policy.attempts) + calls
        invariant forall k: nat :: k < calls ==> outcome(k).Err?
        invariant config.maxRetries > 0 ==> calls <= RetriesLeft(config, old(policy.attempts))
        invariant slept == TotalDelay(config, old(policy.attempts), calls)
      {
        var result := outcome(calls);
        calls := calls + 1;
        match result {
          case Ok(value) =>
            policy.RecordSuccess();
            assert Ends(config, old(policy.attempts), outcome, calls);
            return Some(Ok(value)), calls, slept;
          case Err(e) =>
            if !ShouldRetry(config, policy.attempts) {
              assert Ends(config, old(policy.attempts), outcome, calls);
              return Some(Err(MaxRetriesExceeded(policy.attempts, e))), calls, slept;
            }
            var delay := policy.NextDelay();
            policy.RecordAttempt();
            if delay.Some? {
              slept := slept + delay.value;
            }
        }
      }
      forall n: nat | n <= patience
        ensures !Ends(config, old(policy.attempts), outcome, n)
      {
        if n > 0 {
          assert outcome(n - 1).Err?;
        }
      }
      r := None;
    }
  }

  /** Counting on from `k` failed calls to where `Execute` ends, at the latest after `bound` calls. */
  lemma {:induction false} EndsBy<T, E>(config: RetryConfig, attempts: nat, outcome: nat -> Result<T, E>, k: nat,
                                        bound: nat)
    returns (calls: nat)
    requires k <= bound && forall i: nat :: i < k ==> outcome(i).Err?
    requires config.maxRetries > 0 ==> bound == RetriesLeft(config, attempts)
    requires config.maxRetries == 0 ==> outcome(bound).Ok?
    ensures Ends(config, attempts, outcome, calls)
    decreases bound - k
  {
    if k == bound || outcome(k).Ok? {
      calls := k + 1;
    } else {
      calls := EndsBy(config, attempts, outcome, k + 1, bound);
    }
  }

  /**
   For enough patience `Execute` answers exactly if the policy has a limit or the operation succeeds
   at some call; otherwise it retries for ever.
   */
  lemma EndsExactly<T, E>(config: RetryConfig, attempts: nat, outcome: nat -> Result<T, E>)
    ensures (exists calls: nat :: Ends(config, attempts, outcome, calls))
            <==> config.maxRetries > 0 || exists k: nat :: outcome(k).Ok?
  {
    if config.maxRetries > 0 {
      var calls := EndsBy(config, attempts, outcome, 0, RetriesLeft(config, attempts));
    } else if k: nat :| outcome(k).Ok? {
      var calls := EndsBy(config, attempts, outcome, 0, k);
    }
  }

  /** The number of calls is fixed by the first success and the retries left: the smaller, plus one. */
  lemma CallCount<T, E>(config: RetryConfig, attempts: nat, outcome: nat -> Result<T, E>, calls: nat, first: nat)
    requires Ends(config, attempts, outcome, calls)
    requires outcome(first).Ok? && forall k: nat :: k < first ==> outcome(k).Err?
    ensures calls == 1 + if config.maxRetries > 0 then Min(first, RetriesLeft(config, attempts)) else first
  {
    assert calls - 1 < first || calls - 1 == first || first < calls - 1;
  }

  /** If no call succeeds a limited policy gives up after exactly its retries. */
  lemma CallCountOnFailure<T, E>(config: RetryConfig, attempts: nat, outcome: nat -> Result<T, E>, calls: nat)
    requires Ends(config, attempts, outcome, calls) && forall k: nat :: outcome(k).Err?
    ensures config.maxRetries > 0 && calls == 1 + RetriesLeft(config, attempts)
  {
    var k: nat := calls - 1;
    assert outcome(k).Err?;
  }

  // ---------- how long the sleeps are together ----------

  lemma DelayBounded(config: RetryConfig, attempts: nat)
    ensures Delay(config, attempts) <= config.maxDelay
    ensures var exact := Times(config.initialDelay as real, Power(config.multiplier, attempts));
            exact >= 0.0 ==> Delay(config, attempts) as real <= exact
  {
    hide Power, Times;
  }

  lemma {:induction false} SleepWithinMaximum(config: RetryConfig, attempts: nat, count: nat)
    ensures TotalDelay(config, attempts, count) <= count * config.maxDelay
    decreases count
  {
    if count > 0 {
      SleepWithinMaximum(config, attempts, count - 1);
      DelayBounded(config, attempts + count - 1);
      assert count * config.maxDelay == (count - 1) * config.maxDelay + config.maxDelay;
    }
  }

  lemma {:induction false} SleepScaled(config: RetryConfig, count: nat)
    requires config.multiplier > 1.0
    ensures Times(TotalDelay(config, 0, count) as real, config.multiplier - 1.0)
            <= Times(config.initialDelay as real, Power(config.multiplier, count) - 1.0)
    decreases count
  {
    if count > 0 {
      var a, m, p := config.initialDelay as real, config.multiplier, Power(config.multiplier, count - 1);
      SleepScaled(config, count - 1);
      PowerPositive(m, count - 1);
      ProductPositive(a, p);
      DelayBounded(config, count - 1);
      var total, delay := TotalDelay(config, 0, count - 1), Delay(config, count - 1);
      assert Power(m, count) == Times(m, p) && TotalDelay(config, 0, count) == total + delay;
      hide Power, Delay, TotalDelay, Times;
      GeometricStep(total as real, delay as real, a, m, p);
      assert (total + delay) as real == total as real + delay as real;
    }
  }

  lemma GeometricStep(total: real, delay: real, a: real, m: real, p: real)
    requires m > 1.0 && Times(total, m - 1.0) <= Times(a, p - 1.0) && delay <= Times(a, p)
    ensures Times(total + delay, m - 1.0) <= Times(a, Times(m, p) - 1.0)
  {
    var d := m - 1.0;
    Monotone(delay, a * p, d);
    assert (total + delay) * d == total * d + delay * d;
    assert a * (p - 1.0) + a * p * d == a * (m * p - 1.0);
  }

  lemma Monotone(x: real, y: real, d: real)
    requires x <= y && d >= 0.0
    ensures x * d <= y * d
  {
  }

  /** All sleeps of a fresh policy together, for any number of retries. */
  lemma SleepWithinGeometricSum(config: RetryConfig, count: nat)
    requires config.multiplier > 1.0
    ensures TotalDelay(config, 0, count) as real
            <= Times(config.initialDelay as real, Power(config.multiplier, count) - 1.0) / (config.multiplier - 1.0)
  {
    hide *;
    SleepScaled(config, count);
    DivideBoth(TotalDelay(config, 0, count) as real,
               Times(config.initialDelay as real, Power(config.multiplier, count) - 1.0), config.multiplier - 1.0);
  }

  lemma DivideBoth(x: real, y: real, d: real)
    requires d > 0.0 && Times(x, d) <= y
    ensures x <= y / d
  {
    assert (y / d) * d == y;
  }

  lemma {:induction false} SleepGrows(config: RetryConfig, attempts: nat, n: nat, m: nat)
    requires n <= m
    ensures TotalDelay(config, attempts, n) <= TotalDelay(config, attempts, m)
    decreases m
  {
    if n < m {
      hide Delay;
      SleepGrows(config, attempts, n, m - 1);
    }
  }

  /** A run from no attempts with a limit of R retries: at most R + 1 calls, and both bounds on its sleep. */
  lemma RunIsBounded<T, E>(config: RetryConfig, outcome: nat -> Result<T, E>, calls: nat)
    requires config.maxRetries > 0 && Ends(config, 0, outcome, calls)
    ensures calls <= config.maxRetries + 1
    ensures TotalDelay(config, 0, calls - 1) <= config.maxRetries * config.maxDelay
    ensures config.multiplier > 1.0 ==>
              TotalDelay(config, 0, calls - 1) as real
              <= Times(config.initialDelay as real, Power(config.multiplier, config.maxRetries) - 1.0)
                 / (config.multiplier - 1.0)
  {
    var r := config.maxRetries;
    SleepGrows(config, 0, calls - 1, r);
    SleepWithinMaximum(config, 0, r);
    if config.multiplier > 1.0 {
      SleepWithinGeometricSum(config, r);
    }
    hide TotalDelay, Power, Times, Ends;
  }

  /** For a whole multiplier the geometric bound is reached, as long as no delay meets the maximum. */
  lemma {:induction false} WholeMultiplierIsExact(config: RetryConfig, m: nat, count: nat)
    requires config.multiplier == m as real && m > 0
    requires forall i: nat :: i < count ==>
               Times(config.initialDelay as real, Power(config.multiplier, i)) <= config.maxDelay as real
    ensures TotalDelay(config, 0, count) * (m - 1) == config.initialDelay * (NatPower(m, count) - 1)
    decreases count
  {
    if count > 0 {
      var p := NatPower(m, count - 1);
      WholeMultiplierIsExact(config, m, count - 1);
      PowerIsWhole(m, count - 1);
      WholeProduct(config.initialDelay, p);
      assert Times(config.initialDelay as real, Power(config.multiplier, count - 1)) <= config.maxDelay as real;
      assert Delay(config, count - 1) == config.initialDelay * p;
      hide Power, Delay, Times;
      WholeStep(TotalDelay(config, 0, count - 1), config.initialDelay, m, p);
    }
  }

  function NatPower(m: nat, n: nat): nat {
    if n == 0 then 1 else m * NatPower(m, n - 1)
  }

  lemma {:induction false} PowerIsWhole(m: nat, n: nat)
    ensures Power(m as real, n) == NatPower(m, n) as real
    decreases n
  {
    if n > 0 {
      PowerIsWhole(m, n - 1);
    }
  }

  lemma WholeProduct(a: nat, p: nat)
    ensures Times(a as real, p as real) == (a * p) as real
  {
  }

  lemma WholeStep(total: nat, a: nat, m: nat, p: nat)
    requires total * (m - 1) == a * (p - 1)
    ensures (total + a * p) * (m - 1) == a * (m * p - 1)
  {
    assert (total + a * p) * (m - 1) == total * (m - 1) + a * p * (m - 1);
    assert a * p * (m - 1) == a * (m * p) - a * p;
  }
}
