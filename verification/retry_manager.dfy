/** Retries with exponential back-off (pipeline/PipelineRetryManager.js).
    The operation is a function from the attempt number to its outcome, so
    the run is deterministic; waiting is recorded as the list of delays the
    run sleeps, and the log lines are left out. */
module RetryManager {
  import opened Wrappers
  import opened Strings

  /** The manager's `retryConfig`. */
  datatype RetryConfig = RetryConfig(maxRetries: int, baseDelay: nat, maxDelay: nat,
                                     backoffMultiplier: nat, retryableErrors: seq<string>)

  const DefaultConfig: RetryConfig :=
    RetryConfig(3, 1000, 10000, 2, ["network", "timeout", "rate limit", "temporary", "service unavailable"])

  // ---------------------------------------------------------------------
  // isRetryableError
  // ---------------------------------------------------------------------

  /** Whether some pattern occurs in the message. */
  function AnyOccurs(message: string, patterns: seq<string>): (b: bool)
    ensures b <==> exists k :: 0 <= k < |patterns| && Contains(message, patterns[k])
  {
    if |patterns| == 0 then false
    else if Contains(message, patterns[0]) then true
    else
      var b := AnyOccurs(message, patterns[1..]);
      assert forall k :: 1 <= k < |patterns| ==> patterns[k] == patterns[1..][k - 1];
      b
  }

  /** `isRetryableError(error)`: the lower-cased message contains a pattern. */
  predicate IsRetryable(message: string, patterns: seq<string>)
  {
    AnyOccurs(ToLower(message), patterns)
  }

  /** With the default patterns, a message is retryable exactly when its
      lower-cased text mentions one of the five transient conditions. */
  lemma RetryableIff(message: string)
    ensures IsRetryable(message, DefaultConfig.retryableErrors) <==>
      (exists k :: 0 <= k < 5 && Contains(ToLower(message), DefaultConfig.retryableErrors[k]))
  {
  }

  // ---------------------------------------------------------------------
  // calculateDelay
  // ---------------------------------------------------------------------

  function Pow(b: nat, e: nat): nat
  {
    if e == 0 then 1 else b * Pow(b, e - 1)
  }

  lemma {:induction false} PowMonotone(b: nat, e1: nat, e2: nat)
    requires b >= 1 && e1 <= e2
    ensures Pow(b, e1) <= Pow(b, e2)
    decreases e2
  {
    if e1 < e2 {
      PowMonotone(b, e1, e2 - 1);
      MulAtLeast(b, Pow(b, e2 - 1));
    }
  }

  lemma MulAtLeast(b: nat, x: nat)
    requires b >= 1
    ensures b * x >= x
  {
  }

  /** `calculateDelay(attempt)` for attempts from 1: the base delay
      multiplied once per earlier retry, capped at the maximum delay. */
  function CalculateDelay(config: RetryConfig, attempt: nat): (d: nat)
    requires attempt >= 1
    ensures d <= config.maxDelay
    ensures d == config.maxDelay || d == config.baseDelay * Pow(config.backoffMultiplier, attempt - 1)
    ensures attempt == 1 && config.baseDelay <= config.maxDelay ==> d == config.baseDelay
  {
    var delay := config.baseDelay * Pow(config.backoffMultiplier, attempt - 1);
    if delay < config.maxDelay then delay else config.maxDelay
  }

  /** With a multiplier of at least 1 the delays never shrink. */
  lemma DelayMonotone(config: RetryConfig, a: nat, b: nat)
    requires 1 <= a <= b && config.backoffMultiplier >= 1
    ensures CalculateDelay(config, a) <= CalculateDelay(config, b)
  {
    PowMonotone(config.backoffMultiplier, a - 1, b - 1);
    MulMonotone(config.baseDelay, Pow(config.backoffMultiplier, a - 1), Pow(config.backoffMultiplier, b - 1));
  }

  lemma MulMonotone(k: nat, x: nat, y: nat)
    requires x <= y
    ensures k * x <= k * y
  {
  }

  /** The default schedule: one, two, four, eight seconds, then ten. */
  lemma DefaultSchedule()
    ensures CalculateDelay(DefaultConfig, 1) == 1000
    ensures CalculateDelay(DefaultConfig, 2) == 2000
    ensures CalculateDelay(DefaultConfig, 3) == 4000
    ensures CalculateDelay(DefaultConfig, 4) == 8000
    ensures CalculateDelay(DefaultConfig, 5) == 10000
  {
    assert Pow(2, 4) == 16 by {
      assert Pow(2, 1) == 2;
      assert Pow(2, 2) == 4;
      assert Pow(2, 3) == 8;
    }
  }

  // ---------------------------------------------------------------------
  // executeWithRetry
  // ---------------------------------------------------------------------

  datatype Outcome<V> = Succeeded(value: V) | Failed(message: string)

  /** How a run ends: with the operation's value, or by throwing the last
      error (`None` is the `undefined` thrown when no attempt was made). */
  datatype Ending<V> = Returned(value: V) | Threw(error: Option<string>)

  datatype Stats = Stats(totalRetries: nat, successfulRetries: nat, failedRetries: nat)

  /** What a run did: how it ended, how many attempts it made, the delays
      it slept between them and the statistics afterwards. */
  datatype Run<V> = Run(ending: Ending<V>, attempts: nat, delays: seq<nat>, stats: Stats)

  /** No successful retry is counted without its retry. */
  predicate StatsConsistent(s: Stats)
  {
    s.successfulRetries <= s.totalRetries
  }

  /** Every attempt before `upTo` failed with a retryable error. */
  predicate RetryableUpTo<V>(op: nat -> Outcome<V>, retryable: string -> bool, upTo: nat)
  {
    forall k :: 1 <= k < upTo ==> op(k).Failed? && retryable(op(k).message)
  }

  /** `isRetryableError` over the given patterns, as a test of a message. */
  function RetryableBy(patterns: seq<string>): string -> bool
  {
    message => IsRetryable(message, patterns)
  }

  /** The loop of `executeWithRetry` from attempt `attempt` on. `delayOf`
      gives the delay slept after a failed attempt; `retryable` tells
      the retryable errors by their message. */
  function RunFrom<V>(op: nat -> Outcome<V>, maxRetries: int, delayOf: nat -> nat, retryable: string -> bool,
                      attempt: nat, stats: Stats, delays: seq<nat>): (r: Run<V>)
    requires attempt >= 1
    requires attempt == 1 || attempt <= maxRetries + 1
    requires |delays| == attempt - 1
    ensures r.attempts >= attempt - 1
    ensures maxRetries + 1 >= attempt ==> attempt <= r.attempts <= maxRetries + 1
    ensures r.attempts >= 1 ==> |r.delays| == r.attempts - 1
    ensures |r.delays| >= |delays|
    ensures r.stats.totalRetries == stats.totalRetries + |r.delays| - |delays|
    ensures stats.successfulRetries + (if attempt > 1 then 1 else 0) <= stats.totalRetries ==> StatsConsistent(r.stats)
    ensures RetryableUpTo(op, retryable, attempt) ==> RetryableUpTo(op, retryable, r.attempts)
    ensures r.ending.Returned? ==> r.attempts >= 1 && op(r.attempts) == Succeeded(r.ending.value)
    ensures r.ending.Threw? && r.attempts >= attempt ==>
      op(r.attempts).Failed? && r.ending.error == Some(op(r.attempts).message)
      && (r.attempts <= maxRetries ==> !retryable(op(r.attempts).message))
    decreases maxRetries + 2 - attempt
  {
    if attempt > maxRetries + 1 then Run(Threw(None), attempt - 1, delays, stats)
    else match op(attempt)
      case Succeeded(v) =>
        var s := if attempt > 1 then stats.(successfulRetries := stats.successfulRetries + 1) else stats;
        Run(Returned(v), attempt, delays, s)
      case Failed(message) =>
        if attempt > maxRetries || !retryable(message) then
          var s := if attempt > maxRetries then stats.(failedRetries := stats.failedRetries + 1) else stats;
          Run(Threw(Some(message)), attempt, delays, s)
        else
          RunFrom(op, maxRetries, delayOf, retryable, attempt + 1,
                  stats.(totalRetries := stats.totalRetries + 1), delays + [delayOf(attempt)])
  }

  /** The loop keeps the delays slept so far and sleeps `delayOf(k)` after
      the failed attempt `k`. */
  lemma {:induction false} RunFromDelays<V>(op: nat -> Outcome<V>, maxRetries: int, delayOf: nat -> nat, retryable: string -> bool,
                                            attempt: nat, stats: Stats, delays: seq<nat>)
    requires attempt >= 1
    requires attempt == 1 || attempt <= maxRetries + 1
    requires |delays| == attempt - 1
    ensures var r := RunFrom(op, maxRetries, delayOf, retryable, attempt, stats, delays);
      && |r.delays| >= |delays| && r.delays[..|delays|] == delays
      && forall k :: |delays| <= k < |r.delays| ==> r.delays[k] == delayOf(k + 1)
    decreases maxRetries + 2 - attempt
  {
    if attempt <= maxRetries && op(attempt).Failed? && retryable(op(attempt).message) {
      var d := delays + [delayOf(attempt)];
      var st := stats.(totalRetries := stats.totalRetries + 1);
      RunFromDelays(op, maxRetries, delayOf, retryable, attempt + 1, st, d);
      RunFromRetries(op, maxRetries, delayOf, retryable, attempt, stats, delays);
      var r := RunFrom(op, maxRetries, delayOf, retryable, attempt + 1, st, d);
      PrefixExtend(r.delays, delays, delayOf(attempt));
    } else {
      RunFromStops(op, maxRetries, delayOf, retryable, attempt, stats, delays);
    }
  }

  /** After a retryable failure with retries left, the loop goes on. */
  lemma RunFromRetries<V>(op: nat -> Outcome<V>, maxRetries: int, delayOf: nat -> nat, retryable: string -> bool,
                          attempt: nat, stats: Stats, delays: seq<nat>)
    requires 1 <= attempt <= maxRetries && |delays| == attempt - 1
    requires op(attempt).Failed? && retryable(op(attempt).message)
    ensures RunFrom(op, maxRetries, delayOf, retryable, attempt, stats, delays)
         == RunFrom(op, maxRetries, delayOf, retryable, attempt + 1,
                    stats.(totalRetries := stats.totalRetries + 1), delays + [delayOf(attempt)])
  {
  }

  /** Otherwise the loop stops without sleeping again. */
  lemma RunFromStops<V>(op: nat -> Outcome<V>, maxRetries: int, delayOf: nat -> nat, retryable: string -> bool,
                        attempt: nat, stats: Stats, delays: seq<nat>)
    requires attempt >= 1
    requires attempt == 1 || attempt <= maxRetries + 1
    requires |delays| == attempt - 1
    requires !(attempt <= maxRetries && op(attempt).Failed? && retryable(op(attempt).message))
    ensures RunFrom(op, maxRetries, delayOf, retryable, attempt, stats, delays).delays == delays
  {
  }

  lemma PrefixExtend(rd: seq<nat>, delays: seq<nat>, x: nat)
    requires |rd| >= |delays| + 1 && rd[..|delays| + 1] == delays + [x]
    ensures rd[..|delays|] == delays && rd[|delays|] == x
  {
    assert rd[..|delays|] == rd[..|delays| + 1][..|delays|];
    assert rd[|delays|] == rd[..|delays| + 1][|delays|];
  }

  /** The options `executeWithRetry` merges over the manager's configuration
      (only the two that `executeStepWithRetry` passes). */
  datatype Custom = Custom(maxRetries: Option<int>, baseDelay: Option<nat>)

  /** `{ ...this.retryConfig, ...customConfig }`. */
  function Merge(config: RetryConfig, custom: Custom): (c: RetryConfig)
    ensures c.maxDelay == config.maxDelay && c.backoffMultiplier == config.backoffMultiplier
    ensures c.retryableErrors == config.retryableErrors
    ensures c.maxRetries == (if custom.maxRetries.Some? then custom.maxRetries.value else config.maxRetries)
    ensures c.baseDelay == (if custom.baseDelay.Some? then custom.baseDelay.value else config.baseDelay)
  {
    config.(maxRetries := if custom.maxRetries.Some? then custom.maxRetries.value else config.maxRetries,
            baseDelay := if custom.baseDelay.Some? then custom.baseDelay.value else config.baseDelay)
  }

  /** The delay after a failed attempt as written: `calculateDelay` reads
      the manager's own configuration, not the merged one. */
  function ManagerDelay(config: RetryConfig): nat -> nat
  {
    (attempt: nat) => if attempt >= 1 then CalculateDelay(config, attempt) else 0
  }

  /** `executeWithRetry(operation, context, customConfig)` as written. */
  function ExecuteWithRetry<V>(op: nat -> Outcome<V>, config: RetryConfig, custom: Custom, stats: Stats): Run<V>
  {
    var merged := Merge(config, custom);
    RunFrom(op, merged.maxRetries, ManagerDelay(config), RetryableBy(config.retryableErrors), 1, stats, [])
  }

  /** A run makes at most `maxRetries + 1` attempts, sleeps once between
      consecutive attempts, and each sleep follows the back-off schedule. */
  lemma AttemptsBounded<V>(op: nat -> Outcome<V>, config: RetryConfig, custom: Custom, stats: Stats)
    ensures var r := ExecuteWithRetry(op, config, custom, stats);
      var m := Merge(config, custom).maxRetries;
      && (m >= 0 ==> 1 <= r.attempts <= m + 1)
      && (m < 0 ==> r.attempts == 0 && r.ending == Threw(None))
      && |r.delays| == (if r.attempts == 0 then 0 else r.attempts - 1)
      && (forall k :: 0 <= k < |r.delays| ==> r.delays[k] == CalculateDelay(config, k + 1) <= config.maxDelay)
  {
    var merged := Merge(config, custom);
    RunFromDelays(op, merged.maxRetries, ManagerDelay(config), RetryableBy(config.retryableErrors), 1, stats, []);
  }

  /** A run that returns a value got it from its last attempt, and every
      attempt before failed with a retryable error; a run that throws
      throws its last attempt's error, which was not retryable unless the
      attempts ran out. */
  lemma RunOutcome<V>(op: nat -> Outcome<V>, config: RetryConfig, custom: Custom, stats: Stats)
    requires Merge(config, custom).maxRetries >= 0
    ensures var r := ExecuteWithRetry(op, config, custom, stats);
      && RetryableUpTo(op, RetryableBy(config.retryableErrors), r.attempts)
      && (r.ending.Returned? ==> op(r.attempts) == Succeeded(r.ending.value))
      && (r.ending.Threw? ==>
            && op(r.attempts).Failed?
            && r.ending.error == Some(op(r.attempts).message)
            && (r.attempts <= Merge(config, custom).maxRetries ==> !IsRetryable(op(r.attempts).message, config.retryableErrors)))
  {
  }

  /** A first failure that is not retryable is thrown at once: one attempt,
      no sleep, and no statistic changes unless no retries were allowed. */
  lemma NonRetryableImmediate<V>(op: nat -> Outcome<V>, config: RetryConfig, custom: Custom, stats: Stats)
    requires Merge(config, custom).maxRetries >= 1
    requires op(1).Failed? && !IsRetryable(op(1).message, config.retryableErrors)
    ensures ExecuteWithRetry(op, config, custom, stats) == Run(Threw(Some(op(1).message)), 1, [], stats)
  {
  }

  /** The retry counter grows by the number of sleeps, and a successful
      retry is only ever counted together with its retry. */
  lemma StatsAccounting<V>(op: nat -> Outcome<V>, config: RetryConfig, custom: Custom, stats: Stats)
    ensures var r := ExecuteWithRetry(op, config, custom, stats);
      && r.stats.totalRetries == stats.totalRetries + |r.delays|
      && (StatsConsistent(stats) ==> StatsConsistent(r.stats))
  {
  }

  /** `executeStepWithRetry`: `step.maxRetries || 3` and
      `step.retryDelay || 1000`, where 0 counts as missing. */
  function StepCustom(config: RetryConfig, stepMaxRetries: Option<int>, stepRetryDelay: Option<nat>): (c: Custom)
    ensures c.maxRetries.Some? && c.baseDelay.Some?
    ensures stepMaxRetries.None? ==> c.maxRetries.value == config.maxRetries
    ensures stepRetryDelay.Some? && stepRetryDelay.value > 0 ==> c.baseDelay.value == stepRetryDelay.value
  {
    Custom(Some(if stepMaxRetries.None? || stepMaxRetries.value == 0 then config.maxRetries else stepMaxRetries.value),
           Some(if stepRetryDelay.None? || stepRetryDelay.value == 0 then config.baseDelay else stepRetryDelay.value))
  }

  /** A step's own retry delay has no effect as written: after a first
      retryable failure the run sleeps the manager's base delay, whatever
      the step asked for. */
  lemma StepDelayIgnored<V>(op: nat -> Outcome<V>, retryDelay: nat, stats: Stats)
    requires retryDelay > 0
    requires op(1).Failed? && IsRetryable(op(1).message, DefaultConfig.retryableErrors)
    ensures var r := ExecuteWithRetry(op, DefaultConfig, StepCustom(DefaultConfig, None, Some(retryDelay)), stats);
      |r.delays| >= 1 && r.delays[0] == 1000
  {
    var r := ExecuteWithRetry(op, DefaultConfig, StepCustom(DefaultConfig, None, Some(retryDelay)), stats);
    var merged := Merge(DefaultConfig, StepCustom(DefaultConfig, None, Some(retryDelay)));
    RunFromDelays(op, merged.maxRetries, ManagerDelay(DefaultConfig), RetryableBy(DefaultConfig.retryableErrors), 1, stats, []);
    assert r.attempts >= 2;
  }

  /** The evidently intended run: the delays follow the merged
      configuration. */
  function ExecuteWithRetryFixed<V>(op: nat -> Outcome<V>, config: RetryConfig, custom: Custom, stats: Stats): Run<V>
  {
    var merged := Merge(config, custom);
    RunFrom(op, merged.maxRetries, ManagerDelay(merged), RetryableBy(config.retryableErrors), 1, stats, [])
  }

  /** With the corrected delays a step's retry delay is the first sleep
      (up to the maximum delay). */
  lemma StepDelayHonoured<V>(op: nat -> Outcome<V>, retryDelay: nat, stats: Stats)
    requires 0 < retryDelay <= DefaultConfig.maxDelay
    requires op(1).Failed? && IsRetryable(op(1).message, DefaultConfig.retryableErrors)
    ensures var r := ExecuteWithRetryFixed(op, DefaultConfig, StepCustom(DefaultConfig, None, Some(retryDelay)), stats);
      |r.delays| >= 1 && r.delays[0] == retryDelay
  {
    var r := ExecuteWithRetryFixed(op, DefaultConfig, StepCustom(DefaultConfig, None, Some(retryDelay)), stats);
    var merged := Merge(DefaultConfig, StepCustom(DefaultConfig, None, Some(retryDelay)));
    RunFromDelays(op, merged.maxRetries, ManagerDelay(merged), RetryableBy(DefaultConfig.retryableErrors), 1, stats, []);
    assert r.attempts >= 2;
  }

  // ---------------------------------------------------------------------
  // getStats
  // ---------------------------------------------------------------------

  /** The success rate as a percentage, absent when nothing was retried. */
  function RatePercent(s: Stats): (p: Option<real>)
    ensures p.None? <==> s.totalRetries == 0
    ensures p.Some? && StatsConsistent(s) ==> 0.0 <= p.value <= 100.0
  {
    if s.totalRetries > 0 then
      RateBound(s.successfulRetries, s.totalRetries);
      Some(s.successfulRetries as real / s.totalRetries as real * 100.0)
    else None
  }

  lemma RateBound(a: nat, b: nat)
    requires b > 0
    ensures a <= b ==> 0.0 <= a as real / b as real * 100.0 <= 100.0
  {
    if a <= b {
      assert a as real / b as real <= 1.0;
    }
  }

  /** `successRate` of `getStats()`; `toFixed` stands for
      `Number.prototype.toFixed(2)`. */
  function SuccessRate(s: Stats, toFixed: real -> string): (r: string)
    ensures s.totalRetries == 0 ==> r == "0%"
    ensures s.totalRetries > 0 ==> r == toFixed(RatePercent(s).value) + "%"
  {
    match RatePercent(s)
    case None => "0%"
    case Some(p) => toFixed(p) + "%"
  }

  /** `resetStats()`: every counter back to zero, so the reported rate is
      "0%" again. */
  function ResetStats(toFixed: real -> string): (s: Stats)
    ensures StatsConsistent(s) && s.totalRetries == 0
    ensures SuccessRate(s, toFixed) == "0%"
  {
    Stats(0, 0, 0)
  }
}
