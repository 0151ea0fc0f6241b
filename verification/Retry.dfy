/**
 Retries with exponential backoff: the delay arithmetic, the policy that counts attempts, and the executor
 that repeats a request until it succeeds, fails for good or runs out of retries.
 */
module Retries {
  import opened Wrappers

  /** Delays are in whole milliseconds. */
  datatype Config = Config(
    maxRetries: nat,
    baseDelay: nat,
    maxDelay: nat,
    multiplier: real,
    useJitter: bool)

  const TWO_31 := 0x8000_0000
  const TWO_32 := 0x1_0000_0000
  const U64_MAX := 0xFFFF_FFFF_FFFF_FFFF

  // ---------- the delay ----------

  function Pow(m: real, k: nat): real {
    if k == 0 then 1.0 else m * Pow(m, k - 1)
  }

  /** An unsigned 32-bit number reinterpreted as a signed one. */
  function AsI32(n: nat): (i: int)
    requires n < TWO_32
    ensures -0x8000_0000 <= i < 0x8000_0000 && (i == n || i + 0x1_0000_0000 == n)
  {
    if n < TWO_31 then n else n - TWO_32
  }

  /** The conversion of a number to an unsigned 64-bit integer: truncating and saturating. */
  function ToMillis(x: real): (ms: nat)
    ensures x >= 0.0 ==> ms as real <= x
    ensures 0.0 <= x <= 18446744073709551615.0 ==> x < ms as real + 1.0
    ensures x > 18446744073709551615.0 ==> ms == 18446744073709551615
    ensures ms <= U64_MAX
  {
    if x < 0.0 then 0 else if x.Floor > U64_MAX then U64_MAX else x.Floor
  }

  function Cap(x: real, max: nat): real {
    if x <= max as real then x else max as real
  }

  /** A power with a signed exponent; zero has no negative powers. */
  function PowI(m: real, e: int): real
    requires e >= 0 || Pow(m, -e) != 0.0
  {
    if e >= 0 then Pow(m, e) else 1.0 / Pow(m, -e)
  }

  function Scaled(base: nat, factor: real): real {
    base as real * factor
  }

  /** The delay before jitter.  A zero multiplier raised to a negative power is infinite and so capped. */
  function CappedDelay(cfg: Config, attempt: nat): real
    requires attempt < TWO_32
  {
    var e := AsI32(attempt);
    if e < 0 && Pow(cfg.multiplier, -e) == 0.0 then cfg.maxDelay as real
    else Cap(Scaled(cfg.baseDelay, PowI(cfg.multiplier, e)), cfg.maxDelay)
  }

  function Jittered(delay: real, useJitter: bool, jitter: real): real {
    if useJitter then delay * jitter else delay
  }

  /** The delay of retry number `attempt`, given the random factor drawn for it. */
  function NextDelay(cfg: Config, attempt: nat, jitter: real): nat
    requires attempt < TWO_32
  {
    ToMillis(Jittered(CappedDelay(cfg, attempt), cfg.useJitter, jitter))
  }

  predicate JitterInRange(jitter: real) {
    0.5 <= jitter < 1.5
  }

  /**
   What the documentation promises of a delay: the base times the multiplier once for each earlier attempt, but no
   more than the maximum, times the draw if there is jitter, in whole milliseconds.
   */
  ghost predicate IsDelay(cfg: Config, attempt: nat, jitter: real, ms: nat)
    requires cfg.multiplier >= 1.0 && attempt < 0x1_0000_0000
  {
    var wanted := cfg.baseDelay as real * Factor(cfg.multiplier, attempt);
    var capped := if wanted <= cfg.maxDelay as real then wanted else cfg.maxDelay as real;
    IsTruncationOfDraw(capped, cfg.useJitter, jitter, ms)
  }

  predicate IsTruncationOfDraw(delay: real, useJitter: bool, jitter: real, ms: nat) {
    IsTruncation(if useJitter then delay * jitter else delay, ms)
  }

  /** The multiplier once for each earlier attempt; attempt numbers from 2^31 on count as negative powers. */
  function Factor(m: real, attempt: nat): real
    requires m >= 1.0 && attempt < 0x1_0000_0000
  {
    PowGrows(m, 0, if attempt < 0x8000_0000 then attempt else 0x1_0000_0000 - attempt);
    if attempt < 0x8000_0000 then Pow(m, attempt) else 1.0 / Pow(m, 0x1_0000_0000 - attempt)
  }

  lemma CappedDelayIs(cfg: Config, attempt: nat, wanted: real)
    requires cfg.multiplier >= 1.0 && attempt < TWO_32
    requires wanted == cfg.baseDelay as real * Factor(cfg.multiplier, attempt)
    ensures CappedDelay(cfg, attempt) == if wanted <= cfg.maxDelay as real then wanted else cfg.maxDelay as real
  {
    PowGrows(cfg.multiplier, 0, if attempt < TWO_31 then attempt else TWO_32 - attempt);
    assert PowI(cfg.multiplier, AsI32(attempt)) == Factor(cfg.multiplier, attempt);
  }

  /** Whole milliseconds, as far as they fit 64 bits. */
  predicate IsTruncation(x: real, ms: nat) {
    if x > 18446744073709551615.0 then ms == 18446744073709551615 else ms as real <= x < ms as real + 1.0
  }

  lemma ToMillisTruncates(x: real)
    requires x >= 0.0
    ensures IsTruncation(x, ToMillis(x))
  {
  }

  lemma JitteredTruncates(delay: real, useJitter: bool, jitter: real)
    requires delay >= 0.0 && jitter >= 0.0
    ensures IsTruncationOfDraw(delay, useJitter, jitter, ToMillis(Jittered(delay, useJitter, jitter)))
  {
    TimesNotNegative(delay, jitter);
    ToMillisTruncates(Jittered(delay, useJitter, jitter));
  }

  lemma NextDelayIsDelay(cfg: Config, attempt: nat, jitter: real)
    requires cfg.multiplier >= 1.0 && attempt < TWO_32 && jitter >= 0.0
    ensures IsDelay(cfg, attempt, jitter, NextDelay(cfg, attempt, jitter))
  {
    var delay := CappedDelay(cfg, attempt);
    CappedDelayWithin(cfg, attempt);
    CappedDelayIs(cfg, attempt, cfg.baseDelay as real * Factor(cfg.multiplier, attempt));
    JitteredTruncates(delay, cfg.useJitter, jitter);
  }

  // ---------- the policy and the executor ----------

  datatype Result<T, E> = Ok(value: T) | Err(error: E)

  /** What the executor reports when it gives up. */
  datatype RetryError<E> = Exhausted(attempts: nat, lastError: E)

  class RetryPolicy {
    const config: Config
    var attempt: nat

    /** The attempt counter fits its 32 bits. */
    ghost predicate Valid()
      reads this
    {
      config.maxRetries < TWO_32 && attempt <= config.maxRetries
    }

    constructor (config: Config)
      requires config.maxRetries < TWO_32
      ensures Valid() && this.config == config && attempt == 0
    {
      this.config := config;
      this.attempt := 0;
    }

    predicate HasRemainingRetries()
      reads this
    {
      attempt < config.maxRetries
    }

    predicate ShouldRetryError<E>(error: E, retryable: E -> bool)
      reads this
    {
      HasRemainingRetries() && retryable(error)
    }

    method RecordRetry(jitter: real) returns (delay: Option<nat>)
      requires Valid()
      modifies this
      ensures Valid()
      ensures old(HasRemainingRetries()) ==>
                delay == Some(NextDelay(config, old(attempt), jitter)) && attempt == old(attempt) + 1
      ensures !old(HasRemainingRetries()) ==> delay == None && attempt == old(attempt)
      ensures delay.Some? <==> old(attempt) < config.maxRetries
      ensures delay.Some? && config.multiplier >= 1.0 && jitter >= 0.0 ==>
                IsDelay(config, old(attempt), jitter, delay.value)
    {
      if config.multiplier >= 1.0 && jitter >= 0.0 && attempt < TWO_32 {
        NextDelayIsDelay(config, attempt, jitter);
      }
      if !HasRemainingRetries() {
        return None;
      }
      delay := Some(NextDelay(config, attempt, jitter));
      attempt := attempt + 1;
    }

    method Reset()
      requires Valid()
      modifies this
      ensures Valid() && attempt == 0
    {
      attempt := 0;
    }
  }

  /** The delays of `n` retries in a row. */
  function Delays(cfg: Config, attempt: nat, jitters: nat -> real, n: nat): (d: seq<nat>)
    requires attempt + n <= TWO_32
    ensures |d| == n
  {
    if n == 0 then []
    else Delays(cfg, attempt, jitters, n - 1) + [NextDelay(cfg, attempt + n - 1, jitters(n - 1))]
  }

  lemma {:induction false} DelaysAreDelays(cfg: Config, attempt: nat, jitters: nat -> real, n: nat)
    requires cfg.multiplier >= 1.0 && attempt + n <= TWO_32 && forall k: nat :: jitters(k) >= 0.0
    ensures forall k :: 0 <= k < n ==> IsDelay(cfg, attempt + k, jitters(k), Delays(cfg, attempt, jitters, n)[k])
  {
    if n > 0 {
      DelaysAreDelays(cfg, attempt, jitters, n - 1);
      NextDelayIsDelay(cfg, attempt + n - 1, jitters(n - 1));
    }
  }

  /** A call after which the executor tries again: it failed in a retryable way. */
  predicate Retried<T, E>(r: Result<T, E>, retryable: E -> bool) {
    r.Err? && retryable(r.error)
  }

  /**
   The calls of an execution whose first `made` calls failed retryably, from a policy that has counted `attempt`
   retries: it goes on while calls fail retryably and retries remain.
   */
  function CallsFrom<T, E>(
    cfg: Config, attempt: nat, request: nat -> Result<T, E>, retryable: E -> bool, made: nat): (calls: nat)
    requires attempt <= cfg.maxRetries
    ensures made < calls <= made + (cfg.maxRetries - attempt) + 1
    decreases cfg.maxRetries - attempt
  {
    if Retried(request(made), retryable) && attempt < cfg.maxRetries
    then CallsFrom(cfg, attempt + 1, request, retryable, made + 1)
    else made + 1
  }

  /** The executor sleeps, from retry number `attempt` on, as long as the documentation promises. */
  ghost predicate AreDelays(cfg: Config, attempt: nat, jitters: nat -> real, sleeps: seq<nat>)
    requires attempt + |sleeps| <= 0x1_0000_0000
  {
    cfg.multiplier >= 1.0 && (forall k: nat :: jitters(k) >= 0.0) ==>
      forall k :: 0 <= k < |sleeps| ==> IsDelay(cfg, attempt + k, jitters(k), sleeps[k])
  }

  lemma SleepsAreDelays(cfg: Config, attempt: nat, jitters: nat -> real, n: nat)
    requires attempt + n <= TWO_32
    ensures AreDelays(cfg, attempt, jitters, Delays(cfg, attempt, jitters, n))
  {
    if cfg.multiplier >= 1.0 && forall k: nat :: jitters(k) >= 0.0 {
      DelaysAreDelays(cfg, attempt, jitters, n);
    }
  }

  class RetryExecutor {
    const policy: RetryPolicy

    constructor (config: Config)
      requires config.maxRetries < TWO_32
      ensures fresh(policy) && policy.Valid() && policy.config == config && policy.attempt == 0
    {
      policy := new RetryPolicy(config);
    }

    /**
     Runs the request, which yields `request(k)` when called for the k-th time, sleeping between calls.
     Every call but the last failed retryably; the last succeeded, failed for good or used up the retries.
     The attempts it reports are a 32-bit number that wraps around, as unchecked arithmetic does.
     */
    method Execute<T, E>(request: nat -> Result<T, E>, retryable: E -> bool, jitters: nat -> real)
      returns (result: Result<T, RetryError<E>>, calls: nat, sleeps: seq<nat>)
      requires policy.Valid()
      modifies policy
      ensures policy.Valid()
      ensures calls == CallsFrom(policy.config, old(policy.attempt), request, retryable, 0)
      ensures 1 <= calls <= policy.config.maxRetries - old(policy.attempt) + 1
      ensures policy.attempt == old(policy.attempt) + calls - 1
      ensures forall k :: 0 <= k < calls - 1 ==> request(k).Err? && retryable(request(k).error)
      ensures match request(calls - 1)
              case Ok(v) => result == Ok(v)
              case Err(e) =>
                && result == Err(Exhausted((old(policy.attempt) + calls) % 0x1_0000_0000, e))
                && (!retryable(e) || calls == policy.config.maxRetries - old(policy.attempt) + 1)
      ensures sleeps == Delays(policy.config, old(policy.attempt), jitters, calls - 1)
      ensures AreDelays(policy.config, old(policy.attempt), jitters, sleeps)
    {
      calls, sleeps := 0, [];
      while true
        invariant policy.Valid() && policy.attempt == old(policy.attempt) + calls
        invariant CallsFrom(policy.config, policy.attempt, request, retryable, calls) ==
                  CallsFrom(policy.config, old(policy.attempt), request, retryable, 0)
        invariant forall k :: 0 <= k < calls ==> Retried(request(k), retryable)
        invariant sleeps == Delays(policy.config, old(policy.attempt), jitters, calls)
        decreases policy.config.maxRetries - policy.attempt
      {
        SleepsAreDelays(policy.config, old(policy.attempt), jitters, calls);
        var r := request(calls);
        calls := calls + 1;
        match r
        case Ok(v) => return Ok(v), calls, sleeps;
        case Err(e) =>
          if policy.ShouldRetryError(e, retryable) {
            var delay := policy.RecordRetry(jitters(calls - 1));
            if delay.Some? {
              sleeps := sleeps + [delay.value];
              continue;
            }
          }
          return Err(Exhausted((policy.attempt + 1) % TWO_32, e)), calls, sleeps;
      }
    }
  }

  // ---------- one executor, many executions ----------

  type Request<!T, !E> = nat -> Result<T, E>

  /** The retries a new policy has counted after the executions, none of which resets it. */
  function AttemptAfter<T, E>(cfg: Config, done: seq<Request<T, E>>, retryable: E -> bool): (attempt: nat)
    ensures attempt <= cfg.maxRetries
  {
    if done == [] then 0
    else
      var n := |done| - 1;
      var before := AttemptAfter(cfg, done[..n], retryable);
      before + CallsFrom(cfg, before, done[n], retryable, 0) - 1
  }

  /** The attempts that the next execution reports if it fails. */
  function Reported<T, E>(cfg: Config, done: seq<Request<T, E>>, next: Request<T, E>, retryable: E -> bool): nat {
    var before := AttemptAfter(cfg, done, retryable);
    (before + CallsFrom(cfg, before, next, retryable, 0)) % TWO_32
  }

  lemma {:induction false} NoRetryYet<T, E>(cfg: Config, done: seq<Request<T, E>>, retryable: E -> bool)
    ensures AttemptAfter(cfg, done, retryable) == 0 <==>
            cfg.maxRetries == 0 || forall i :: 0 <= i < |done| ==> done[i](0).Ok? || !retryable(done[i](0).error)
  {
    if done != [] {
      var n := |done| - 1;
      NoRetryYet(cfg, done[..n], retryable);
      if AttemptAfter(cfg, done, retryable) == 0 && cfg.maxRetries > 0 {
        forall i | 0 <= i < |done|
          ensures done[i](0).Ok? || !retryable(done[i](0).error)
        {
          if i < n {
            assert done[i] == done[..n][i];
          }
        }
      }
    }
  }

  /**
   An execution that fails reports the number of its calls if and only if no earlier one of the same executor has
   retried, that is, no earlier first call failed retryably or there are no retries, and the number fits 32 bits.
   */
  lemma {:induction false} ReportsOwnCallsIff<T, E>(
    cfg: Config, done: seq<Request<T, E>>, next: Request<T, E>, retryable: E -> bool)
    requires cfg.maxRetries < TWO_32
    ensures var calls := CallsFrom(cfg, AttemptAfter(cfg, done, retryable), next, retryable, 0);
            Reported(cfg, done, next, retryable) == calls <==>
            && (cfg.maxRetries == 0 || forall i :: 0 <= i < |done| ==> done[i](0).Ok? || !retryable(done[i](0).error))
            && calls < 0x1_0000_0000
  {
    NoRetryYet(cfg, done, retryable);
  }

  // ---------- how delays grow ----------

  lemma TimesNotNegative(x: real, y: real)
    requires x >= 0.0 && y >= 0.0
    ensures x * y >= 0.0
  {
  }

  lemma TimesAtLeastOne(m: real, x: real)
    requires m >= 1.0 && x >= 0.0
    ensures m * x >= x
  {
    assert (m - 1.0) * x >= 0.0;
  }

  /** The delay before the cap, one multiplication at a time. */
  function Backoff(base: nat, m: real, k: nat): real {
    if k == 0 then base as real else m * Backoff(base, m, k - 1)
  }

  lemma {:induction false} BackoffIsProduct(base: nat, m: real, k: nat)
    ensures Backoff(base, m, k) == Scaled(base, Pow(m, k))
  {
    if k > 0 {
      BackoffIsProduct(base, m, k - 1);
      assert m * (base as real * Pow(m, k - 1)) == base as real * (m * Pow(m, k - 1));
    }
  }

  lemma {:induction false} BackoffGrows(base: nat, m: real, j: nat, k: nat)
    requires m >= 1.0 && j <= k
    ensures base as real <= Backoff(base, m, j) <= Backoff(base, m, k)
  {
    if j < k {
      BackoffGrows(base, m, j, k - 1);
      TimesAtLeastOne(m, Backoff(base, m, k - 1));
    } else if j > 0 {
      BackoffGrows(base, m, j - 1, j - 1);
      TimesAtLeastOne(m, Backoff(base, m, j - 1));
    }
  }

  lemma CappedDelayIsBackoff(cfg: Config, attempt: nat)
    requires attempt < TWO_31
    ensures CappedDelay(cfg, attempt) == Cap(Backoff(cfg.baseDelay, cfg.multiplier, attempt), cfg.maxDelay)
  {
    BackoffIsProduct(cfg.baseDelay, cfg.multiplier, attempt);
  }

  /** Without jitter and below the 31-bit boundary, a later retry never waits less, and none over the maximum. */
  lemma DelaysGrowAndAreCapped(cfg: Config, a: nat, b: nat, ja: real, jb: real)
    requires cfg.multiplier >= 1.0 && !cfg.useJitter && a <= b < TWO_31
    ensures NextDelay(cfg, a, ja) <= NextDelay(cfg, b, jb) <= cfg.maxDelay
  {
    CappedDelayIsBackoff(cfg, a);
    CappedDelayIsBackoff(cfg, b);
    BackoffGrows(cfg.baseDelay, cfg.multiplier, a, b);
  }

  lemma {:induction false} PowAboveOne(m: real, k: nat)
    requires m > 1.0 && k >= 1
    ensures Pow(m, k) > 1.0
  {
    if k == 1 {
      assert Pow(m, 0) == 1.0;
    } else {
      PowAboveOne(m, k - 1);
      TimesAtLeastOne(m, Pow(m, k - 1));
    }
  }

  lemma InverseBelowOne(p: real)
    requires p > 1.0
    ensures 1.0 / p < 1.0
  {
    var inverse := 1.0 / p;
    assert inverse * p == 1.0;
  }

  lemma ScalingShrinks(base: nat, factor: real)
    requires base >= 1 && factor < 1.0
    ensures Scaled(base, factor) < base as real
  {
    TimesNotNegative(base as real - 1.0, 1.0 - factor);
    assert (base as real - 1.0) * (1.0 - factor) == base as real - base as real * factor - 1.0 + factor;
  }

  lemma CappedDelayPastBoundary(cfg: Config, attempt: nat)
    requires cfg.multiplier > 1.0 && cfg.baseDelay >= 1
    requires TWO_31 <= attempt < TWO_32
    ensures CappedDelay(cfg, attempt) < cfg.baseDelay as real
  {
    var e := AsI32(attempt);
    PowAboveOne(cfg.multiplier, -e);
    InverseBelowOne(Pow(cfg.multiplier, -e));
    ScalingShrinks(cfg.baseDelay, PowI(cfg.multiplier, e));
  }

  lemma TruncatedStaysBelow(x: real, n: nat)
    requires x < n as real
    ensures ToMillis(x) < n || n == 0
  {
  }

  /** An attempt number that no longer fits a signed 32-bit exponent waits less than the base delay. */
  lemma DelayCollapsesPastBoundary(cfg: Config, attempt: nat, jitter: real)
    requires cfg.multiplier > 1.0 && !cfg.useJitter && cfg.baseDelay >= 1
    requires TWO_31 <= attempt < TWO_32
    ensures NextDelay(cfg, attempt, jitter) < cfg.baseDelay
  {
    CappedDelayPastBoundary(cfg, attempt);
    TruncatedStaysBelow(CappedDelay(cfg, attempt), cfg.baseDelay);
  }

  ghost predicate DelaysNeverShrink(cfg: Config) {
    forall a: nat, b: nat :: a <= b < cfg.maxRetries && b < TWO_32 ==>
      NextDelay(cfg, a, 1.0) <= NextDelay(cfg, b, 1.0)
  }

  lemma {:induction false} PowGrows(m: real, j: nat, k: nat)
    requires m >= 1.0 && j <= k
    ensures 1.0 <= Pow(m, j) <= Pow(m, k)
  {
    BackoffGrows(1, m, j, k);
    BackoffIsProduct(1, m, j);
    BackoffIsProduct(1, m, k);
  }

  /** The largest delay: the configured one, as far as it fits the result. */
  function LargestDelay(cfg: Config): nat {
    if cfg.maxDelay <= U64_MAX then cfg.maxDelay else U64_MAX
  }

  /** What the first attempt past the 31-bit boundary computes before the cap. */
  function DelayAtBoundary(cfg: Config): real
    requires cfg.multiplier >= 1.0
  {
    PowGrows(cfg.multiplier, 0, TWO_31);
    Scaled(cfg.baseDelay, PowI(cfg.multiplier, -TWO_31))
  }

  lemma DelayIs(cfg: Config, attempt: nat, jitter: real)
    requires cfg.multiplier >= 1.0 && !cfg.useJitter && attempt < TWO_32
    ensures Pow(cfg.multiplier, if attempt < TWO_31 then attempt else TWO_32 - attempt) >= 1.0
    ensures var y, largest := Scaled(cfg.baseDelay, PowI(cfg.multiplier, AsI32(attempt))), LargestDelay(cfg);
            y >= 0.0 && NextDelay(cfg, attempt, jitter) == if y <= largest as real then y.Floor else largest
  {
    PowGrows(cfg.multiplier, 0, if attempt < TWO_31 then attempt else TWO_32 - attempt);
    TimesNotNegative(cfg.baseDelay as real, PowI(cfg.multiplier, AsI32(attempt)));
  }

  lemma ScalingGrows(base: nat, f: real, g: real)
    requires f <= g
    ensures Scaled(base, f) <= Scaled(base, g)
  {
    TimesNotNegative(base as real, g - f);
    assert base as real * (g - f) == base as real * g - base as real * f;
  }

  lemma InverseShrinks(p: real, q: real)
    requires 1.0 <= p <= q
    ensures 1.0 / q <= 1.0 / p
  {
    var x, y := 1.0 / p, 1.0 / q;
    assert x * p == 1.0 && y * q == 1.0;
    assert x * (y * q) == x && y * (x * p) == y;
    TimesNotNegative(x, y);
    TimesNotNegative(x * y, q - p);
    assert x * (y * q) - y * (x * p) == (x * y) * (q - p);
  }

  /** Past the boundary the computed delay grows again, from what it is there. */
  lemma BoundaryIsLowest(cfg: Config, attempt: nat)
    requires cfg.multiplier >= 1.0 && TWO_31 <= attempt < TWO_32
    ensures Pow(cfg.multiplier, TWO_32 - attempt) >= 1.0
    ensures Scaled(cfg.baseDelay, PowI(cfg.multiplier, AsI32(attempt))) >= DelayAtBoundary(cfg)
  {
    PowGrows(cfg.multiplier, TWO_32 - attempt, TWO_31);
    InverseShrinks(Pow(cfg.multiplier, TWO_32 - attempt), Pow(cfg.multiplier, TWO_31));
    ScalingGrows(cfg.baseDelay, PowI(cfg.multiplier, -TWO_31), PowI(cfg.multiplier, AsI32(attempt)));
  }

  lemma {:induction false} PowOfOne(k: nat)
    ensures Pow(1.0, k) == 1.0
  {
    if k > 0 {
      PowOfOne(k - 1);
    }
  }

  lemma SteadyDelays(cfg: Config, attempt: nat, jitter: real)
    requires cfg.multiplier >= 1.0 && !cfg.useJitter && attempt < TWO_32
    requires cfg.baseDelay == 0 || cfg.multiplier == 1.0
    ensures NextDelay(cfg, attempt, jitter) ==
            if cfg.baseDelay <= LargestDelay(cfg) then cfg.baseDelay else LargestDelay(cfg)
  {
    DelayIs(cfg, attempt, jitter);
    PowOfOne(if attempt < TWO_31 then attempt else TWO_32 - attempt);
  }

  lemma LaterDelayIsNoShorter(cfg: Config, a: nat, b: nat)
    requires cfg.multiplier >= 1.0 && !cfg.useJitter && a <= b < cfg.maxRetries && b < TWO_32
    requires cfg.maxRetries <= TWO_31 || cfg.baseDelay == 0 || cfg.multiplier == 1.0
             || DelayAtBoundary(cfg) >= LargestDelay(cfg) as real
    ensures NextDelay(cfg, a, 1.0) <= NextDelay(cfg, b, 1.0)
  {
    if b < TWO_31 {
      DelaysGrowAndAreCapped(cfg, a, b, 1.0, 1.0);
    } else if cfg.baseDelay == 0 || cfg.multiplier == 1.0 {
      SteadyDelays(cfg, a, 1.0);
      SteadyDelays(cfg, b, 1.0);
    } else {
      DelayIs(cfg, a, 1.0);
      DelayIs(cfg, b, 1.0);
      BoundaryIsLowest(cfg, b);
    }
  }

  lemma BoundaryDelayIsShorter(cfg: Config, boundary: nat)
    requires cfg.multiplier > 1.0 && !cfg.useJitter && cfg.baseDelay >= 1 && boundary == TWO_31
    requires DelayAtBoundary(cfg) < LargestDelay(cfg) as real
    ensures NextDelay(cfg, boundary, 1.0) < NextDelay(cfg, 0, 1.0)
  {
    DelayIs(cfg, 0, 1.0);
    DelayIs(cfg, boundary, 1.0);
    PowAboveOne(cfg.multiplier, boundary);
    InverseBelowOne(Pow(cfg.multiplier, boundary));
    ScalingShrinks(cfg.baseDelay, PowI(cfg.multiplier, AsI32(boundary)));
    assert Scaled(cfg.baseDelay, PowI(cfg.multiplier, AsI32(0))) == cfg.baseDelay as real;
  }

  /**
   Delays without jitter are non-decreasing over all retries exactly when every attempt number fits the
   signed exponent, or the delays are all the same, or even the smallest power leaves them at the maximum.
   */
  lemma DelaysNeverShrinkIff(cfg: Config)
    requires cfg.multiplier >= 1.0 && !cfg.useJitter
    ensures DelaysNeverShrink(cfg) <==>
            cfg.maxRetries <= TWO_31 || cfg.baseDelay == 0 || cfg.multiplier == 1.0
            || DelayAtBoundary(cfg) >= LargestDelay(cfg) as real
  {
    if cfg.maxRetries <= TWO_31 || cfg.baseDelay == 0 || cfg.multiplier == 1.0
       || DelayAtBoundary(cfg) >= LargestDelay(cfg) as real {
      forall a: nat, b: nat | a <= b < cfg.maxRetries && b < TWO_32
        ensures NextDelay(cfg, a, 1.0) <= NextDelay(cfg, b, 1.0)
      {
        LaterDelayIsNoShorter(cfg, a, b);
      }
    } else {
      var a: nat, b: nat := 0, TWO_31;
      BoundaryDelayIsShorter(cfg, b);
    }
  }

  // ---------- how long an execution sleeps ----------

  function Sum(d: seq<nat>): nat {
    if d == [] then 0 else Sum(d[..|d| - 1]) + d[|d| - 1]
  }

  /** The uncapped delays of the first `k` retries together. */
  function BackoffSum(base: nat, m: real, k: nat): real {
    if k == 0 then 0.0 else BackoffSum(base, m, k - 1) + Backoff(base, m, k - 1)
  }

  lemma {:induction false} BackoffSumClosedForm(base: nat, m: real, k: nat)
    ensures (m - 1.0) * BackoffSum(base, m, k) == Backoff(base, m, k) - base as real
  {
    if k > 0 {
      BackoffSumClosedForm(base, m, k - 1);
      var s, b := BackoffSum(base, m, k - 1), Backoff(base, m, k - 1);
      assert (m - 1.0) * (s + b) == (m - 1.0) * s + (m * b - b);
    }
  }

  lemma JitterAtMostHalfMore(delay: real, useJitter: bool, jitter: real)
    requires delay >= 0.0 && JitterInRange(jitter)
    ensures ToMillis(Jittered(delay, useJitter, jitter)) as real <= 1.5 * delay
  {
    TimesNotNegative(delay, jitter);
    TimesNotNegative(delay, 1.5 - jitter);
    assert delay * (1.5 - jitter) == 1.5 * delay - delay * jitter;
    var x := Jittered(delay, useJitter, jitter);
    assert 0.0 <= x <= 1.5 * delay && ToMillis(x) as real <= x;
  }

  lemma InverseScalesDown(base: nat, p: real)
    requires p >= 1.0
    ensures 0.0 <= Scaled(base, 1.0 / p) <= base as real
  {
    InverseShrinks(1.0, p);
    ScalingGrows(base, 1.0 / p, 1.0);
    TimesNotNegative(base as real, 1.0 / p);
  }

  lemma CappedDelayWithin(cfg: Config, attempt: nat)
    requires cfg.multiplier >= 1.0 && attempt < TWO_32
    ensures 0.0 <= CappedDelay(cfg, attempt) <= cfg.maxDelay as real
    ensures CappedDelay(cfg, attempt) <= Backoff(cfg.baseDelay, cfg.multiplier, attempt)
  {
    BackoffGrows(cfg.baseDelay, cfg.multiplier, 0, attempt);
    if attempt < TWO_31 {
      CappedDelayIsBackoff(cfg, attempt);
    } else {
      PowGrows(cfg.multiplier, 0, TWO_32 - attempt);
      InverseScalesDown(cfg.baseDelay, Pow(cfg.multiplier, TWO_32 - attempt));
    }
  }

  /** With jitter a delay can exceed the documented maximum. */
  ghost predicate CanExceedMaximum(cfg: Config, attempt: nat)
    requires attempt < TWO_32
  {
    exists jitter :: JitterInRange(jitter) && NextDelay(cfg, attempt, jitter) > cfg.maxDelay
  }

  lemma QuotientBetween(t: real, d: real, high: real)
    requires 0.0 < d <= t < high * d
    ensures 1.0 <= t / d < high && d * (t / d) == t
  {
    var q := t / d;
    assert q * d == t;
    assert (q - 1.0) * d == t - d && (high - q) * d == high * d - t;
  }

  lemma LargeDrawExceeds(cfg: Config, attempt: nat) returns (jitter: real)
    requires cfg.multiplier >= 1.0 && attempt < TWO_32 && cfg.useJitter && cfg.maxDelay < U64_MAX
    requires 1.5 * CappedDelay(cfg, attempt) > cfg.maxDelay as real + 1.0
    ensures JitterInRange(jitter) && NextDelay(cfg, attempt, jitter) > cfg.maxDelay
  {
    var delay, next := CappedDelay(cfg, attempt), cfg.maxDelay as real + 1.0;
    CappedDelayWithin(cfg, attempt);
    QuotientBetween(next, delay, 1.5);
    jitter := next / delay;
  }

  lemma LargestProduct(delay: real, jitter: real, bound: real)
    requires delay >= 0.0 && JitterInRange(jitter) && 1.5 * delay <= bound && bound > 0.0
    ensures 0.0 <= delay * jitter < bound
  {
    TimesNotNegative(delay, jitter);
    if delay == 0.0 {
      assert delay * jitter == 0.0;
    } else {
      var rest := 1.5 - jitter;
      assert delay * rest > 0.0;
      assert delay * jitter == 1.5 * delay - delay * rest;
    }
  }

  lemma SmallDelayNeverExceeds(cfg: Config, attempt: nat, jitter: real)
    requires cfg.multiplier >= 1.0 && attempt < TWO_32 && JitterInRange(jitter)
    requires !cfg.useJitter || cfg.maxDelay >= U64_MAX
             || 1.5 * CappedDelay(cfg, attempt) <= cfg.maxDelay as real + 1.0
    ensures NextDelay(cfg, attempt, jitter) <= cfg.maxDelay
  {
    var delay := CappedDelay(cfg, attempt);
    CappedDelayWithin(cfg, attempt);
    var x := Jittered(delay, cfg.useJitter, jitter);
    if cfg.maxDelay < U64_MAX {
      if cfg.useJitter {
        LargestProduct(delay, jitter, cfg.maxDelay as real + 1.0);
      }
      assert x < (cfg.maxDelay + 1) as real;
      TruncatedStaysBelow(x, cfg.maxDelay + 1);
    }
  }

  /**
   A delay can exceed the maximum delay if and only if there is jitter and half as much again as the delay before it
   is more than a millisecond over the maximum; it never exceeds the maximum by more than half (`OneDelay`).
   */
  lemma CanExceedMaximumIff(cfg: Config, attempt: nat)
    requires cfg.multiplier >= 1.0 && attempt < TWO_32
    ensures CanExceedMaximum(cfg, attempt) <==>
            cfg.useJitter && cfg.maxDelay < U64_MAX && 1.5 * CappedDelay(cfg, attempt) > cfg.maxDelay as real + 1.0
  {
    if cfg.useJitter && cfg.maxDelay < U64_MAX && 1.5 * CappedDelay(cfg, attempt) > cfg.maxDelay as real + 1.0 {
      var jitter := LargeDrawExceeds(cfg, attempt);
    } else {
      forall jitter | JitterInRange(jitter)
        ensures NextDelay(cfg, attempt, jitter) <= cfg.maxDelay
      {
        SmallDelayNeverExceeds(cfg, attempt, jitter);
      }
    }
  }

  lemma OneDelay(cfg: Config, attempt: nat, jitter: real)
    requires cfg.multiplier >= 1.0 && attempt < TWO_32 && JitterInRange(jitter)
    ensures NextDelay(cfg, attempt, jitter) as real <= 1.5 * Backoff(cfg.baseDelay, cfg.multiplier, attempt)
    ensures NextDelay(cfg, attempt, jitter) as real <= 1.5 * cfg.maxDelay as real
  {
    CappedDelayWithin(cfg, attempt);
    JitterAtMostHalfMore(CappedDelay(cfg, attempt), cfg.useJitter, jitter);
  }

  /** `k` times `x`, by addition. */
  function Times(k: nat, x: nat): nat {
    if k == 0 then 0 else Times(k - 1, x) + x
  }

  lemma {:induction false} TimesIsProduct(k: nat, x: nat)
    ensures Times(k, x) == k * x
  {
    if k > 0 {
      TimesIsProduct(k - 1, x);
      assert k * x == (k - 1) * x + x;
    }
  }

  lemma {:induction false} SleepBounds(cfg: Config, jitters: nat -> real, k: nat)
    requires cfg.multiplier >= 1.0 && k <= TWO_32
    requires forall i: nat :: JitterInRange(jitters(i))
    ensures Sum(Delays(cfg, 0, jitters, k)) as real <= 1.5 * BackoffSum(cfg.baseDelay, cfg.multiplier, k)
    ensures Sum(Delays(cfg, 0, jitters, k)) as real <= 1.5 * Times(k, cfg.maxDelay) as real
  {
    if k > 0 {
      SleepBounds(cfg, jitters, k - 1);
      OneDelay(cfg, k - 1, jitters(k - 1));
      var d := Delays(cfg, 0, jitters, k);
      assert d[..k - 1] == Delays(cfg, 0, jitters, k - 1);
    }
  }

  /** An execution that makes `k` retries sleeps no longer than 1.5 times the capped or the geometric total. */
  lemma TotalSleep(cfg: Config, jitters: nat -> real, k: nat)
    requires cfg.multiplier > 1.0 && k <= TWO_32
    requires forall i: nat :: JitterInRange(jitters(i))
    ensures var total := Sum(Delays(cfg, 0, jitters, k)) as real;
            && total <= 1.5 * (k * cfg.maxDelay) as real
            && total <= 1.5 * GeometricTotal(cfg, k)
  {
    SleepBounds(cfg, jitters, k);
    TimesIsProduct(k, cfg.maxDelay);
    BackoffSumIsGeometric(cfg, k);
  }

  /** The least any delay below the 31-bit boundary can be: the base as far as allowed, halved by jitter. */
  function LeastDelay(cfg: Config): nat {
    var least := if cfg.baseDelay <= LargestDelay(cfg) then cfg.baseDelay else LargestDelay(cfg);
    if cfg.useJitter then least / 2 else least
  }

  lemma HalfAtLeast(delay: real, jitter: real, least: nat)
    requires delay >= least as real && JitterInRange(jitter)
    ensures delay * jitter >= (least / 2) as real
  {
    TimesNotNegative(delay, jitter - 0.5);
    assert delay * (jitter - 0.5) == delay * jitter - 0.5 * delay;
  }

  lemma OneDelayAtLeast(cfg: Config, attempt: nat, jitter: real)
    requires cfg.multiplier >= 1.0 && attempt < TWO_31 && JitterInRange(jitter)
    ensures NextDelay(cfg, attempt, jitter) >= LeastDelay(cfg)
  {
    var delay := CappedDelay(cfg, attempt);
    CappedDelayIsBackoff(cfg, attempt);
    BackoffGrows(cfg.baseDelay, cfg.multiplier, 0, attempt);
    JitteredAtLeast(delay, if cfg.baseDelay <= LargestDelay(cfg) then cfg.baseDelay else LargestDelay(cfg),
                    cfg.useJitter, jitter);
  }

  lemma JitteredAtLeast(delay: real, least: nat, useJitter: bool, jitter: real)
    requires delay >= least as real && JitterInRange(jitter) && least <= U64_MAX
    ensures ToMillis(Jittered(delay, useJitter, jitter)) >= if useJitter then least / 2 else least
  {
    if useJitter {
      HalfAtLeast(delay, jitter, least);
    }
    FloorAtLeast(Jittered(delay, useJitter, jitter), if useJitter then least / 2 else least);
  }

  lemma FloorAtLeast(x: real, n: nat)
    requires x >= n as real && n <= U64_MAX
    ensures ToMillis(x) >= n
  {
  }

  lemma {:induction false} SleepsAtLeast(cfg: Config, jitters: nat -> real, k: nat)
    requires cfg.multiplier >= 1.0 && k <= TWO_31
    requires forall i: nat :: JitterInRange(jitters(i))
    ensures Sum(Delays(cfg, 0, jitters, k)) >= Times(k, LeastDelay(cfg))
  {
    if k > 0 {
      SleepsAtLeast(cfg, jitters, k - 1);
      OneDelayAtLeast(cfg, k - 1, jitters(k - 1));
      assert Delays(cfg, 0, jitters, k)[..k - 1] == Delays(cfg, 0, jitters, k - 1);
    }
  }

  /** `k` retries sleep at least `k` times the least delay: the executor does back off. */
  lemma TotalSleepAtLeast(cfg: Config, jitters: nat -> real, k: nat)
    requires cfg.multiplier >= 1.0 && k <= TWO_31
    requires forall i: nat :: JitterInRange(jitters(i))
    ensures Sum(Delays(cfg, 0, jitters, k)) >= k * LeastDelay(cfg)
  {
    SleepsAtLeast(cfg, jitters, k);
    TimesIsProduct(k, LeastDelay(cfg));
  }

  lemma {:induction false} SleepNearBackoffSum(cfg: Config, jitters: nat -> real, k: nat)
    requires cfg.multiplier >= 1.0 && !cfg.useJitter && k <= TWO_31
    requires k > 0 ==> Backoff(cfg.baseDelay, cfg.multiplier, k - 1) <= LargestDelay(cfg) as real
    ensures var total := Sum(Delays(cfg, 0, jitters, k)) as real;
            var backoff := BackoffSum(cfg.baseDelay, cfg.multiplier, k);
            backoff - k as real <= total <= backoff
  {
    if k > 0 {
      if k > 1 {
        BackoffGrows(cfg.baseDelay, cfg.multiplier, k - 2, k - 1);
      }
      SleepNearBackoffSum(cfg, jitters, k - 1);
      CappedDelayIsBackoff(cfg, k - 1);
      BackoffGrows(cfg.baseDelay, cfg.multiplier, 0, k - 1);
      assert Delays(cfg, 0, jitters, k)[..k - 1] == Delays(cfg, 0, jitters, k - 1);
    }
  }

  /** Without jitter, while no delay reaches the maximum, `k` retries sleep the geometric total but for rounding. */
  lemma TotalSleepIsGeometric(cfg: Config, jitters: nat -> real, k: nat)
    requires cfg.multiplier > 1.0 && !cfg.useJitter && k <= TWO_31
    requires k > 0 ==> Backoff(cfg.baseDelay, cfg.multiplier, k - 1) <= LargestDelay(cfg) as real
    ensures GeometricTotal(cfg, k) - k as real <= Sum(Delays(cfg, 0, jitters, k)) as real <= GeometricTotal(cfg, k)
  {
    SleepNearBackoffSum(cfg, jitters, k);
    BackoffSumIsGeometric(cfg, k);
  }

  function GeometricTotal(cfg: Config, k: nat): real
    requires cfg.multiplier > 1.0
  {
    cfg.baseDelay as real * (Pow(cfg.multiplier, k) - 1.0) / (cfg.multiplier - 1.0)
  }

  lemma BackoffSumIsGeometric(cfg: Config, k: nat)
    requires cfg.multiplier > 1.0
    ensures BackoffSum(cfg.baseDelay, cfg.multiplier, k) == GeometricTotal(cfg, k)
  {
    BackoffSumClosedForm(cfg.baseDelay, cfg.multiplier, k);
    BackoffIsProduct(cfg.baseDelay, cfg.multiplier, k);
    QuotientIs(cfg.multiplier - 1.0, BackoffSum(cfg.baseDelay, cfg.multiplier, k),
               cfg.baseDelay as real * (Pow(cfg.multiplier, k) - 1.0));
  }

  lemma QuotientIs(a: real, s: real, t: real)
    requires a > 0.0 && a * s == t
    ensures s == t / a
  {
  }
}
