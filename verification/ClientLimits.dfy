/**
 When the bucket of a client can limit a call that the global bucket has served: bursts of calls that drain
 both, and the exact condition.
 */
module ClientLimits {
  import opened Clock
  import opened RateLimiterRuns
  import opened RateLimiters
  import opened TokenBuckets
  import opened Wrappers

  // ---------- bursts ----------

  /** A call that takes no time. */
  function AllAt(t: Instant): Readings {
    Readings(t, t, t, (ip: IpAddr) => t, t, t, t)
  }

  /** `n` calls of client `ip` at one instant. */
  function Burst(ip: IpAddr, t: Instant, n: nat): seq<Call> {
    if n == 0 then [] else Burst(ip, t, n - 1) + [Call(Some(ip), AllAt(t))]
  }

  predicate Holds(cfg: Config, b: Bucket, t: Instant, tokens: real) {
    && InRange(b) && SameShape(b, FreshBucket(cfg, 0.0))
    && b.lastUpdate <= t && Refilled(b, t).tokens == tokens
  }

  /** At `t` the global bucket holds `g` tokens and that of client `ip` holds `c`. */
  predicate Shows(cfg: Config, s: Limiter, ip: IpAddr, t: Instant, g: real, c: real) {
    && Holds(cfg, s.global, t, g)
    && ip in s.clients && Holds(cfg, s.clients[ip].bucket, t, c)
  }

  predicate NoCleanupDue(m: Memory, s: Limiter, t: Instant) {
    m == Forgetting ==> Elapsed(t, s.lastCleanup) < CLEANUP_INTERVAL
  }

  lemma TryTakesOne(cfg: Config, b: Bucket, t: Instant, tokens: real)
    requires Holds(cfg, b, t, tokens) && tokens >= 1.0
    ensures Accepts(b, t) && Holds(cfg, AfterTry(b, t), t, tokens - 1.0)
  {
    RefillStaysInRange(b, t);
    RefillAtSameInstant(AfterTry(b, t));
  }

  /** The tokens a bucket earns from `t` to `later`. */
  lemma HoldsLater(cfg: Config, b: Bucket, t: Instant, later: Instant, tokens: real)
    requires Holds(cfg, b, t, tokens) && t <= later
    ensures Holds(cfg, b, later,
                  Min(tokens + Earned(cfg.requestsPerSecond as real, later - t), cfg.burstSize as real))
  {
    RefillComposes(b, t, later);
  }

  lemma ShowsLater(cfg: Config, s: Limiter, ip: IpAddr, t: Instant, later: Instant, g: real, c: real)
    requires Shows(cfg, s, ip, t, g, c) && t <= later
    ensures var earned, size := Earned(cfg.requestsPerSecond as real, later - t), cfg.burstSize as real;
            Shows(cfg, s, ip, later, Min(g + earned, size), Min(c + earned, size))
  {
    HoldsLater(cfg, s.global, t, later, g);
    HoldsLater(cfg, s.clients[ip].bucket, t, later, c);
  }

  /** With a global token, a call is allowed or limited by its client as the bucket of that has a token or not. */
  lemma OutcomeShown(m: Memory, cfg: Config, s: Limiter, ip: IpAddr, t: Instant, g: real, c: real)
    requires cfg.perClient && cfg.requestsPerSecond >= 1
    requires Shows(cfg, s, ip, t, g, c) && NoCleanupDue(m, s, t) && g >= 1.0
    ensures var o := OutcomeOf(m, cfg, s, Call(Some(ip), AllAt(t)));
            if c >= 1.0 then o == Allowed else IsLimited(o, PerClient)
  {
  }

  lemma CallDrains(m: Memory, cfg: Config, s: Limiter, ip: IpAddr, t: Instant, g: real, c: real)
    requires cfg.perClient && Shows(cfg, s, ip, t, g, c) && NoCleanupDue(m, s, t) && g >= 1.0 && c >= 1.0
    ensures var r := AfterCall(m, cfg, s, Call(Some(ip), AllAt(t)));
            Shows(cfg, r, ip, t, g - 1.0, c - 1.0) && r.lastCleanup == s.lastCleanup && r.clients[ip].lastAccess == t
  {
    TryTakesOne(cfg, s.global, t, g);
    TryTakesOne(cfg, s.clients[ip].bucket, t, c);
  }

  /** `r` is `s` after `n` calls of the client that took a token from either bucket at `t`. */
  predicate DrainedBy(cfg: Config, s: Limiter, r: Limiter, ip: IpAddr, t: Instant, n: nat, g: real, c: real) {
    && Shows(cfg, r, ip, t, g - n as real, c - n as real) && r.lastCleanup == s.lastCleanup
    && (n > 0 ==> r.clients[ip].lastAccess == t)
  }

  lemma OneMoreDrains(
    m: Memory, cfg: Config, s: Limiter, r: Limiter, ip: IpAddr, t: Instant, n: nat, g: real, c: real)
    requires cfg.perClient && NoCleanupDue(m, s, t) && 1 <= n && g >= n as real && c >= n as real
    requires DrainedBy(cfg, s, r, ip, t, n - 1, g, c)
    ensures DrainedBy(cfg, s, AfterCall(m, cfg, r, Call(Some(ip), AllAt(t))), ip, t, n, g, c)
  {
    var used := (n - 1) as real;
    assert used + 1.0 == n as real;
    CallDrains(m, cfg, r, ip, t, g - used, c - used);
  }

  lemma {:induction false} BurstDrains(
    m: Memory, cfg: Config, created: Instant, calls: seq<Call>, ip: IpAddr, t: Instant, n: nat, g: real, c: real)
    requires cfg.perClient && g >= n as real && c >= n as real
    requires var s := AfterRun(m, cfg, created, calls); Shows(cfg, s, ip, t, g, c) && NoCleanupDue(m, s, t)
    ensures DrainedBy(cfg, AfterRun(m, cfg, created, calls), AfterRun(m, cfg, created, calls + Burst(ip, t, n)),
                      ip, t, n, g, c)
  {
    var s := AfterRun(m, cfg, created, calls);
    if n == 0 {
      assert calls + Burst(ip, t, n) == calls;
    } else {
      BurstDrains(m, cfg, created, calls, ip, t, n - 1, g, c);
      OneMoreDrains(m, cfg, s, AfterRun(m, cfg, created, calls + Burst(ip, t, n - 1)), ip, t, n, g, c);
      BurstGrows(m, cfg, created, calls, ip, t, n);
    }
  }

  lemma BurstGrows(m: Memory, cfg: Config, created: Instant, calls: seq<Call>, ip: IpAddr, t: Instant, n: nat)
    requires n > 0
    ensures var before, last := calls + Burst(ip, t, n - 1), Call(Some(ip), AllAt(t));
            && calls + Burst(ip, t, n) == before + [last]
            && AfterRun(m, cfg, created, calls + Burst(ip, t, n)) ==
               AfterCall(m, cfg, AfterRun(m, cfg, created, before), last)
            && forall now :: InOrder(created, calls + Burst(ip, t, n), now) <==>
                 InOrder(created, before, t) && t <= now
  {
    var before, last := calls + Burst(ip, t, n - 1), Call(Some(ip), AllAt(t));
    assert calls + Burst(ip, t, n) == before + [last];
    RunExtends(m, cfg, created, before, last);
  }

  lemma {:induction false} BurstInOrder(cfg: Config, created: Instant, calls: seq<Call>, ip: IpAddr, t: Instant, n: nat)
    requires InOrder(created, calls, t)
    ensures InOrder(created, calls + Burst(ip, t, n), t)
  {
    if n == 0 {
      assert calls + Burst(ip, t, n) == calls;
    } else {
      BurstInOrder(cfg, created, calls, ip, t, n - 1);
      BurstGrows(Forgetting, cfg, created, calls, ip, t, n);
    }
  }

  /** The first call to a limiter created at 0, at which no cleanup is due, leaves both buckets one short of full. */
  lemma FirstCallTakesOne(m: Memory, cfg: Config, ip: IpAddr, at: Readings)
    requires cfg.perClient && cfg.burstSize >= 1
    requires at.global == 0.0 && at.due == 0.0 && at.created <= at.served
    ensures var b := FreshBucket(cfg, 0.0).(tokens := cfg.burstSize as real - 1.0);
            AfterRun(m, cfg, 0.0, [Call(Some(ip), at)]) ==
            Limiter(b, map[ip := Entry(b.(lastUpdate := at.served), at.accessed)], 0.0)
  {
    var call := Call(Some(ip), at);
    assert [call][..0] == [];
    RefillAtSameInstant(FreshBucket(cfg, 0.0));
    RefillStaysInRange(FreshBucket(cfg, at.created), at.served);
  }

  // ---------- lags ----------

  predicate LagsWithin(calls: seq<Call>, longest: Duration) {
    forall i :: 0 <= i < |calls| ==> calls[i].at.Lag() <= longest
  }

  /** A call that the bucket of its client limits, after a run in which no lag is longer than `longest`. */
  ghost predicate LimitingRun(cfg: Config, longest: Duration, created: Instant, calls: seq<Call>, call: Call) {
    && NextInOrder(created, calls, call) && LagsWithin(calls + [call], longest)
    && IsLimited(OutcomeAfter(Forgetting, cfg, created, calls, call), PerClient)
  }

  ghost predicate ClientsCanBeLimited(cfg: Config, longest: Duration) {
    exists created: Instant, calls: seq<Call>, call: Call :: LimitingRun(cfg, longest, created, calls, call)
  }

  lemma {:induction false} LongestLagIsWithin(
    cfg: Config, created: Instant, calls: seq<Call>, ip: IpAddr, longest: Duration)
    requires LagsWithin(calls, longest) && longest >= 0.0
    ensures LongestLag(cfg, created, calls, ip) <= longest
  {
    if calls != [] {
      LongestLagIsWithin(cfg, created, calls[..|calls| - 1], ip, longest);
    }
  }

  lemma WithoutLagNoneLimits(cfg: Config, created: Instant, calls: seq<Call>, call: Call, longest: Duration)
    requires NextInOrder(created, calls, call) && LagsWithin(calls + [call], longest) && longest >= 0.0
    requires longest == 0.0 || cfg.requestsPerSecond == 0 || cfg.burstSize == 0 || !cfg.perClient
    ensures !IsLimited(OutcomeAfter(Forgetting, cfg, created, calls, call), PerClient)
  {
    OutcomeByLevels(Forgetting, cfg, created, calls, call);
    RunIsCoherent(Forgetting, cfg, created, calls, call.at.global);
    if cfg.perClient && cfg.burstSize >= 1 {
      assert forall i :: 0 <= i < |calls| ==> calls[i] == (calls + [call])[i];
      if call.client.Some? {
        LongestLagIsWithin(cfg, created, calls, call.client.value, longest);
      }
      PerClientNeverLimits(Forgetting, cfg, created, calls, call);
    }
  }

  lemma {:induction false} BurstWithin(ip: IpAddr, t: Instant, n: nat, longest: Duration)
    requires longest >= 0.0
    ensures LagsWithin(Burst(ip, t, n), longest)
  {
    if n > 0 {
      BurstWithin(ip, t, n - 1, longest);
    }
  }

  lemma InverseRate(cfg: Config) returns (x: Duration)
    requires cfg.requestsPerSecond >= 1
    ensures 0.0 < x <= 1.0 && Earned(cfg.requestsPerSecond as real, x) == 1.0
  {
    var rate := cfg.requestsPerSecond as real;
    x := 1.0 / rate;
    assert x * rate == 1.0;
    assert x > 1.0 ==> x * rate > rate;
  }

  lemma EarnedSplits(rate: real, x: Duration, y: Duration)
    ensures Earned(rate, x + y) == Earned(rate, x) + Earned(rate, y)
    ensures Earned(rate, x - y) == Earned(rate, x) - Earned(rate, y)
    ensures rate >= 0.0 && x >= 0.0 ==> Earned(rate, x) >= 0.0
    ensures rate > 0.0 && x > 0.0 ==> Earned(rate, x) > 0.0
  {
  }

  /** The first call to a new limiter takes its token from the client at `t`, after the global one is earned back. */
  function LaggingCall(ip: IpAddr, t: Instant): Call {
    Call(Some(ip), Readings(0.0, 0.0, 0.0, (ip: IpAddr) => 0.0, t, t, t))
  }

  /** A lagging call and a burst that empties the bucket of the client. */
  function Draining(cfg: Config, ip: IpAddr, t: Instant): seq<Call>
    requires cfg.burstSize >= 1
  {
    [LaggingCall(ip, t)] + Burst(ip, t, cfg.burstSize - 1)
  }

  lemma LaggingCallShows(m: Memory, cfg: Config, ip: IpAddr, t: Instant)
    requires cfg.perClient && cfg.burstSize >= 1 && t >= 0.0
    ensures var s, size := AfterRun(m, cfg, 0.0, [LaggingCall(ip, t)]), cfg.burstSize as real;
            && Shows(cfg, s, ip, t, Min(size - 1.0 + Earned(cfg.requestsPerSecond as real, t), size), size - 1.0)
            && s.lastCleanup == 0.0 && s.clients[ip].lastAccess == t
  {
    var first, size := LaggingCall(ip, t), cfg.burstSize as real;
    FirstCallTakesOne(m, cfg, ip, first.at);
    var s := AfterRun(m, cfg, 0.0, [first]);
    assert Holds(cfg, s.global, 0.0, size - 1.0) by {
      RefillAtSameInstant(s.global);
    }
    assert Holds(cfg, s.clients[ip].bucket, t, size - 1.0) by {
      RefillAtSameInstant(s.clients[ip].bucket);
    }
    HoldsLater(cfg, s.global, 0.0, t, size - 1.0);
  }

  /** It leaves the client nothing and the global bucket what it earned while the first call lagged, up to a token. */
  lemma DrainingLeaves(m: Memory, cfg: Config, ip: IpAddr, t: Instant)
    requires cfg.perClient && cfg.burstSize >= 1 && 0.0 <= t < CLEANUP_INTERVAL
    ensures var s := AfterRun(m, cfg, 0.0, Draining(cfg, ip, t));
            && Shows(cfg, s, ip, t, Min(Earned(cfg.requestsPerSecond as real, t), 1.0), 0.0)
            && s.lastCleanup == 0.0 && s.clients[ip].lastAccess == t
  {
    var earned, size := Earned(cfg.requestsPerSecond as real, t), cfg.burstSize as real;
    var g := Min(size - 1.0 + earned, size);
    LaggingCallShows(m, cfg, ip, t);
    EarnedSplits(cfg.requestsPerSecond as real, t, 0.0);
    BurstDrains(m, cfg, 0.0, [LaggingCall(ip, t)], ip, t, cfg.burstSize - 1, g, size - 1.0);
    assert g - (cfg.burstSize - 1) as real == Min(earned, 1.0);
  }

  lemma DrainingInOrder(cfg: Config, ip: IpAddr, t: Instant, longest: Duration, last: Call)
    requires cfg.burstSize >= 1 && 0.0 <= t
    ensures InOrder(0.0, Draining(cfg, ip, t), t)
    ensures t <= longest && last.at.Lag() <= longest ==> LagsWithin(Draining(cfg, ip, t) + [last], longest)
  {
    var first := LaggingCall(ip, t);
    assert [first] == [] + [first];
    RunExtends(Forgetting, cfg, 0.0, [], first);
    BurstInOrder(cfg, 0.0, [first], ip, t, cfg.burstSize - 1);
    if t <= longest {
      BurstWithin(ip, t, cfg.burstSize - 1, longest);
    }
  }

  lemma OneTokenEarned(early: real, late: real, size: real)
    requires early > 0.0 && late >= 0.0 && size >= 1.0
    requires (early <= 1.0 && late == 1.0 - early) || (early >= 1.0 && late == 0.0)
    ensures Min(Min(early, 1.0) + late, size) >= 1.0 && Min(0.0 + late, size) < 1.0
  {
  }

  /** When the global bucket has a token again, and the client, drained at `lag`, has not. */
  lemma NextGlobalToken(cfg: Config, lag: Duration) returns (x: Instant)
    requires cfg.burstSize >= 1 && cfg.requestsPerSecond >= 1 && 0.0 < lag <= 1.0
    ensures var rate, size := cfg.requestsPerSecond as real, cfg.burstSize as real;
            && lag <= x <= 1.0
            && Min(Min(Earned(rate, lag), 1.0) + Earned(rate, x - lag), size) >= 1.0
            && Min(0.0 + Earned(rate, x - lag), size) < 1.0
  {
    var rate := cfg.requestsPerSecond as real;
    var token := InverseRate(cfg);
    EarnedSplits(rate, lag, 0.0);
    if lag <= token {
      x := token;
      EarnedSplits(rate, token, lag);
      EarnedSplits(rate, token - lag, 0.0);
    } else {
      x := lag;
      EarnedSplits(rate, lag, token);
      EarnedSplits(rate, lag - token, 0.0);
      EarnedSplits(rate, lag, lag);
    }
    OneTokenEarned(Earned(rate, lag), Earned(rate, x - lag), cfg.burstSize as real);
  }

  /** After draining, the next call finds a token in the global bucket and less than one in that of the client. */
  lemma LagLetsClientBeLimited(cfg: Config, lag: Duration) returns (calls: seq<Call>, call: Call)
    requires cfg.perClient && cfg.burstSize >= 1 && cfg.requestsPerSecond >= 1 && 0.0 < lag <= 1.0
    ensures LimitingRun(cfg, lag, 0.0, calls, call)
  {
    var ip, rate, size := V4(0), cfg.requestsPerSecond as real, cfg.burstSize as real;
    var x := NextGlobalToken(cfg, lag);
    calls, call := Draining(cfg, ip, lag), Call(Some(ip), AllAt(x));
    var s := AfterRun(Forgetting, cfg, 0.0, calls);
    DrainingLeaves(Forgetting, cfg, ip, lag);
    ShowsLater(cfg, s, ip, lag, x, Min(Earned(rate, lag), 1.0), 0.0);
    OutcomeShown(Forgetting, cfg, s, ip, x, Min(Min(Earned(rate, lag), 1.0) + Earned(rate, x - lag), size),
                 Min(0.0 + Earned(rate, x - lag), size));
    DrainingInOrder(cfg, ip, lag, lag, call);
    InOrderLater(0.0, calls, lag, x);
  }

  lemma InOrderLater(created: Instant, calls: seq<Call>, now: Instant, later: Instant)
    requires InOrder(created, calls, now) && now <= later
    ensures InOrder(created, calls, later)
  {
  }

  /**
   A client bucket can limit a call that the global bucket has served if and only if the time between asking
   the two can vary, clients are limited, and there are tokens at all.
   */
  lemma ClientsCanBeLimitedIff(cfg: Config, longest: Duration)
    requires longest >= 0.0
    ensures ClientsCanBeLimited(cfg, longest) <==>
            longest > 0.0 && cfg.perClient && cfg.burstSize >= 1 && cfg.requestsPerSecond >= 1
  {
    if longest > 0.0 && cfg.perClient && cfg.burstSize >= 1 && cfg.requestsPerSecond >= 1 {
      var lag := if longest <= 1.0 then longest else 1.0;
      var calls, call := LagLetsClientBeLimited(cfg, lag);
      assert LimitingRun(cfg, longest, 0.0, calls, call);
    } else {
      forall created: Instant, calls: seq<Call>, call: Call
        | NextInOrder(created, calls, call) && LagsWithin(calls + [call], longest)
        ensures !IsLimited(OutcomeAfter(Forgetting, cfg, created, calls, call), PerClient)
      {
        WithoutLagNoneLimits(cfg, created, calls, call, longest);
      }
    }
  }
}
