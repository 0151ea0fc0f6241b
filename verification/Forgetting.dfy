/**
 When forgetting a client can be noticed: the limiter compared, over whole runs, with one that keeps every
 client for ever.
 */
module ForgottenClients {
  import opened Clock
  import opened ClientLimits
  import opened RateLimiterRuns
  import opened RateLimiters
  import opened TokenBuckets
  import opened Wrappers

  function Rate(cfg: Config): real {
    cfg.requestsPerSecond as real
  }

  function Size(cfg: Config): real {
    cfg.burstSize as real
  }

  /**
   The time to live covers a whole refill and, up to one token, what is earned between dating an access and refilling
   the bucket; and without that time it still covers one token.
   */
  predicate TtlCovers(cfg: Config, slack: Duration) {
    && Earned(Rate(cfg), cfg.clientTtl) - Min(Earned(Rate(cfg), slack), 1.0) >= Size(cfg)
    && Earned(Rate(cfg), cfg.clientTtl - slack) >= 1.0
  }

  predicate SlackWithin(calls: seq<Call>, slack: Duration) {
    forall i :: 0 <= i < |calls| ==> calls[i].at.Slack() <= slack
  }

  // ---------- a forgotten bucket was full ----------

  predicate Shaped(cfg: Config, b: Bucket) {
    InRange(b) && SameShape(b, FreshBucket(cfg, 0.0))
  }

  /** What an entry holds at least: all that its bucket earned between the access and the refill, but one token. */
  predicate Restored(cfg: Config, e: Entry, slack: Duration) {
    && e.lastAccess <= e.bucket.lastUpdate <= e.lastAccess + slack
    && e.bucket.tokens >= Min(Earned(Rate(cfg), e.bucket.lastUpdate - e.lastAccess), Size(cfg)) - 1.0
  }

  predicate FullAt(cfg: Config, b: Bucket, now: Instant) {
    Refilled(b, now).tokens == Size(cfg)
  }

  lemma EarnedGrows(rate: real, x: Duration, y: Duration)
    requires rate >= 0.0 && x <= y
    ensures Earned(rate, x) <= Earned(rate, y)
  {
    EarnedSplits(rate, y - x, 0.0);
    EarnedSplits(rate, y, x);
  }

  lemma TryRestores(cfg: Config, b: Bucket, at: Readings, slack: Duration)
    requires Shaped(cfg, b) && b.lastUpdate <= at.accessed <= at.served && at.Slack() <= slack
    ensures Restored(cfg, Entry(AfterTry(b, at.served), at.accessed), slack)
  {
    EarnedGrows(Rate(cfg), at.served - at.accessed, at.served - b.lastUpdate);
    assert Refilled(b, at.served).tokens >= Min(Earned(Rate(cfg), at.served - at.accessed), Size(cfg));
  }

  lemma FullStaysFull(cfg: Config, b: Bucket, mid: Instant, now: Instant)
    requires Shaped(cfg, b) && b.lastUpdate <= mid <= now && FullAt(cfg, b, mid)
    ensures FullAt(cfg, b, now)
  {
    RefillComposes(b, mid, now);
    RefillStaysInRange(b, mid);
    RefillStaysInRange(Refilled(b, mid), now);
  }

  /** `early` tokens come between access and refill, `late` ones between refill and the end of the time to live. */
  lemma EarnsEnough(size: real, tokens: real, early: real, late: real, slackEarns: real, least: real)
    requires tokens >= 0.0 && tokens >= Min(early, size) - 1.0
    requires early <= slackEarns && early + late - Min(slackEarns, 1.0) >= size
    requires late >= least >= 1.0
    ensures tokens + late >= size
  {
  }

  lemma ForgottenWasFull(cfg: Config, e: Entry, slack: Duration, now: Instant)
    requires Shaped(cfg, e.bucket) && Restored(cfg, e, slack) && TtlCovers(cfg, slack)
    requires e.bucket.lastUpdate <= now && Expired(e, cfg.clientTtl, now)
    ensures FullAt(cfg, e.bucket, now)
  {
    var rate, b := Rate(cfg), e.bucket;
    var early, rest := b.lastUpdate - e.lastAccess, cfg.clientTtl - (b.lastUpdate - e.lastAccess);
    EarnedSplits(rate, early, rest);
    EarnedGrows(rate, early, slack);
    EarnedGrows(rate, cfg.clientTtl - slack, rest);
    EarnedGrows(rate, rest, now - b.lastUpdate);
    EarnsEnough(Size(cfg), b.tokens, Earned(rate, early), Earned(rate, rest), Earned(rate, slack),
                Earned(rate, cfg.clientTtl - slack));
  }

  // ---------- runs that cannot tell ----------

  /** `e` forgets, `k` keeps: they agree on every client of `e`, and the others are full again in `k`. */
  ghost predicate Agree(cfg: Config, e: Limiter, k: Limiter, now: Instant) {
    && e.global == k.global
    && (forall ip <- e.clients :: ip in k.clients && e.clients[ip] == k.clients[ip])
    && (forall ip <- k.clients :: ip !in e.clients ==> FullAt(cfg, k.clients[ip].bucket, now))
  }

  ghost predicate AllRestored(cfg: Config, k: Limiter, slack: Duration, now: Instant) {
    forall ip <- k.clients ::
      Shaped(cfg, k.clients[ip].bucket) && Restored(cfg, k.clients[ip], slack) && k.clients[ip].bucket.lastUpdate <= now
  }

  /** After the cleanup of a call, whoever is gone would find a full bucket anyway. */
  lemma CleanupKeepsAgreement(cfg: Config, e: Limiter, k: Limiter, slack: Duration, at: Readings)
    requires TtlCovers(cfg, slack) && at.InOrder()
    requires Agree(cfg, e, k, at.global) && AllRestored(cfg, k, slack, at.global)
    ensures Agree(cfg, CleanedUp(cfg, e, at), k, at.created)
  {
    var t := CleanedUp(cfg, e, at);
    forall ip | ip in k.clients && ip !in t.clients
      ensures FullAt(cfg, k.clients[ip].bucket, at.created)
    {
      if ip in e.clients {
        ForgottenWasFull(cfg, k.clients[ip], slack, at.sweep(ip));
        FullStaysFull(cfg, k.clients[ip].bucket, at.sweep(ip), at.created);
      } else {
        FullStaysFull(cfg, k.clients[ip].bucket, at.global, at.created);
      }
    }
  }

  lemma FullServesLikeFresh(cfg: Config, b: Bucket, created: Instant, served: Instant)
    requires Shaped(cfg, b) && b.lastUpdate <= created <= served && FullAt(cfg, b, created)
    ensures Refilled(b, served) == Refilled(FreshBucket(cfg, created), served)
    ensures AfterTry(b, served) == AfterTry(FreshBucket(cfg, created), served)
  {
    FullStaysFull(cfg, b, created, served);
    RefillStaysInRange(FreshBucket(cfg, created), served);
  }

  /** Agreeing limiters put a client to buckets with the same tokens. */
  lemma AgreeingEntries(cfg: Config, e: Limiter, k: Limiter, slack: Duration, ip: IpAddr, at: Readings)
    requires Agree(cfg, e, k, at.created) && AllRestored(cfg, k, slack, at.created) && at.created <= at.served
    ensures var b, c := EntryOf(cfg, e, ip, at.created).bucket, EntryOf(cfg, k, ip, at.created).bucket;
            Refilled(b, at.served) == Refilled(c, at.served) && AfterTry(b, at.served) == AfterTry(c, at.served)
  {
    if ip in k.clients && ip !in e.clients {
      FullServesLikeFresh(cfg, k.clients[ip].bucket, at.created, at.served);
    }
  }

  lemma StagesAgree(cfg: Config, e: Limiter, k: Limiter, slack: Duration, ip: IpAddr, at: Readings)
    requires Agree(cfg, e, k, at.created) && AllRestored(cfg, k, slack, at.global)
    requires at.InOrder() && at.Slack() <= slack
    ensures Agree(cfg, ClientStage(cfg, e, ip, at), ClientStage(cfg, k, ip, at), at.served)
    ensures AllRestored(cfg, ClientStage(cfg, k, ip, at), slack, at.served)
  {
    var b := EntryOf(cfg, k, ip, at.created).bucket;
    AgreeingEntries(cfg, e, k, slack, ip, at);
    TryRestores(cfg, b, at, slack);
    RefillStaysInRange(b, at.served);
    var r := ClientStage(cfg, k, ip, at);
    forall jp | jp in r.clients && jp !in ClientStage(cfg, e, ip, at).clients
      ensures FullAt(cfg, r.clients[jp].bucket, at.served)
    {
      FullStaysFull(cfg, k.clients[jp].bucket, at.created, at.served);
    }
  }

  lemma CallKeepsAgreement(cfg: Config, e: Limiter, k: Limiter, slack: Duration, call: Call)
    requires TtlCovers(cfg, slack) && call.at.InOrder() && call.at.Slack() <= slack
    requires Agree(cfg, e, k, call.at.global) && AllRestored(cfg, k, slack, call.at.global)
    ensures Agree(cfg, AfterCall(Forgetting, cfg, e, call), AfterCall(Keeping, cfg, k, call), call.at.served)
    ensures AllRestored(cfg, AfterCall(Keeping, cfg, k, call), slack, call.at.served)
    ensures OutcomeOf(Forgetting, cfg, e, call) == OutcomeOf(Keeping, cfg, k, call)
  {
    var at := call.at;
    var f, l := GlobalStage(e, at), GlobalStage(k, at);
    if ReachesClient(cfg, k, call.client, at) {
      CleanupKeepsAgreement(cfg, f, l, slack, at);
      StagesAgree(cfg, CleanedUp(cfg, f, at), l, slack, call.client.value, at);
      AgreeingEntries(cfg, CleanedUp(cfg, f, at), l, slack, call.client.value, at);
    } else {
      forall ip | ip in l.clients && ip !in f.clients
        ensures FullAt(cfg, l.clients[ip].bucket, at.served)
      {
        FullStaysFull(cfg, k.clients[ip].bucket, at.global, at.served);
      }
    }
  }

  lemma {:induction false} RunsAgree(cfg: Config, created: Instant, calls: seq<Call>, slack: Duration, now: Instant)
    requires TtlCovers(cfg, slack) && InOrder(created, calls, now) && SlackWithin(calls, slack)
    ensures var k := AfterRun(Keeping, cfg, created, calls);
            Agree(cfg, AfterRun(Forgetting, cfg, created, calls), k, now) && AllRestored(cfg, k, slack, now)
  {
    if calls != [] {
      var n := |calls| - 1;
      var e, k := AfterRun(Forgetting, cfg, created, calls[..n]), AfterRun(Keeping, cfg, created, calls[..n]);
      RunsAgree(cfg, created, calls[..n], slack, calls[n].at.global);
      CallKeepsAgreement(cfg, e, k, slack, calls[n]);
      AgreeLater(cfg, AfterRun(Forgetting, cfg, created, calls), AfterRun(Keeping, cfg, created, calls), slack,
                 calls[n].at.served, now);
    }
  }

  lemma AgreeLater(cfg: Config, e: Limiter, k: Limiter, slack: Duration, now: Instant, later: Instant)
    requires Agree(cfg, e, k, now) && AllRestored(cfg, k, slack, now) && now <= later
    ensures Agree(cfg, e, k, later) && AllRestored(cfg, k, slack, later)
  {
    forall ip | ip in k.clients && ip !in e.clients
      ensures FullAt(cfg, k.clients[ip].bucket, later)
    {
      FullStaysFull(cfg, k.clients[ip].bucket, now, later);
    }
  }

  // ---------- runs that can tell ----------

  /** A call whose outcome shows whether the limiter forgets, after a run whose slack stays within `slack`. */
  ghost predicate TellingRun(cfg: Config, slack: Duration, created: Instant, calls: seq<Call>, call: Call) {
    && NextInOrder(created, calls, call) && SlackWithin(calls + [call], slack)
    && OutcomeAfter(Forgetting, cfg, created, calls, call) != OutcomeAfter(Keeping, cfg, created, calls, call)
  }

  /** After no run does any call get another outcome, limit type or wait than from a limiter that never forgets. */
  ghost predicate ForgettingIsInvisible(cfg: Config, slack: Duration) {
    forall created: Instant, calls: seq<Call>, call: Call :: !TellingRun(cfg, slack, created, calls, call)
  }

  /** A client that has expired when its own call cleans up starts from a full bucket. */
  lemma ForgottenStartsFull(cfg: Config, s: Limiter, ip: IpAddr, t: Instant, g: real, c: real)
    requires cfg.perClient && cfg.burstSize >= 1 && Shows(cfg, s, ip, t, g, c) && g >= 1.0
    requires Elapsed(t, s.lastCleanup) >= CLEANUP_INTERVAL && Expired(s.clients[ip], cfg.clientTtl, t)
    ensures var call := Call(Some(ip), AllAt(t));
            var r := AfterCall(Forgetting, cfg, s, call);
            && OutcomeOf(Forgetting, cfg, s, call) == Allowed
            && Shows(cfg, r, ip, t, g - 1.0, Size(cfg) - 1.0) && r.lastCleanup == t
  {
    RefillAtSameInstant(FreshBucket(cfg, t));
    TryTakesOne(cfg, s.global, t, g);
    TryTakesOne(cfg, FreshBucket(cfg, t), t, Size(cfg));
  }

  lemma {:induction false} ForgottenBurst(
    cfg: Config, calls: seq<Call>, ip: IpAddr, t: Instant, n: nat, g: real, c: real)
    requires cfg.perClient && 1 <= n <= cfg.burstSize && g >= n as real
    requires var s := AfterRun(Forgetting, cfg, 0.0, calls);
             Shows(cfg, s, ip, t, g, c)
             && Elapsed(t, s.lastCleanup) >= CLEANUP_INTERVAL && Expired(s.clients[ip], cfg.clientTtl, t)
    ensures var r := AfterRun(Forgetting, cfg, 0.0, calls + Burst(ip, t, n));
            Shows(cfg, r, ip, t, g - n as real, Size(cfg) - n as real) && r.lastCleanup == t
  {
    BurstGrows(Forgetting, cfg, 0.0, calls, ip, t, n);
    var used, before := (n - 1) as real, AfterRun(Forgetting, cfg, 0.0, calls + Burst(ip, t, n - 1));
    if n == 1 {
      assert calls + Burst(ip, t, 0) == calls;
      ForgottenStartsFull(cfg, before, ip, t, g, c);
    } else {
      ForgottenBurst(cfg, calls, ip, t, n - 1, g, c);
      CallDrains(Forgetting, cfg, before, ip, t, g - used, Size(cfg) - used);
    }
  }

  /** Enough calls of an expired client, whose bucket is not full, empty the kept bucket but not the new one. */
  lemma BurstTells(cfg: Config, calls: seq<Call>, ip: IpAddr, t: Instant, g: real, c: real) returns (n: nat)
    requires cfg.perClient && cfg.requestsPerSecond >= 1 && 0.0 <= c < Size(cfg) && g >= Min(1.0 + c, Size(cfg))
    requires var e, k := AfterRun(Forgetting, cfg, 0.0, calls), AfterRun(Keeping, cfg, 0.0, calls);
             && Shows(cfg, e, ip, t, g, c) && Shows(cfg, k, ip, t, g, c)
             && Elapsed(t, e.lastCleanup) >= CLEANUP_INTERVAL && Expired(e.clients[ip], cfg.clientTtl, t)
    ensures var call, more := Call(Some(ip), AllAt(t)), calls + Burst(ip, t, n);
            OutcomeAfter(Forgetting, cfg, 0.0, more, call) != OutcomeAfter(Keeping, cfg, 0.0, more, call)
  {
    n := c.Floor;
    var more := calls + Burst(ip, t, n);
    var e, k, used := AfterRun(Forgetting, cfg, 0.0, more), AfterRun(Keeping, cfg, 0.0, more), n as real;
    assert n < cfg.burstSize && g - used >= 1.0 && c - used < 1.0;
    BurstDrains(Keeping, cfg, 0.0, calls, ip, t, n, g, c);
    OutcomeShown(Keeping, cfg, k, ip, t, g - used, c - used);
    if n == 0 {
      assert more == calls;
      ForgottenStartsFull(cfg, e, ip, t, g, c);
    } else {
      ForgottenBurst(cfg, calls, ip, t, n, g, c);
      OutcomeShown(Forgetting, cfg, e, ip, t, g - used, Size(cfg) - used);
    }
  }

  lemma {:induction false} BurstHasNoSlack(ip: IpAddr, t: Instant, n: nat, slack: Duration)
    requires slack >= 0.0
    ensures SlackWithin(Burst(ip, t, n), slack)
  {
    if n > 0 {
      BurstHasNoSlack(ip, t, n - 1, slack);
    }
  }

  lemma BurstMakesTellingRun(cfg: Config, slack: Duration, calls: seq<Call>, ip: IpAddr, t: Instant, g: real, c: real)
    requires InOrder(0.0, calls, t) && SlackWithin(calls, slack) && slack >= 0.0
    requires cfg.perClient && cfg.requestsPerSecond >= 1 && 0.0 <= c < Size(cfg) && g >= Min(1.0 + c, Size(cfg))
    requires var e, k := AfterRun(Forgetting, cfg, 0.0, calls), AfterRun(Keeping, cfg, 0.0, calls);
             && Shows(cfg, e, ip, t, g, c) && Shows(cfg, k, ip, t, g, c)
             && Elapsed(t, e.lastCleanup) >= CLEANUP_INTERVAL && Expired(e.clients[ip], cfg.clientTtl, t)
    ensures !ForgettingIsInvisible(cfg, slack)
  {
    var n := BurstTells(cfg, calls, ip, t, g, c);
    var more, call := calls + Burst(ip, t, n), Call(Some(ip), AllAt(t));
    BurstInOrder(cfg, 0.0, calls, ip, t, n);
    BurstHasNoSlack(ip, t, n, slack);
    assert NextInOrder(0.0, more, call);
    assert SlackWithin(more + [call], slack);
    assert TellingRun(cfg, slack, 0.0, more, call);
  }

  lemma EarnedGrowsStrictly(rate: real, x: Duration, y: Duration)
    requires rate > 0.0
    ensures x < y <==> Earned(rate, x) < Earned(rate, y)
  {
    if x < y {
      EarnedSplits(rate, y - x, 0.0);
      EarnedSplits(rate, y, x);
    } else {
      EarnedGrows(rate, y, x);
    }
  }

  // A client that is served long after its access is dated, and expires before it has earned one token.

  /** A time after which the slack has used up the time to live and not one token is earned. */
  lemma GapAfterSlack(cfg: Config, slack: Duration) returns (gap: Duration)
    requires cfg.requestsPerSecond >= 1 && Earned(Rate(cfg), cfg.clientTtl - slack) < 1.0
    ensures gap >= 0.0 && gap + slack > cfg.clientTtl && 0.0 <= Earned(Rate(cfg), gap) < 1.0
  {
    var token := InverseRate(cfg);
    EarnedGrowsStrictly(Rate(cfg), cfg.clientTtl - slack, token);
    var least := if cfg.clientTtl <= slack then 0.0 else cfg.clientTtl - slack;
    gap := (least + token) / 2.0;
    EarnedGrowsStrictly(Rate(cfg), gap, token);
    EarnedSplits(Rate(cfg), gap, 0.0);
  }

  lemma SlackUsesUpTtl(cfg: Config, slack: Duration)
    requires cfg.perClient && cfg.burstSize >= 1 && cfg.requestsPerSecond >= 1 && slack >= 0.0
    requires Earned(Rate(cfg), cfg.clientTtl - slack) < 1.0
    ensures !ForgettingIsInvisible(cfg, slack)
  {
    var ip, start: Instant := V4(0), CLEANUP_INTERVAL;
    var gap := GapAfterSlack(cfg, slack);
    var served, t := start + slack, start + slack + gap;
    var first := Call(Some(ip), Readings(0.0, 0.0, 0.0, (ip: IpAddr) => 0.0, start, start, served));
    assert [first] == [] + [first];
    RunExtends(Forgetting, cfg, 0.0, [], first);
    var s := AfterRun(Forgetting, cfg, 0.0, [first]);
    FirstCallTakesOne(Forgetting, cfg, ip, first.at);
    FirstCallTakesOne(Keeping, cfg, ip, first.at);
    RefillAtSameInstant(s.global);
    RefillAtSameInstant(s.clients[ip].bucket);
    HoldsLater(cfg, s.global, 0.0, t, Size(cfg) - 1.0);
    HoldsLater(cfg, s.clients[ip].bucket, served, t, Size(cfg) - 1.0);
    var token := InverseRate(cfg);
    EarnedGrows(Rate(cfg), token, t - 0.0);
    BurstMakesTellingRun(cfg, slack, [first], ip, t, Min(Size(cfg) - 1.0 + Earned(Rate(cfg), t - 0.0), Size(cfg)),
                         Min(Size(cfg) - 1.0 + Earned(Rate(cfg), gap), Size(cfg)));
  }

  // A client that spends its last token as late after its access as the slack allows, and expires before it is full.

  lemma GapBeforeFull(cfg: Config, slack: Duration) returns (late: Duration, gap: Duration)
    requires cfg.requestsPerSecond >= 1 && slack >= 0.0 && Earned(Rate(cfg), cfg.clientTtl - slack) >= 1.0
    requires Earned(Rate(cfg), cfg.clientTtl) - Min(Earned(Rate(cfg), slack), 1.0) < Size(cfg)
    ensures 0.0 <= late <= slack && Earned(Rate(cfg), late) <= 1.0
    ensures gap > 0.0 && gap + late > cfg.clientTtl && 0.0 <= Earned(Rate(cfg), gap) < Size(cfg)
  {
    var rate := Rate(cfg);
    var token := InverseRate(cfg);
    late := if slack <= token then slack else token;
    EarnedGrows(rate, late, token);
    EarnedGrows(rate, token, if slack <= token then token else slack);
    var full := Size(cfg) / rate;
    assert Earned(rate, full) == Size(cfg);
    EarnedSplits(rate, cfg.clientTtl, late);
    EarnedGrowsStrictly(rate, cfg.clientTtl - late, full);
    EarnedGrowsStrictly(rate, 0.0, cfg.clientTtl - slack);
    EarnedSplits(rate, 0.0, 0.0);
    gap := (cfg.clientTtl - late + full) / 2.0;
    EarnedGrowsStrictly(rate, gap, full);
    EarnedSplits(rate, gap, 0.0);
  }

  /** A call at `t` that dates its access at `accessed` and takes the token earned in between at `served`. */
  function LateCall(ip: IpAddr, t: Instant, accessed: Instant, served: Instant): Call {
    Call(Some(ip), Readings(t, t, t, (ip: IpAddr) => t, accessed, accessed, served))
  }

  lemma LateCallTakesLast(
    m: Memory, cfg: Config, s: Limiter, ip: IpAddr, t: Instant, accessed: Instant, served: Instant)
    requires cfg.perClient && cfg.burstSize >= 1 && Shows(cfg, s, ip, t, 1.0, 0.0) && NoCleanupDue(m, s, t)
    requires t <= served && Earned(Rate(cfg), served - t) == 1.0
    ensures var r := AfterCall(m, cfg, s, LateCall(ip, t, accessed, served));
            && Holds(cfg, r.global, t, 0.0)
            && ip in r.clients && Holds(cfg, r.clients[ip].bucket, served, 0.0)
            && r.clients[ip].lastAccess == accessed && r.lastCleanup == s.lastCleanup
  {
    HoldsLater(cfg, s.clients[ip].bucket, t, served, 0.0);
    TryTakesOne(cfg, s.global, t, 1.0);
    TryTakesOne(cfg, s.clients[ip].bucket, served, 1.0);
  }

  /** When the run starts: no cleanup is due until `length` has passed, and one is due then. */
  lemma CleanupJustAfter(length: Duration) returns (t: Instant)
    requires length > 0.0
    ensures 1.0 <= t < CLEANUP_INTERVAL <= t + length
  {
    t := if length >= CLEANUP_INTERVAL - 1.0 then 1.0 else CLEANUP_INTERVAL - length;
  }

  function DrainedLate(cfg: Config, ip: IpAddr, t: Instant, accessed: Instant, served: Instant): seq<Call>
    requires cfg.burstSize >= 1
  {
    Draining(cfg, ip, t) + [LateCall(ip, t, accessed, served)]
  }

  lemma DrainedLateShows(
    m: Memory, cfg: Config, ip: IpAddr, t: Instant, accessed: Instant, served: Instant, later: Instant)
    requires cfg.perClient && cfg.burstSize >= 1 && cfg.requestsPerSecond >= 1 && 1.0 <= t < CLEANUP_INTERVAL
    requires t <= served <= later && Earned(Rate(cfg), served - t) == 1.0
    ensures var s := AfterRun(m, cfg, 0.0, DrainedLate(cfg, ip, t, accessed, served));
            && Shows(cfg, s, ip, later, Min(0.0 + Earned(Rate(cfg), later - t), Size(cfg)),
                     Min(0.0 + Earned(Rate(cfg), later - served), Size(cfg)))
            && s.lastCleanup == 0.0 && s.clients[ip].lastAccess == accessed
  {
    var calls := Draining(cfg, ip, t);
    var token := InverseRate(cfg);
    EarnedGrows(Rate(cfg), token, t);
    DrainingLeaves(m, cfg, ip, t);
    RunExtends(m, cfg, 0.0, calls, LateCall(ip, t, accessed, served));
    LateCallTakesLast(m, cfg, AfterRun(m, cfg, 0.0, calls), ip, t, accessed, served);
    var s := AfterRun(m, cfg, 0.0, DrainedLate(cfg, ip, t, accessed, served));
    HoldsLater(cfg, s.global, t, later, 0.0);
    HoldsLater(cfg, s.clients[ip].bucket, served, later, 0.0);
  }

  lemma DrainedLateInOrder(
    cfg: Config, ip: IpAddr, t: Instant, accessed: Instant, served: Instant, later: Instant)
    requires cfg.burstSize >= 1 && 0.0 <= t <= accessed <= served <= later
    ensures InOrder(0.0, DrainedLate(cfg, ip, t, accessed, served), later)
  {
    var last := LateCall(ip, t, accessed, served);
    DrainingInOrder(cfg, ip, t, t, last);
    assert NextInOrder(0.0, Draining(cfg, ip, t), last);
    RunExtends(Forgetting, cfg, 0.0, Draining(cfg, ip, t), last);
  }

  lemma SlackOfBoth(first: seq<Call>, second: seq<Call>, slack: Duration)
    requires SlackWithin(first, slack) && SlackWithin(second, slack)
    ensures SlackWithin(first + second, slack)
  {
  }

  lemma DrainedLateSlack(
    cfg: Config, ip: IpAddr, t: Instant, accessed: Instant, served: Instant, slack: Duration)
    requires cfg.burstSize >= 1 && 0.0 <= served - accessed <= slack
    ensures SlackWithin(DrainedLate(cfg, ip, t, accessed, served), slack)
  {
    BurstHasNoSlack(ip, t, cfg.burstSize - 1, slack);
    SlackOfBoth([LaggingCall(ip, t)], Burst(ip, t, cfg.burstSize - 1), slack);
    SlackOfBoth(Draining(cfg, ip, t), [LateCall(ip, t, accessed, served)], slack);
  }

  lemma ExpiresBeforeFull(cfg: Config, slack: Duration)
    requires cfg.perClient && cfg.burstSize >= 1 && cfg.requestsPerSecond >= 1 && slack >= 0.0
    requires Earned(Rate(cfg), cfg.clientTtl - slack) >= 1.0
    requires Earned(Rate(cfg), cfg.clientTtl) - Min(Earned(Rate(cfg), slack), 1.0) < Size(cfg)
    ensures !ForgettingIsInvisible(cfg, slack)
  {
    var ip := V4(0);
    var token := InverseRate(cfg);
    var late, gap := GapBeforeFull(cfg, slack);
    EarnedGrowsStrictly(Rate(cfg), token, late);
    var t := CleanupJustAfter(token + gap);
    var served, end := t + token, t + token + gap;
    var accessed := served - late;
    DrainedLateShows(Forgetting, cfg, ip, t, accessed, served, end);
    DrainedLateShows(Keeping, cfg, ip, t, accessed, served, end);
    DrainedLateInOrder(cfg, ip, t, accessed, served, end);
    DrainedLateSlack(cfg, ip, t, accessed, served, slack);
    EarnedSplits(Rate(cfg), token, gap);
    assert end - t == token + gap;
    BurstMakesTellingRun(cfg, slack, DrainedLate(cfg, ip, t, accessed, served), ip, end,
                         Min(0.0 + Earned(Rate(cfg), end - t), Size(cfg)),
                         Min(0.0 + Earned(Rate(cfg), end - served), Size(cfg)));
  }

  // ---------- exactly when ----------

  /** Nobody can tell: clients are never asked, or never limit, or a forgotten bucket was full. */
  lemma NoRunTells(cfg: Config, slack: Duration, created: Instant, calls: seq<Call>, call: Call)
    requires TtlCovers(cfg, slack) || !cfg.perClient || cfg.burstSize == 0 || cfg.requestsPerSecond == 0
    requires NextInOrder(created, calls, call) && SlackWithin(calls + [call], slack)
    ensures OutcomeAfter(Forgetting, cfg, created, calls, call) == OutcomeAfter(Keeping, cfg, created, calls, call)
  {
    if TtlCovers(cfg, slack) {
      assert forall i :: 0 <= i < |calls| ==> calls[i] == (calls + [call])[i];
      assert call == (calls + [call])[|calls|];
      RunsAgree(cfg, created, calls, slack, call.at.global);
      var e, k := AfterRun(Forgetting, cfg, created, calls), AfterRun(Keeping, cfg, created, calls);
      CallKeepsAgreement(cfg, e, k, slack, call);
    } else if cfg.requestsPerSecond == 0 {
      PerClientNeverLimits(Forgetting, cfg, created, calls, call);
      PerClientNeverLimits(Keeping, cfg, created, calls, call);
    } else {
      OutcomeByLevels(Forgetting, cfg, created, calls, call);
      OutcomeByLevels(Keeping, cfg, created, calls, call);
      RunIsCoherent(Forgetting, cfg, created, calls, call.at.global);
    }
  }

  /**
   Forgetting clients changes no outcome, limit type or wait of any call after any run if and only if a forgotten
   bucket must have been full, or client buckets never matter.
   */
  lemma ForgettingIsInvisibleIff(cfg: Config, slack: Duration)
    requires cfg.clientTtl >= 0.0 && slack >= 0.0
    ensures ForgettingIsInvisible(cfg, slack) <==>
            TtlCovers(cfg, slack) || !cfg.perClient || cfg.burstSize == 0 || cfg.requestsPerSecond == 0
  {
    if TtlCovers(cfg, slack) || !cfg.perClient || cfg.burstSize == 0 || cfg.requestsPerSecond == 0 {
      forall created: Instant, calls: seq<Call>, call: Call
        | NextInOrder(created, calls, call) && SlackWithin(calls + [call], slack)
        ensures OutcomeAfter(Forgetting, cfg, created, calls, call) == OutcomeAfter(Keeping, cfg, created, calls, call)
      {
        NoRunTells(cfg, slack, created, calls, call);
      }
    } else if Earned(Rate(cfg), cfg.clientTtl - slack) < 1.0 {
      SlackUsesUpTtl(cfg, slack);
    } else {
      ExpiresBeforeFull(cfg, slack);
    }
  }

  /** Whatever the time to live, forgetting changes no outcome of a client whose lag does not shrink. */
  lemma ForgettingNeverChangesOutcome(cfg: Config, created: Instant, calls: seq<Call>, call: Call)
    requires NextInOrder(created, calls, call) && LagNotShrunk(cfg, created, calls, call)
    ensures OutcomeAfter(Forgetting, cfg, created, calls, call) == OutcomeAfter(Keeping, cfg, created, calls, call)
  {
    PerClientNeverLimits(Forgetting, cfg, created, calls, call);
    PerClientNeverLimits(Keeping, cfg, created, calls, call);
  }

  // ---------- whose calls a client bucket depends on ----------

  /** The readings of the calls of client `ip` that reached its bucket. */
  function OwnReadings(cfg: Config, created: Instant, calls: seq<Call>, ip: IpAddr): seq<Readings> {
    if calls == [] then []
    else
      var n := |calls| - 1;
      var before := OwnReadings(cfg, created, calls[..n], ip);
      if calls[n].client == Some(ip) && Reaches(cfg, created, calls[..n], calls[n])
      then before + [calls[n].at] else before
  }

  function ServedTimes(own: seq<Readings>): (times: seq<Instant>)
    ensures |times| == |own|
  {
    if own == [] then [] else ServedTimes(own[..|own| - 1]) + [own[|own| - 1].served]
  }

  /** The bucket of a client when it was created, by the first of its calls or else by the call in hand. */
  function FirstBucket(cfg: Config, own: seq<Readings>, at: Readings): Bucket {
    FreshBucket(cfg, if own == [] then at.created else own[0].created)
  }

  /** A client bucket that has been asked at the given times and nothing else. */
  function OwnBucket(cfg: Config, own: seq<Readings>, at: Readings): Bucket {
    AfterAll(FirstBucket(cfg, own, at), ServedTimes(own))
  }

  lemma OwnBucketGrows(cfg: Config, own: seq<Readings>, at: Readings, next: Readings)
    ensures OwnBucket(cfg, own + [at], next) == AfterTry(OwnBucket(cfg, own, at), at.served)
  {
    var all := own + [at];
    assert all[..|all| - 1] == own;
    assert ServedTimes(all)[..|all| - 1] == ServedTimes(own);
    assert all[0] == if own == [] then at else own[0];
  }

  /** If nothing is forgotten, a client has an entry exactly when a call of it reached it, made by its calls alone. */
  lemma {:induction false} EntryIsOwnHistory(cfg: Config, created: Instant, calls: seq<Call>, ip: IpAddr, at: Readings)
    requires InOrder(created, calls, at.global)
    ensures var k, own := AfterRun(Keeping, cfg, created, calls), OwnReadings(cfg, created, calls, ip);
            && (ip in k.clients <==> own != [])
            && (own != [] ==> k.clients[ip] == Entry(OwnBucket(cfg, own, at), own[|own| - 1].accessed))
  {
    if calls != [] {
      var n := |calls| - 1;
      var call, before := calls[n], OwnReadings(cfg, created, calls[..n], ip);
      EntryIsOwnHistory(cfg, created, calls[..n], ip, call.at);
      RunIsCoherent(Keeping, cfg, created, calls[..n], call.at.global);
      OwnBucketGrows(cfg, before, call.at, at);
    }
  }

  /** The limiter keeps every client, or forgets none that could tell. */
  predicate Remembers(m: Memory, cfg: Config, calls: seq<Call>, slack: Duration) {
    m == Keeping || (TtlCovers(cfg, slack) && SlackWithin(calls, slack))
  }

  /** Whoever else calls, a client finds the tokens that its own calls leave it. */
  lemma ClientsAreIsolated(
    m: Memory, cfg: Config, created: Instant, calls: seq<Call>, ip: IpAddr, at: Readings, slack: Duration)
    requires InOrder(created, calls, at.global) && at.InOrder() && Remembers(m, cfg, calls, slack)
    ensures ClientLevel(m, cfg, created, calls, ip, at) ==
            Refilled(OwnBucket(cfg, OwnReadings(cfg, created, calls, ip), at), at.served).tokens
  {
    EntryIsOwnHistory(cfg, created, calls, ip, at);
    if m == Forgetting {
      var f := GlobalStage(AfterRun(Forgetting, cfg, created, calls), at);
      var l := GlobalStage(AfterRun(Keeping, cfg, created, calls), at);
      RunsAgree(cfg, created, calls, slack, at.global);
      CleanupKeepsAgreement(cfg, f, l, slack, at);
      AgreeingEntries(cfg, CleanedUp(cfg, f, at), l, slack, ip, at);
    }
  }

  lemma LaterKeepsOrder(times: seq<Instant>, last: Instant, now: Instant)
    requires NonDecreasing(times + [last]) && last <= now
    ensures NonDecreasing(times + [last] + [now])
  {
    var all := times + [last];
    assert forall i :: 0 <= i < |all| ==> all[i] <= all[|all| - 1];
  }

  lemma {:induction false} OwnTimesInOrder(cfg: Config, created: Instant, calls: seq<Call>, ip: IpAddr, at: Readings)
    requires InOrder(created, calls, at.global) && at.InOrder()
    ensures var own := OwnReadings(cfg, created, calls, ip);
            NonDecreasing([FirstBucket(cfg, own, at).lastUpdate] + ServedTimes(own) + [at.served])
  {
    if calls != [] {
      var n := |calls| - 1;
      var call, before := calls[n], OwnReadings(cfg, created, calls[..n], ip);
      if call.client == Some(ip) && Reaches(cfg, created, calls[..n], call) {
        OwnTimesInOrder(cfg, created, calls[..n], ip, call.at);
        OwnTimesGrow(cfg, before, call.at, at);
      } else {
        InOrderLater(created, calls[..n], call.at.global, at.global);
        OwnTimesInOrder(cfg, created, calls[..n], ip, at);
      }
    }
  }

  lemma OwnTimesGrow(cfg: Config, before: seq<Readings>, at: Readings, next: Readings)
    requires NonDecreasing([FirstBucket(cfg, before, at).lastUpdate] + ServedTimes(before) + [at.served])
    requires at.served <= next.served
    ensures var own := before + [at];
            NonDecreasing([FirstBucket(cfg, own, next).lastUpdate] + ServedTimes(own) + [next.served])
  {
    var own, first := before + [at], [FirstBucket(cfg, before, at).lastUpdate];
    assert own[..|own| - 1] == before && own[0] == if before == [] then at else before[0];
    LaterKeepsOrder(first + ServedTimes(before), at.served, next.served);
    assert first + ServedTimes(own) == first + ServedTimes(before) + [at.served];
  }

  /**
   A call is allowed if and only if every window of the calls served so far, whoever made them, and every window of
   its own client's calls stay within burst size + rate * length.
   */
  lemma AllowedIffEveryWindowAllows(
    m: Memory, cfg: Config, created: Instant, calls: seq<Call>, call: Call, slack: Duration)
    requires NextInOrder(created, calls, call) && Remembers(m, cfg, calls, slack)
    ensures OutcomeAfter(m, cfg, created, calls, call) == Allowed <==>
            && EveryWindowAllows(FreshBucket(cfg, created), GlobalHistory(cfg, created, calls), call.at.global)
            && (cfg.perClient && call.client.Some? ==>
                  var own := OwnReadings(cfg, created, calls, call.client.value);
                  var b := FirstBucket(cfg, own, call.at);
                  EveryWindowAllows(b, History(b, ServedTimes(own)), call.at.served))
  {
    OutcomeByLevels(m, cfg, created, calls, call);
    GlobalTimesInOrder(created, calls, call.at.global);
    AcceptsIffEveryWindowAllows(FreshBucket(cfg, created), GlobalTimes(calls), call.at.global);
    if cfg.perClient && call.client.Some? {
      var own := OwnReadings(cfg, created, calls, call.client.value);
      ClientsAreIsolated(m, cfg, created, calls, call.client.value, call.at, slack);
      OwnTimesInOrder(cfg, created, calls, call.client.value, call.at);
      AcceptsIffEveryWindowAllows(FirstBucket(cfg, own, call.at), ServedTimes(own), call.at.served);
    }
  }

  /**
   After a rejection by its own bucket, the next call of a client that the global bucket serves is allowed exactly
   when the reported wait has passed.
   */
  lemma ClientRetryAfterIsExact(
    m: Memory, cfg: Config, created: Instant, calls: seq<Call>, call: Call, next: Call, slack: Duration)
    requires NextInOrder(created, calls + [call], next) && Remembers(m, cfg, calls + [call], slack)
    requires IsLimited(OutcomeAfter(m, cfg, created, calls, call), PerClient) && next.client == call.client
    requires Accepts(GlobalAfter(cfg, created, calls + [call]), next.at.global)
    ensures var wait := OutcomeAfter(m, cfg, created, calls, call).info.retryAfter;
            OutcomeAfter(m, cfg, created, calls + [call], next) == Allowed <==> next.at.served - call.at.served >= wait
  {
    ClientLimitedWait(m, cfg, created, calls, call, slack);
    var ip := call.client.value;
    var b := OwnBucket(cfg, OwnReadings(cfg, created, calls, ip), call.at);
    LevelAfterOwnCall(m, cfg, created, calls, call, next.at, slack);
    OutcomeByLevels(m, cfg, created, calls + [call], next);
    RunExtends(m, cfg, created, calls, call);
    WaitIsExact(b, call.at.served, next.at.served);
    OnlyBurstsAreServed(m, cfg, created, calls + [call], next);
  }

  lemma OnlyBurstsAreServed(m: Memory, cfg: Config, created: Instant, calls: seq<Call>, call: Call)
    requires NextInOrder(created, calls, call) && Accepts(GlobalAfter(cfg, created, calls), call.at.global)
    ensures cfg.burstSize >= 1
  {
    RunIsCoherent(m, cfg, created, calls, call.at.global);
  }

  /** What a client finds after a call of its own that reached its bucket. */
  lemma LevelAfterOwnCall(
    m: Memory, cfg: Config, created: Instant, calls: seq<Call>, call: Call, at: Readings, slack: Duration)
    requires InOrder(created, calls + [call], at.global) && at.InOrder() && Remembers(m, cfg, calls + [call], slack)
    requires call.client.Some? && Reaches(cfg, created, calls, call)
    ensures var b := OwnBucket(cfg, OwnReadings(cfg, created, calls, call.client.value), call.at);
            ClientLevel(m, cfg, created, calls + [call], call.client.value, at) ==
            Refilled(AfterTry(b, call.at.served), at.served).tokens
  {
    ClientsAreIsolated(m, cfg, created, calls + [call], call.client.value, at, slack);
    Extend(calls, call);
    OwnBucketGrows(cfg, OwnReadings(cfg, created, calls, call.client.value), call.at, at);
  }

  /** A call limited by its client reached a bucket without a token, and reports the wait of that bucket. */
  lemma ClientLimitedWait(
    m: Memory, cfg: Config, created: Instant, calls: seq<Call>, call: Call, slack: Duration)
    requires NextInOrder(created, calls, call) && Remembers(m, cfg, calls + [call], slack)
    requires IsLimited(OutcomeAfter(m, cfg, created, calls, call), PerClient)
    ensures call.client.Some? && Reaches(cfg, created, calls, call)
    ensures var b := OwnBucket(cfg, OwnReadings(cfg, created, calls, call.client.value), call.at);
            && InRange(b) && SameShape(b, FreshBucket(cfg, created)) && !Accepts(b, call.at.served)
            && Wait(AfterTry(b, call.at.served)) == Some(OutcomeAfter(m, cfg, created, calls, call).info.retryAfter)
  {
    OutcomeByLevels(m, cfg, created, calls, call);
    var ip := call.client.value;
    var own := OwnReadings(cfg, created, calls, ip);
    assert forall i :: 0 <= i < |calls| ==> calls[i] == (calls + [call])[i];
    ClientsAreIsolated(m, cfg, created, calls, ip, call.at, slack);
    OwnTimesInOrder(cfg, created, calls, ip, call.at);
    BucketShowsLevel(FirstBucket(cfg, own, call.at), ServedTimes(own), call.at.served);
    ClientTrailsByShrinkage(m, cfg, created, calls, ip, call.at);
  }
}
