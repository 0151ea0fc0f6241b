/**
 What whole runs of calls get from the rate limiter: how far the bucket of a client can fall behind the
 global one, which calls are limited, and what a rejected caller can rely on.
 */
module RateLimiterRuns {
  import opened Clock
  import opened TokenBuckets
  import opened RateLimiters
  import opened Wrappers

  datatype Call = Call(client: Option<IpAddr>, at: Readings)

  /** The limiter forgets clients in its cleanups; the one it is compared with keeps every client for ever. */
  datatype Memory = Forgetting | Keeping

  /** The limiter whose client stage a call meets. */
  function Swept(m: Memory, cfg: Config, t: Limiter, at: Readings): Limiter {
    match m
    case Forgetting => CleanedUp(cfg, t, at)
    case Keeping => t
  }

  function AfterCall(m: Memory, cfg: Config, s: Limiter, call: Call): Limiter {
    match m
    case Forgetting => AfterCheck(cfg, s, call.client, call.at)
    case Keeping =>
      var t := GlobalStage(s, call.at);
      if ReachesClient(cfg, s, call.client, call.at) then ClientStage(cfg, t, call.client.value, call.at) else t
  }

  function OutcomeOf(m: Memory, cfg: Config, s: Limiter, call: Call): Outcome {
    match m
    case Forgetting => CheckOutcome(cfg, s, call.client, call.at)
    case Keeping =>
      var t := GlobalStage(s, call.at);
      if !Accepts(s.global, call.at.global) then Limit(Global, t.global)
      else if ReachesClient(cfg, s, call.client, call.at) then ClientOutcome(cfg, t, call.client.value, call.at)
      else Allowed
  }

  /** The limiter created at `created` after the calls. */
  function AfterRun(m: Memory, cfg: Config, created: Instant, calls: seq<Call>): Limiter {
    if calls == [] then Created(cfg, created)
    else
      var n := |calls| - 1;
      AfterCall(m, cfg, AfterRun(m, cfg, created, calls[..n]), calls[n])
  }

  function OutcomeAfter(m: Memory, cfg: Config, created: Instant, calls: seq<Call>, call: Call): Outcome {
    OutcomeOf(m, cfg, AfterRun(m, cfg, created, calls), call)
  }

  /** The clock never goes back: not within a call, nor from one call to the next. */
  ghost predicate InOrder(created: Instant, calls: seq<Call>, now: Instant) {
    if calls == [] then created <= now
    else
      var n := |calls| - 1;
      InOrder(created, calls[..n], calls[n].at.global) && calls[n].at.InOrder() && calls[n].at.served <= now
  }

  ghost predicate NextInOrder(created: Instant, calls: seq<Call>, call: Call) {
    InOrder(created, calls, call.at.global) && call.at.InOrder()
  }

  lemma Extend<T>(s: seq<T>, x: T)
    ensures (s + [x])[..|s + [x]| - 1] == s
  {
  }

  lemma RunExtends(m: Memory, cfg: Config, created: Instant, calls: seq<Call>, call: Call)
    ensures AfterRun(m, cfg, created, calls + [call]) == AfterCall(m, cfg, AfterRun(m, cfg, created, calls), call)
    ensures forall now :: InOrder(created, calls + [call], now) <==>
              NextInOrder(created, calls, call) && call.at.served <= now
  {
    Extend(calls, call);
  }

  // ---------- the global bucket sees nothing but its own history ----------

  function GlobalTimes(calls: seq<Call>): (times: seq<Instant>)
    ensures |times| == |calls|
  {
    if calls == [] then []
    else GlobalTimes(calls[..|calls| - 1]) + [calls[|calls| - 1].at.global]
  }

  function GlobalAfter(cfg: Config, created: Instant, calls: seq<Call>): Bucket {
    AfterAll(FreshBucket(cfg, created), GlobalTimes(calls))
  }

  function GlobalHistory(cfg: Config, created: Instant, calls: seq<Call>): seq<Attempt> {
    History(FreshBucket(cfg, created), GlobalTimes(calls))
  }

  lemma GlobalGrows(cfg: Config, created: Instant, calls: seq<Call>)
    requires calls != []
    ensures var n := |calls| - 1;
            var before, time := calls[..n], calls[n].at.global;
            && GlobalAfter(cfg, created, calls) == AfterTry(GlobalAfter(cfg, created, before), time)
            && GlobalHistory(cfg, created, calls) ==
               GlobalHistory(cfg, created, before) + [Attempt(time, Accepts(GlobalAfter(cfg, created, before), time))]
  {
    var times := GlobalTimes(calls);
    assert times[..|times| - 1] == GlobalTimes(calls[..|calls| - 1]);
  }

  lemma {:induction false} GlobalTimesInOrder(created: Instant, calls: seq<Call>, now: Instant)
    requires InOrder(created, calls, now)
    ensures created <= now && NonDecreasing([created] + GlobalTimes(calls) + [now])
  {
    if calls != [] {
      var n := |calls| - 1;
      var at := calls[n].at;
      GlobalTimesInOrder(created, calls[..n], at.global);
      var front := [created] + GlobalTimes(calls[..n]) + [at.global];
      assert [created] + GlobalTimes(calls) + [now] == front + [now];
      assert forall i :: 0 <= i < |front| ==> front[i] <= front[|front| - 1];
    }
  }

  /** The call gets past the global bucket and is put to the bucket of its client. */
  predicate Reaches(cfg: Config, created: Instant, calls: seq<Call>, call: Call) {
    Accepts(GlobalAfter(cfg, created, calls), call.at.global) && cfg.perClient && call.client.Some?
  }

  /** The longest lag so far of the calls of one client between asking the global bucket and its own. */
  function LongestLag(cfg: Config, created: Instant, calls: seq<Call>, ip: IpAddr): Duration {
    if calls == [] then 0.0
    else
      var n := |calls| - 1;
      var before := LongestLag(cfg, created, calls[..n], ip);
      if calls[n].client == Some(ip) && Reaches(cfg, created, calls[..n], calls[n]) && calls[n].at.Lag() > before
      then calls[n].at.Lag() else before
  }

  type Lags = IpAddr -> Duration

  function LagsOf(cfg: Config, created: Instant, calls: seq<Call>): Lags {
    (ip: IpAddr) => LongestLag(cfg, created, calls, ip)
  }

  // ---------- how far a client can fall behind the global bucket ----------

  predicate SameShape(b: Bucket, c: Bucket) {
    b.capacity == c.capacity && b.refillRate == c.refillRate
  }

  /** Given `lag` more time, the bucket holds no fewer tokens than the global one. */
  ghost predicate KeepsUp(s: Limiter, b: Bucket, lag: Duration) {
    && InRange(b) && SameShape(b, s.global)
    && b.lastUpdate <= s.global.lastUpdate + lag
    && Refilled(b, s.global.lastUpdate + lag).tokens >= s.global.tokens
  }

  ghost predicate Coherent(cfg: Config, s: Limiter, lags: Lags, now: Instant) {
    && InRange(s.global) && SameShape(s.global, FreshBucket(cfg, 0.0))
    && s.global.lastUpdate <= now
    && (forall ip <- s.clients :: KeepsUp(s, s.clients[ip].bucket, lags(ip)))
    && (forall ip <- s.clients :: s.clients[ip].bucket.lastUpdate <= now)
  }

  lemma RefillAtSameInstant(b: Bucket)
    requires InRange(b)
    ensures Refilled(b, b.lastUpdate) == b
  {
  }

  lemma ClientKeepsUp(s: Limiter, b: Bucket, lag: Duration, now: Instant)
    requires InRange(s.global) && KeepsUp(s, b, lag) && s.global.lastUpdate <= now
    ensures Refilled(b, now + lag).tokens >= Refilled(s.global, now).tokens
    ensures KeepsUp(s.(global := AfterTry(s.global, now)), b, lag)
  {
    var mid := s.global.lastUpdate + lag;
    RefillComposes(b, mid, now + lag);
    assert Elapsed(now + lag, mid) == Elapsed(now, s.global.lastUpdate);
  }

  lemma LongerLagKeepsUp(s: Limiter, b: Bucket, lag: Duration, longer: Duration)
    requires KeepsUp(s, b, lag) && lag <= longer
    ensures KeepsUp(s, b, longer)
  {
    var mid := s.global.lastUpdate + lag;
    RefillComposes(b, mid, s.global.lastUpdate + longer);
    RefillStaysInRange(b, mid);
    RefillStaysInRange(Refilled(b, mid), s.global.lastUpdate + longer);
  }

  /** A token taken earlier costs no more than one at `later`. */
  lemma TryCostsOne(b: Bucket, now: Instant, later: Instant)
    requires InRange(b) && b.lastUpdate <= now <= later
    ensures Refilled(AfterTry(b, now), later).tokens >= Refilled(b, later).tokens - 1.0
  {
    RefillComposes(b, now, later);
  }

  lemma ServedClientKeepsUp(s: Limiter, b: Bucket, lag: Duration, at: Readings)
    requires InRange(s.global) && KeepsUp(s, b, lag) && s.global.lastUpdate <= at.global && Accepts(s.global, at.global)
    requires b.lastUpdate <= at.served && at.Lag() <= lag
    ensures KeepsUp(GlobalStage(s, at), AfterTry(b, at.served), lag)
  {
    ClientKeepsUp(s, b, lag, at.global);
    TryCostsOne(b, at.served, at.global + lag);
    RefillStaysInRange(b, at.served);
  }

  lemma NewClientKeepsUp(cfg: Config, s: Limiter, lag: Duration, at: Readings)
    requires InRange(s.global) && SameShape(s.global, FreshBucket(cfg, 0.0))
    requires Accepts(s.global, at.global) && at.created <= at.served && at.Lag() <= lag
    ensures KeepsUp(GlobalStage(s, at), AfterTry(FreshBucket(cfg, at.created), at.served), lag)
  {
    var b, end := FreshBucket(cfg, at.created), at.global + lag;
    RefillStaysInRange(b, at.served);
    RefillStaysInRange(AfterTry(b, at.served), end);
    RefillStaysInRange(s.global, at.global);
    assert AfterTry(b, at.served).tokens == b.capacity - 1.0;
  }

  /** The client stage keeps the limiter coherent, whichever clients were forgotten before it. */
  lemma StageKeepsCoherent(cfg: Config, s: Limiter, u: Limiter, ip: IpAddr, lags: Lags, at: Readings)
    requires Coherent(cfg, s, lags, at.global) && at.InOrder() && at.Lag() <= lags(ip) && Accepts(s.global, at.global)
    requires u.global == AfterTry(s.global, at.global)
    requires forall jp <- u.clients :: jp in s.clients && u.clients[jp] == s.clients[jp]
    ensures Coherent(cfg, ClientStage(cfg, u, ip, at), lags, at.served)
  {
    var r, b := ClientStage(cfg, u, ip, at), EntryOf(cfg, u, ip, at.created).bucket;
    RefillStaysInRange(s.global, at.global);
    if ip in u.clients {
      ServedClientKeepsUp(s, b, lags(ip), at);
    } else {
      NewClientKeepsUp(cfg, s, lags(ip), at);
    }
    assert r.clients[ip].bucket == AfterTry(b, at.served);
    forall jp | jp in r.clients
      ensures KeepsUp(r, r.clients[jp].bucket, lags(jp))
    {
      if jp != ip {
        ClientKeepsUp(s, s.clients[jp].bucket, lags(jp), at.global);
      }
    }
  }

  lemma GlobalStageKeepsCoherent(cfg: Config, s: Limiter, lags: Lags, at: Readings)
    requires Coherent(cfg, s, lags, at.global) && at.InOrder()
    ensures Coherent(cfg, GlobalStage(s, at), lags, at.served)
  {
    RefillStaysInRange(s.global, at.global);
    forall ip | ip in s.clients
      ensures KeepsUp(GlobalStage(s, at), s.clients[ip].bucket, lags(ip))
    {
      ClientKeepsUp(s, s.clients[ip].bucket, lags(ip), at.global);
    }
  }

  lemma LongerLagsKeepCoherent(cfg: Config, s: Limiter, lags: Lags, longer: Lags, now: Instant)
    requires Coherent(cfg, s, lags, now) && forall ip :: lags(ip) <= longer(ip)
    ensures Coherent(cfg, s, longer, now)
  {
    forall ip | ip in s.clients
      ensures KeepsUp(s, s.clients[ip].bucket, longer(ip))
    {
      LongerLagKeepsUp(s, s.clients[ip].bucket, lags(ip), longer(ip));
    }
  }

  lemma {:induction false} RunIsCoherent(m: Memory, cfg: Config, created: Instant, calls: seq<Call>, now: Instant)
    requires InOrder(created, calls, now)
    ensures var s := AfterRun(m, cfg, created, calls);
            Coherent(cfg, s, LagsOf(cfg, created, calls), now) && s.global == GlobalAfter(cfg, created, calls)
  {
    if calls != [] {
      var n := |calls| - 1;
      var call, lags := calls[n], LagsOf(cfg, created, calls);
      var s := AfterRun(m, cfg, created, calls[..n]);
      RunIsCoherent(m, cfg, created, calls[..n], call.at.global);
      LongerLagsKeepCoherent(cfg, s, LagsOf(cfg, created, calls[..n]), lags, call.at.global);
      GlobalGrows(cfg, created, calls);
      if Reaches(cfg, created, calls[..n], call) {
        StageKeepsCoherent(cfg, s, Swept(m, cfg, GlobalStage(s, call.at), call.at), call.client.value, lags, call.at);
      } else {
        GlobalStageKeepsCoherent(cfg, s, lags, call.at);
      }
    }
  }

  /** The bucket a call for client `ip` is put to. */
  function ClientBucket(m: Memory, cfg: Config, created: Instant, calls: seq<Call>, ip: IpAddr, at: Readings): Bucket {
    EntryOf(cfg, Swept(m, cfg, GlobalStage(AfterRun(m, cfg, created, calls), at), at), ip, at.created).bucket
  }

  /** The tokens it holds when it is asked. */
  function ClientLevel(m: Memory, cfg: Config, created: Instant, calls: seq<Call>, ip: IpAddr, at: Readings): real {
    Refilled(ClientBucket(m, cfg, created, calls, ip, at), at.served).tokens
  }

  function GlobalLevel(cfg: Config, created: Instant, calls: seq<Call>, at: Readings): real {
    Refilled(GlobalAfter(cfg, created, calls), at.global).tokens
  }

  /** How much shorter the lag of a call is than the longest one of its client before it. */
  function Shrinkage(cfg: Config, created: Instant, calls: seq<Call>, ip: IpAddr, at: Readings): Duration {
    var longest := LongestLag(cfg, created, calls, ip);
    if at.Lag() < longest then longest - at.Lag() else 0.0
  }

  lemma LevelAfterShorterLag(b: Bucket, served: Instant, later: Instant)
    requires InRange(b) && b.lastUpdate <= served
    ensures later >= served ==>
              Refilled(b, served).tokens >= Refilled(b, later).tokens - Earned(b.refillRate, later - served)
    ensures b.lastUpdate <= later <= served ==> Refilled(b, served).tokens >= Refilled(b, later).tokens
    ensures InRange(Refilled(b, served))
  {
    RefillStaysInRange(b, served);
    if later >= served {
      RefillComposes(b, served, later);
    } else if b.lastUpdate <= later {
      RefillComposes(b, later, served);
      RefillStaysInRange(b, later);
      RefillStaysInRange(Refilled(b, later), served);
    }
  }

  /**
   A client bucket is behind the global one by no more than the tokens of the time by which the lag between
   asking the two has shrunk for its client.
   */
  lemma ClientTrailsByShrinkage(m: Memory, cfg: Config, created: Instant, calls: seq<Call>, ip: IpAddr, at: Readings)
    requires InOrder(created, calls, at.global) && at.InOrder()
    ensures var behind := Earned(cfg.requestsPerSecond as real, Shrinkage(cfg, created, calls, ip, at));
            && ClientLevel(m, cfg, created, calls, ip, at) >= GlobalLevel(cfg, created, calls, at) - behind
            && SameShape(ClientBucket(m, cfg, created, calls, ip, at), FreshBucket(cfg, created))
            && 0.0 <= ClientLevel(m, cfg, created, calls, ip, at) <= cfg.burstSize as real
  {
    var s, lag := AfterRun(m, cfg, created, calls), LongestLag(cfg, created, calls, ip);
    var b := ClientBucket(m, cfg, created, calls, ip, at);
    RunIsCoherent(m, cfg, created, calls, at.global);
    RefillStaysInRange(s.global, at.global);
    assert Earned(cfg.requestsPerSecond as real, Shrinkage(cfg, created, calls, ip, at)) >= 0.0;
    if ip in Swept(m, cfg, GlobalStage(s, at), at).clients {
      ClientKeepsUp(s, b, lag, at.global);
      LevelAfterShorterLag(b, at.served, at.global + lag);
    } else {
      RefillStaysInRange(b, at.served);
    }
  }

  /** A call is allowed when both its buckets have a token, and stopped by the first that has none. */
  lemma OutcomeByLevels(m: Memory, cfg: Config, created: Instant, calls: seq<Call>, call: Call)
    requires NextInOrder(created, calls, call)
    ensures var at := call.at;
            OutcomeAfter(m, cfg, created, calls, call) ==
            if GlobalLevel(cfg, created, calls, at) < 1.0
            then Limit(Global, AfterTry(GlobalAfter(cfg, created, calls), at.global))
            else if cfg.perClient && call.client.Some?
                    && ClientLevel(m, cfg, created, calls, call.client.value, at) < 1.0
            then Limit(PerClient, AfterTry(ClientBucket(m, cfg, created, calls, call.client.value, at), at.served))
            else Allowed
  {
    RunIsCoherent(m, cfg, created, calls, call.at.global);
  }

  /** The client of the call has never before been asked for longer after the global bucket. */
  predicate LagNotShrunk(cfg: Config, created: Instant, calls: seq<Call>, call: Call) {
    call.client.Some? ==> call.at.Lag() >= LongestLag(cfg, created, calls, call.client.value)
  }

  /**
   As long as the lag between asking the two buckets does not shrink for a client, and always with a rate of zero, no
   call of it is limited by its own bucket: that has the same capacity and rate as the global one and is only asked
   when that one has served.
   */
  lemma PerClientNeverLimits(m: Memory, cfg: Config, created: Instant, calls: seq<Call>, call: Call)
    requires NextInOrder(created, calls, call)
    requires cfg.requestsPerSecond == 0 || LagNotShrunk(cfg, created, calls, call)
    ensures var b := GlobalAfter(cfg, created, calls);
            OutcomeAfter(m, cfg, created, calls, call) ==
            if Accepts(b, call.at.global) then Allowed else Limit(Global, AfterTry(b, call.at.global))
  {
    OutcomeByLevels(m, cfg, created, calls, call);
    if call.client.Some? {
      ClientTrailsByShrinkage(m, cfg, created, calls, call.client.value, call.at);
    }
  }

  predicate IsLimited(o: Outcome, kind: LimitType) {
    o.Limited? && o.info.limitType == kind
  }

  // ---------- what the calls of a run take and get ----------

  function Outcomes(m: Memory, cfg: Config, created: Instant, calls: seq<Call>): (o: seq<Outcome>)
    ensures |o| == |calls|
  {
    if calls == [] then []
    else
      var n := |calls| - 1;
      Outcomes(m, cfg, created, calls[..n]) + [OutcomeAfter(m, cfg, created, calls[..n], calls[n])]
  }

  function AllowedCount(o: seq<Outcome>): nat {
    if o == [] then 0 else AllowedCount(o[..|o| - 1]) + if o[|o| - 1] == Allowed then 1 else 0
  }

  function ClientLimitedCount(o: seq<Outcome>): nat {
    if o == [] then 0 else ClientLimitedCount(o[..|o| - 1]) + if IsLimited(o[|o| - 1], PerClient) then 1 else 0
  }

  lemma PastGlobalBucket(m: Memory, cfg: Config, created: Instant, calls: seq<Call>, call: Call)
    requires NextInOrder(created, calls, call)
    ensures var o := OutcomeAfter(m, cfg, created, calls, call);
            Accepts(GlobalAfter(cfg, created, calls), call.at.global) <==> o == Allowed || IsLimited(o, PerClient)
  {
    OutcomeByLevels(m, cfg, created, calls, call);
    if cfg.requestsPerSecond == 0 {
      PerClientNeverLimits(m, cfg, created, calls, call);
    } else if call.client.Some? {
      ClientTrailsByShrinkage(m, cfg, created, calls, call.client.value, call.at);
    }
  }

  /** Every token of the global bucket goes to a call that is allowed or limited by the bucket of its client. */
  lemma {:induction false} TokensAreAccountedFor(
    m: Memory, cfg: Config, created: Instant, calls: seq<Call>, now: Instant)
    requires InOrder(created, calls, now)
    ensures var o := Outcomes(m, cfg, created, calls);
            Accepted(GlobalHistory(cfg, created, calls)) == AllowedCount(o) + ClientLimitedCount(o)
  {
    if calls != [] {
      var n := |calls| - 1;
      var before, call := calls[..n], calls[n];
      var a := Attempt(call.at.global, Accepts(GlobalAfter(cfg, created, before), call.at.global));
      TokensAreAccountedFor(m, cfg, created, before, call.at.global);
      GlobalGrows(cfg, created, calls);
      PastGlobalBucket(m, cfg, created, before, call);
      Extend(GlobalHistory(cfg, created, before), a);
      Extend(Outcomes(m, cfg, created, before), OutcomeAfter(m, cfg, created, before, call));
    }
  }

  /** The run as its callers see it: when each asked, and whether it was allowed. */
  function Seen(m: Memory, cfg: Config, created: Instant, calls: seq<Call>): seq<Attempt> {
    if calls == [] then []
    else
      var n := |calls| - 1;
      Seen(m, cfg, created, calls[..n])
      + [Attempt(calls[n].at.global, OutcomeAfter(m, cfg, created, calls[..n], calls[n]) == Allowed)]
  }

  lemma {:induction false} SeenIsServed(
    m: Memory, cfg: Config, created: Instant, calls: seq<Call>, now: Instant, from: Instant, to: Instant)
    requires InOrder(created, calls, now)
    ensures AcceptedIn(Seen(m, cfg, created, calls), from, to) <=
            AcceptedIn(GlobalHistory(cfg, created, calls), from, to)
  {
    if calls != [] {
      var n := |calls| - 1;
      var call := calls[n];
      SeenIsServed(m, cfg, created, calls[..n], call.at.global, from, to);
      GlobalGrows(cfg, created, calls);
      OutcomeByLevels(m, cfg, created, calls[..n], call);
      Extend(Seen(m, cfg, created, calls[..n]),
             Attempt(call.at.global, OutcomeAfter(m, cfg, created, calls[..n], call) == Allowed));
      Extend(GlobalHistory(cfg, created, calls[..n]),
             Attempt(call.at.global, Accepts(GlobalAfter(cfg, created, calls[..n]), call.at.global)));
    }
  }

  lemma FewerStayWithinLimit(cfg: Config, created: Instant, n: nat, served: nat, from: Instant, to: Instant)
    requires n <= served && WithinLimit(FreshBucket(cfg, created), served, from, to)
    ensures n as real <= cfg.burstSize as real + cfg.requestsPerSecond as real * (to - from)
  {
  }

  /** Whatever the clock readings, no window of time sees more than burst size + rate * length calls allowed. */
  lemma AllowedWithinLimit(
    m: Memory, cfg: Config, created: Instant, calls: seq<Call>, now: Instant, from: Instant, to: Instant)
    requires InOrder(created, calls, now) && from <= to
    ensures AcceptedIn(Seen(m, cfg, created, calls), from, to) as real
            <= cfg.burstSize as real + cfg.requestsPerSecond as real * (to - from)
  {
    var served := AcceptedIn(GlobalHistory(cfg, created, calls), from, to);
    GlobalTimesInOrder(created, calls, now);
    var all := [created] + GlobalTimes(calls) + [now];
    assert [created] + GlobalTimes(calls) == all[..|all| - 1];
    EveryWindowWithinLimit(FreshBucket(cfg, created), GlobalTimes(calls));
    assert WithinLimit(FreshBucket(cfg, created), served, from, to);
    SeenIsServed(m, cfg, created, calls, now, from, to);
    FewerStayWithinLimit(cfg, created, AcceptedIn(Seen(m, cfg, created, calls), from, to), served, from, to);
  }

  // ---------- a rate of zero ----------

  lemma {:induction false} WithoutRefill(b: Bucket, burst: nat, times: seq<Instant>)
    requires b.refillRate == 0.0 && b.tokens == b.capacity == burst as real
    ensures var r := AfterAll(b, times);
            && r.refillRate == 0.0 && r.capacity == b.capacity
            && r.tokens == (if |times| <= burst then burst - |times| else 0) as real
  {
    if times != [] {
      var n := |times| - 1;
      WithoutRefill(b, burst, times[..n]);
      var r := AfterAll(b, times[..n]);
      assert Earned(r.refillRate, Elapsed(times[n], r.lastUpdate)) == 0.0;
    }
  }

  /** With a rate of zero every call after the burst panics, and with any other no call does. */
  lemma PanicsIffRateIsZero(m: Memory, cfg: Config, created: Instant, calls: seq<Call>, call: Call)
    requires NextInOrder(created, calls, call)
    ensures OutcomeAfter(m, cfg, created, calls, call) == Panicked <==>
            cfg.requestsPerSecond == 0 && |calls| >= cfg.burstSize
  {
    var b := GlobalAfter(cfg, created, calls);
    OutcomeByLevels(m, cfg, created, calls, call);
    RunIsCoherent(m, cfg, created, calls, call.at.global);
    if cfg.requestsPerSecond == 0 {
      PerClientNeverLimits(m, cfg, created, calls, call);
      WithoutRefill(FreshBucket(cfg, created), cfg.burstSize, GlobalTimes(calls));
      assert Earned(b.refillRate, Elapsed(call.at.global, b.lastUpdate)) == 0.0;
    } else if call.client.Some? {
      ClientTrailsByShrinkage(m, cfg, created, calls, call.client.value, call.at);
    }
  }

  // ---------- what a rejected caller can rely on ----------

  /**
   After a rejection by the global bucket, the next call gets past that bucket exactly when the reported
   wait has passed and the burst size allows any request at all.
   */
  lemma RetryAfterIsExact(m: Memory, cfg: Config, created: Instant, calls: seq<Call>, call: Call, next: Call)
    requires NextInOrder(created, calls + [call], next)
    requires IsLimited(OutcomeAfter(m, cfg, created, calls, call), Global)
    ensures var wait := OutcomeAfter(m, cfg, created, calls, call).info.retryAfter;
            IsLimited(OutcomeAfter(m, cfg, created, calls + [call], next), Global) <==>
            cfg.burstSize == 0 || next.at.global - call.at.global < wait
  {
    RunExtends(m, cfg, created, calls, call);
    RunIsCoherent(m, cfg, created, calls, call.at.global);
    OutcomeByLevels(m, cfg, created, calls, call);
    OutcomeByLevels(m, cfg, created, calls + [call], next);
    GlobalGrows(cfg, created, calls + [call]);
    Extend(calls, call);
    WaitIsExact(GlobalAfter(cfg, created, calls), call.at.global, next.at.global);
  }

  lemma AtMostOneSecond(rate: real, tokens: real)
    requires rate >= 1.0 && 0.0 <= tokens < 1.0
    ensures 0.0 < (1.0 - tokens) / rate <= 1.0
  {
    var wait := (1.0 - tokens) / rate;
    assert wait * rate == 1.0 - tokens;
    assert (1.0 - wait) * rate == rate - (1.0 - tokens);
  }

  /** The `Retry-After` header never under-reports the wait; in fact it always says one second. */
  lemma RetryAfterHeaderSuffices(m: Memory, cfg: Config, created: Instant, calls: seq<Call>, call: Call)
    requires NextInOrder(created, calls, call)
    requires OutcomeAfter(m, cfg, created, calls, call).Limited?
    ensures var info := OutcomeAfter(m, cfg, created, calls, call).info;
            info.RetryAfterSecs() == 1 && 0.0 < info.retryAfter <= 1.0 && info.remaining == 0
  {
    OutcomeByLevels(m, cfg, created, calls, call);
    RunIsCoherent(m, cfg, created, calls, call.at.global);
    var b := GlobalAfter(cfg, created, calls);
    RefillStaysInRange(b, call.at.global);
    if Accepts(b, call.at.global) {
      ClientTrailsByShrinkage(m, cfg, created, calls, call.client.value, call.at);
      var c := ClientBucket(m, cfg, created, calls, call.client.value, call.at);
      AtMostOneSecond(c.refillRate, AfterTry(c, call.at.served).tokens);
    } else {
      AtMostOneSecond(b.refillRate, AfterTry(b, call.at.global).tokens);
    }
  }

  // ---------- what a cleanup forgets ----------

  /** When the latest cleanup of the run was dated: a call that reaches its client cleans up after 60 seconds. */
  function LatestCleanup(cfg: Config, created: Instant, calls: seq<Call>): Instant {
    if calls == [] then created
    else
      var n := |calls| - 1;
      var before := LatestCleanup(cfg, created, calls[..n]);
      if Reaches(cfg, created, calls[..n], calls[n]) && calls[n].at.due - before >= 60.0 then calls[n].at.stamp
      else before
  }

  lemma {:induction false} CleanupClockIsLatest(cfg: Config, created: Instant, calls: seq<Call>, now: Instant)
    requires InOrder(created, calls, now)
    ensures var s := AfterRun(Forgetting, cfg, created, calls);
            && s.lastCleanup == LatestCleanup(cfg, created, calls) <= now
            && (forall ip <- s.clients :: s.clients[ip].lastAccess <= now)
  {
    if calls != [] {
      var n := |calls| - 1;
      CleanupClockIsLatest(cfg, created, calls[..n], calls[n].at.global);
      RunIsCoherent(Forgetting, cfg, created, calls[..n], calls[n].at.global);
    }
  }

  /** The entry stays in place after a call that finds the latest cleanup dated `latest`. */
  predicate StaysInPlace(cfg: Config, latest: Instant, e: Entry, ip: IpAddr, at: Readings) {
    at.due - latest < 60.0 || at.sweep(ip) - e.lastAccess <= cfg.clientTtl
  }

  /**
   After any run, a call that reaches its client within 60 seconds of the latest cleanup forgets nobody; after that it
   forgets exactly the clients last seen longer ago than the time to live.  The entry of its own client is
   continued if it was kept, and else started anew; the other kept ones are as they were.
   */
  lemma CleanupForgetsExactly(cfg: Config, created: Instant, calls: seq<Call>, call: Call)
    requires NextInOrder(created, calls, call) && Reaches(cfg, created, calls, call)
    ensures var s, r := AfterRun(Forgetting, cfg, created, calls), AfterRun(Forgetting, cfg, created, calls + [call]);
            var latest, own, at := LatestCleanup(cfg, created, calls), call.client.value, call.at;
            && r.lastCleanup == (if at.due - latest >= 60.0 then at.stamp else latest)
            && (forall ip :: ip in r.clients && ip != own ==> ip in s.clients && r.clients[ip] == s.clients[ip])
            && (forall ip :: ip in s.clients && ip != own ==>
                  (ip in r.clients <==> StaysInPlace(cfg, latest, s.clients[ip], ip, at)))
            && own in r.clients && r.clients[own].lastAccess == at.accessed
            && r.clients[own].bucket ==
               AfterTry(if own in s.clients && StaysInPlace(cfg, latest, s.clients[own], own, at)
                        then s.clients[own].bucket
                        else Bucket(cfg.burstSize as real, cfg.burstSize as real, cfg.requestsPerSecond as real,
                                    at.created),
                        at.served)
  {
    var s := AfterRun(Forgetting, cfg, created, calls);
    RunExtends(Forgetting, cfg, created, calls, call);
    CleanupClockIsLatest(cfg, created, calls, call.at.global);
    RunIsCoherent(Forgetting, cfg, created, calls, call.at.global);
    forall ip | ip in s.clients
      ensures Elapsed(call.at.sweep(ip), s.clients[ip].lastAccess) == call.at.sweep(ip) - s.clients[ip].lastAccess
    {
      assert call.at.stamp <= call.at.sweep(ip);
    }
  }

  // ---------- what a call leaves alone ----------

  lemma RejectionOnlyRefills(m: Memory, cfg: Config, s: Limiter, rejected: Call, next: Call)
    requires InRange(s.global) && s.global.lastUpdate <= rejected.at.global <= next.at.global
    requires !Accepts(s.global, rejected.at.global)
    ensures var t := AfterCall(m, cfg, s, rejected);
            && AfterCall(m, cfg, t, next) == AfterCall(m, cfg, s, next)
            && OutcomeOf(m, cfg, t, next) == OutcomeOf(m, cfg, s, next)
  {
    RefillComposes(s.global, rejected.at.global, next.at.global);
    var t := AfterCall(m, cfg, s, rejected);
    assert GlobalStage(t, next.at) == GlobalStage(s, next.at);
  }

  /**
   A call rejected by the global bucket leaves no trace: dropped from the run, it changes neither an outcome
   nor the limiter after any later call.
   */
  lemma {:induction false} GlobalRejectionLeavesNoTrace(
    m: Memory, cfg: Config, created: Instant, calls: seq<Call>, rejected: Call, more: seq<Call>, next: Call)
    requires NextInOrder(created, calls + [rejected] + more, next)
    requires !Accepts(GlobalAfter(cfg, created, calls), rejected.at.global)
    ensures var s, t := AfterRun(m, cfg, created, calls + [rejected] + more), AfterRun(m, cfg, created, calls + more);
            && OutcomeOf(m, cfg, s, next) == OutcomeOf(m, cfg, t, next)
            && AfterCall(m, cfg, s, next) == AfterCall(m, cfg, t, next)
  {
    var s, t := AfterRun(m, cfg, created, calls + [rejected] + more), AfterRun(m, cfg, created, calls + more);
    if more == [] {
      assert calls + [rejected] + more == calls + [rejected] && calls + more == calls;
      RunExtends(m, cfg, created, calls, rejected);
      RunIsCoherent(m, cfg, created, calls, rejected.at.global);
      RejectionOnlyRefills(m, cfg, t, rejected, next);
    } else {
      var n := |more| - 1;
      assert calls + [rejected] + more == (calls + [rejected] + more[..n]) + [more[n]];
      assert calls + more == (calls + more[..n]) + [more[n]];
      RunExtends(m, cfg, created, calls + [rejected] + more[..n], more[n]);
      RunExtends(m, cfg, created, calls + more[..n], more[n]);
      GlobalRejectionLeavesNoTrace(m, cfg, created, calls, rejected, more[..n], more[n]);
    }
  }

  /** The call reaches its client by way of a due cleanup that finds the entry of client `ip` expired. */
  predicate ForgetsAt(cfg: Config, s: Limiter, call: Call, ip: IpAddr, e: Entry) {
    && ReachesClient(cfg, s, call.client, call.at)
    && Elapsed(call.at.due, s.lastCleanup) >= CLEANUP_INTERVAL
    && Expired(e, cfg.clientTtl, call.at.sweep(ip))
  }

  ghost predicate ForgottenIn(
    cfg: Config, created: Instant, calls: seq<Call>, more: seq<Call>, ip: IpAddr, e: Entry)
  {
    exists j: nat :: j < |more| && ForgetsAt(cfg, AfterRun(Forgetting, cfg, created, calls + more[..j]), more[j], ip, e)
  }

  lemma OtherCallOnlyForgets(cfg: Config, s: Limiter, call: Call, ip: IpAddr)
    requires call.client != Some(ip)
    ensures var r := AfterCall(Forgetting, cfg, s, call);
            && (ip in r.clients ==> ip in s.clients && r.clients[ip] == s.clients[ip])
            && (ip in s.clients && ip !in r.clients ==> ForgetsAt(cfg, s, call, ip, s.clients[ip]))
  {
  }

  lemma ForgottenLater(cfg: Config, created: Instant, calls: seq<Call>, more: seq<Call>, ip: IpAddr, e: Entry)
    requires more != [] && ForgottenIn(cfg, created, calls, more[..|more| - 1], ip, e)
    ensures ForgottenIn(cfg, created, calls, more, ip, e)
  {
    var front := more[..|more| - 1];
    var j: nat :| j < |front|
                  && ForgetsAt(cfg, AfterRun(Forgetting, cfg, created, calls + front[..j]), front[j], ip, e);
    assert front[..j] == more[..j] && front[j] == more[j];
  }

  /** Calls for other clients leave the entry of a client as it is, unless a due cleanup finds it expired. */
  lemma {:induction false} OthersOnlyForget(
    cfg: Config, created: Instant, calls: seq<Call>, more: seq<Call>, ip: IpAddr)
    requires forall j :: 0 <= j < |more| ==> more[j].client != Some(ip)
    ensures var s, r := AfterRun(Forgetting, cfg, created, calls), AfterRun(Forgetting, cfg, created, calls + more);
            && (ip in r.clients ==> ip in s.clients && r.clients[ip] == s.clients[ip])
            && (ip in s.clients && ip !in r.clients ==> ForgottenIn(cfg, created, calls, more, ip, s.clients[ip]))
  {
    if more == [] {
      assert calls + more == calls;
    } else {
      var n: nat := |more| - 1;
      var s, mid := AfterRun(Forgetting, cfg, created, calls), AfterRun(Forgetting, cfg, created, calls + more[..n]);
      OthersOnlyForget(cfg, created, calls, more[..n], ip);
      assert calls + more == (calls + more[..n]) + [more[n]];
      RunExtends(Forgetting, cfg, created, calls + more[..n], more[n]);
      OtherCallOnlyForgets(cfg, mid, more[n], ip);
      if ip in s.clients && ip !in mid.clients {
        ForgottenLater(cfg, created, calls, more, ip, s.clients[ip]);
      }
    }
  }
}
