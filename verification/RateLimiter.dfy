/**
 The rate limiter: one global bucket, one bucket for each client created on demand, and a periodic
 cleanup that forgets clients not seen for a while.
 */
module RateLimiters {
  import opened Clock
  import opened TokenBuckets
  import opened Wrappers

  datatype Config = Config(requestsPerSecond: nat, burstSize: nat, perClient: bool, clientTtl: Duration)

  const CLEANUP_INTERVAL: Duration := 60.0

  datatype LimitType = Global | PerClient

  datatype RateLimitInfo = RateLimitInfo(limitType: LimitType, retryAfter: Duration, remaining: nat) {
    /** The value of the `Retry-After` header (RFC 9110, section 10.2.3). */
    function RetryAfterSecs(): (secs: int)
      ensures retryAfter < 1.0 ==> secs == 1
      ensures retryAfter >= 1.0 ==> 1 <= secs && secs as real <= retryAfter < secs as real + 1.0
    {
      var secs := retryAfter.Floor;
      if secs >= 1 then secs else 1
    }
  }

  /** A rejection whose wait is no duration, as with a zero rate, is a panic. */
  datatype Outcome = Allowed | Limited(info: RateLimitInfo) | Panicked

  /**
   The clock readings of one call, in the order in which it takes them: refilling the global bucket; testing
   whether a cleanup is due; dating the cleanup; testing each entry; creating a bucket; dating the access;
   refilling the bucket of the client.  A call that stops early does not use the later ones.
   */
  datatype Readings = Readings(
    global: Instant,
    due: Instant,
    stamp: Instant,
    sweep: IpAddr -> Instant,
    created: Instant,
    accessed: Instant,
    served: Instant)
  {
    ghost predicate InOrder() {
      && global <= due <= stamp <= created <= accessed <= served
      && (forall ip: IpAddr :: stamp <= sweep(ip) <= created)
    }

    /** How much later the call asks the bucket of its client than the global one. */
    function Lag(): Duration {
      served - global
    }

    /** How much later the call refills the bucket of its client than it dates the access. */
    function Slack(): Duration {
      served - accessed
    }
  }

  // ---------- what one call does, on values ----------

  datatype Entry = Entry(bucket: Bucket, lastAccess: Instant)

  datatype Limiter = Limiter(global: Bucket, clients: map<IpAddr, Entry>, lastCleanup: Instant)

  function FreshBucket(cfg: Config, now: Instant): Bucket {
    Fresh(cfg.burstSize as real, cfg.requestsPerSecond as real, now)
  }

  function Created(cfg: Config, now: Instant): Limiter {
    Limiter(FreshBucket(cfg, now), map[], now)
  }

  predicate Expired(e: Entry, ttl: Duration, now: Instant) {
    Elapsed(now, e.lastAccess) > ttl
  }

  function Retained(cfg: Config, clients: map<IpAddr, Entry>, sweep: IpAddr -> Instant): map<IpAddr, Entry> {
    map ip | ip in clients && !Expired(clients[ip], cfg.clientTtl, sweep(ip)) :: clients[ip]
  }

  function CleanedUp(cfg: Config, s: Limiter, at: Readings): Limiter {
    if Elapsed(at.due, s.lastCleanup) < CLEANUP_INTERVAL then s
    else s.(lastCleanup := at.stamp, clients := Retained(cfg, s.clients, at.sweep))
  }

  function EntryOf(cfg: Config, s: Limiter, ip: IpAddr, created: Instant): Entry {
    if ip in s.clients then s.clients[ip] else Entry(FreshBucket(cfg, created), created)
  }

  /** The client stage of a call, after any cleanup. */
  function ClientStage(cfg: Config, s: Limiter, ip: IpAddr, at: Readings): Limiter {
    var b := EntryOf(cfg, s, ip, at.created).bucket;
    s.(clients := s.clients[ip := Entry(AfterTry(b, at.served), at.accessed)])
  }

  function Limit(kind: LimitType, b: Bucket): Outcome {
    match Wait(b)
    case Some(wait) => Limited(RateLimitInfo(kind, wait, 0))
    case None => Panicked
  }

  function ClientOutcome(cfg: Config, s: Limiter, ip: IpAddr, at: Readings): Outcome {
    var b := EntryOf(cfg, s, ip, at.created).bucket;
    if Accepts(b, at.served) then Allowed else Limit(PerClient, AfterTry(b, at.served))
  }

  function GlobalStage(s: Limiter, at: Readings): Limiter {
    s.(global := AfterTry(s.global, at.global))
  }

  /** The call gets past the global bucket and is then put to the bucket of its client. */
  predicate ReachesClient(cfg: Config, s: Limiter, client: Option<IpAddr>, at: Readings) {
    Accepts(s.global, at.global) && cfg.perClient && client.Some?
  }

  function AfterCheck(cfg: Config, s: Limiter, client: Option<IpAddr>, at: Readings): Limiter {
    var t := GlobalStage(s, at);
    if ReachesClient(cfg, s, client, at) then ClientStage(cfg, CleanedUp(cfg, t, at), client.value, at) else t
  }

  function CheckOutcome(cfg: Config, s: Limiter, client: Option<IpAddr>, at: Readings): Outcome {
    var t := GlobalStage(s, at);
    if !Accepts(s.global, at.global) then Limit(Global, t.global)
    else if ReachesClient(cfg, s, client, at) then ClientOutcome(cfg, CleanedUp(cfg, t, at), client.value, at)
    else Allowed
  }

  // ---------- the objects ----------

  class ClientEntry {
    const bucket: TokenBucket
    var lastAccess: Instant

    ghost function View(): Entry
      reads this, bucket
    {
      Entry(bucket.View(), lastAccess)
    }

    /** This entry and its bucket belong to client `ip`. */
    ghost predicate BelongsTo(ip: IpAddr) {
      owner == ip && bucket.owner == Some(ip)
    }

    ghost const owner: IpAddr

    constructor (cfg: Config, ghost ip: IpAddr, now: Instant)
      ensures View() == Entry(FreshBucket(cfg, now), now)
      ensures fresh(bucket) && BelongsTo(ip)
    {
      owner := ip;
      bucket := new TokenBucket(cfg.burstSize as real, cfg.requestsPerSecond as real, now, Some(ip));
      lastAccess := now;
    }

    predicate IsExpired(ttl: Duration, now: Instant)
      reads this
    {
      Elapsed(now, lastAccess) > ttl
    }

    method TryAcquire(accessed: Instant, served: Instant) returns (ok: bool)
      modifies this, bucket
      ensures ok == Accepts(old(bucket.View()), served)
      ensures View() == Entry(AfterTry(old(bucket.View()), served), accessed)
    {
      lastAccess := accessed;
      ok := bucket.TryConsume(served);
    }
  }

  class RateLimiter {
    const config: Config
    const globalBucket: TokenBucket
    var clientBuckets: map<IpAddr, ClientEntry>
    var lastCleanup: Instant

    /** The objects the limiter is made of. */
    ghost var repr: set<object>

    ghost predicate Closed()
      reads this
    {
      && this in repr && globalBucket in repr
      && forall ip <- clientBuckets :: clientBuckets[ip] in repr && clientBuckets[ip].bucket in repr
    }

    ghost function View(): Limiter
      requires Closed()
      reads this, repr
    {
      Limiter(globalBucket.View(), map ip | ip in clientBuckets :: clientBuckets[ip].View(), lastCleanup)
    }

    /** Every entry and bucket belongs to one client only, so no two clients share either. */
    ghost predicate Valid()
      reads this, repr
      ensures Valid() ==> Closed()
    {
      && Closed()
      && globalBucket.owner == None
      && forall ip <- clientBuckets :: clientBuckets[ip].BelongsTo(ip)
    }

    constructor (config: Config, now: Instant)
      ensures Valid() && fresh(repr)
      ensures this.config == config && View() == Created(config, now)
    {
      this.config := config;
      globalBucket := new TokenBucket(config.burstSize as real, config.requestsPerSecond as real, now, None);
      clientBuckets := map[];
      lastCleanup := now;
      repr := {this, globalBucket};
    }

    method Check(client: Option<IpAddr>, at: Readings) returns (outcome: Outcome)
      requires Valid()
      modifies repr
      ensures Valid() && fresh(repr - old(repr))
      ensures View() == AfterCheck(config, old(View()), client, at)
      ensures outcome == CheckOutcome(config, old(View()), client, at)
    {
      var ok := globalBucket.TryConsume(at.global);
      assert Valid() && View() == GlobalStage(old(View()), at);
      if !ok {
        var wait := globalBucket.WaitTime();
        return if wait.Some? then Limited(RateLimitInfo(Global, wait.value, 0)) else Panicked;
      }
      if config.perClient && client.Some? {
        MaybeCleanup(at);
        outcome := CheckClient(client.value, at);
        return;
      }
      return Allowed;
    }

    method MaybeCleanup(at: Readings)
      requires Valid()
      modifies this
      ensures Valid() && repr == old(repr)
      ensures View() == CleanedUp(config, old(View()), at)
      ensures Elapsed(at.due, old(lastCleanup)) < 60.0 ==>
                clientBuckets == old(clientBuckets) && lastCleanup == old(lastCleanup)
      ensures Elapsed(at.due, old(lastCleanup)) >= 60.0 ==>
                lastCleanup == at.stamp && KeepsRecent(old(clientBuckets), at.sweep)
    {
      if Elapsed(at.due, lastCleanup) < CLEANUP_INTERVAL {
        return;
      }
      lastCleanup := at.stamp;
      assert View() == old(View()).(lastCleanup := at.stamp);
      Retain(at.sweep);
    }

    /** Of the entries before, exactly those seen within the time to live are left. */
    ghost predicate KeepsRecent(before: map<IpAddr, ClientEntry>, sweep: IpAddr -> Instant)
      reads this, before.Values
    {
      && (forall ip <- clientBuckets :: ip in before && clientBuckets[ip] == before[ip])
      && (forall ip <- before :: ip in clientBuckets <==> Elapsed(sweep(ip), before[ip].lastAccess) <= config.clientTtl)
    }

    method Retain(sweep: IpAddr -> Instant)
      requires Valid()
      modifies this`clientBuckets
      ensures Valid()
      ensures View() == old(View()).(clients := Retained(config, old(View().clients), sweep))
      ensures KeepsRecent(old(clientBuckets), sweep)
    {
      clientBuckets := map ip | ip in clientBuckets && !clientBuckets[ip].IsExpired(config.clientTtl, sweep(ip))
                         :: clientBuckets[ip];
    }

    method CheckClient(ip: IpAddr, at: Readings) returns (outcome: Outcome)
      requires Valid()
      modifies repr
      ensures Valid() && fresh(repr - old(repr))
      ensures View() == ClientStage(config, old(View()), ip, at)
      ensures outcome == ClientOutcome(config, old(View()), ip, at)
    {
      var entry := EntryFor(ip, at.created);
      ghost var found := EntryOf(config, old(View()), ip, at.created);
      ghost var after := Entry(AfterTry(found.bucket, at.served), at.accessed);
      assert entry.View() == View().clients[ip] == found;
      assert old(View()).clients[ip := found][ip := after] == old(View()).clients[ip := after];
      var ok := AcquireFor(ip, entry, at);
      if !ok {
        var wait := entry.bucket.WaitTime();
        return if wait.Some? then Limited(RateLimitInfo(PerClient, wait.value, 0)) else Panicked;
      }
      return Allowed;
    }

    method AcquireFor(ip: IpAddr, entry: ClientEntry, at: Readings) returns (ok: bool)
      requires Valid() && ip in clientBuckets && clientBuckets[ip] == entry
      modifies entry, entry.bucket
      ensures Valid()
      ensures ok == Accepts(old(entry.bucket.View()), at.served)
      ensures entry.bucket.View() == AfterTry(old(entry.bucket.View()), at.served)
      ensures View() == old(View()).(clients :=
                old(View()).clients[ip := Entry(AfterTry(old(entry.bucket.View()), at.served), at.accessed)])
    {
      ok := entry.TryAcquire(at.accessed, at.served);
    }

    method EntryFor(ip: IpAddr, created: Instant) returns (entry: ClientEntry)
      requires Valid()
      modifies this
      ensures Valid() && fresh(repr - old(repr))
      ensures ip in clientBuckets && clientBuckets[ip] == entry
      ensures View() ==
              old(View()).(clients := old(View()).clients[ip := EntryOf(config, old(View()), ip, created)])
    {
      if ip in clientBuckets {
        entry := clientBuckets[ip];
      } else {
        entry := new ClientEntry(config, ip, created);
        clientBuckets := clientBuckets[ip := entry];
        repr := repr + {entry, entry.bucket};
      }
    }
  }
}
