/**
 The token bucket of the rate limiter: a lazily refilled counter of tokens.
 The class performs the updates in place; the functions on `Bucket` say what each update is, and the
 lemmas say what a whole run of requests gets from the bucket.
 */
module TokenBuckets {
  import opened Clock
  import opened Wrappers

  /** Client addresses: only their identity matters. */
  datatype IpAddr = V4(bits: nat) | V6(bits: nat)

  datatype Bucket = Bucket(tokens: real, capacity: real, refillRate: real, lastUpdate: Instant)

  function Min(a: real, b: real): real {
    if a <= b then a else b
  }

  /** Tokens that a refill rate puts in the bucket over a time. */
  function Earned(refillRate: real, d: Duration): real {
    d * refillRate
  }

  function Fresh(capacity: real, refillRate: real, now: Instant): Bucket {
    Bucket(capacity, capacity, refillRate, now)
  }

  function Refilled(b: Bucket, now: Instant): Bucket {
    b.(tokens := Min(b.tokens + Earned(b.refillRate, Elapsed(now, b.lastUpdate)), b.capacity), lastUpdate := now)
  }

  predicate Accepts(b: Bucket, now: Instant) {
    Refilled(b, now).tokens >= 1.0
  }

  function AfterTry(b: Bucket, now: Instant): Bucket {
    var r := Refilled(b, now);
    if Accepts(b, now) then r.(tokens := r.tokens - 1.0) else r
  }

  /** The wait reported for a bucket as it stands; with a zero rate the quotient is no duration. */
  function Wait(b: Bucket): Option<Duration> {
    if b.tokens >= 1.0 then Some(0.0)
    else if b.refillRate == 0.0 then None
    else Some((1.0 - b.tokens) / b.refillRate)
  }

  class TokenBucket {
    var tokens: real
    const capacity: real
    const refillRate: real
    var lastUpdate: Instant

    /** The client whose bucket this is, or none for the global one. */
    ghost const owner: Option<IpAddr>

    ghost function View(): Bucket
      reads this
    {
      Bucket(tokens, capacity, refillRate, lastUpdate)
    }

    constructor (capacity: real, refillRate: real, now: Instant, ghost owner: Option<IpAddr>)
      ensures View() == Fresh(capacity, refillRate, now) && this.owner == owner
    {
      this.owner := owner;
      this.tokens := capacity;
      this.capacity := capacity;
      this.refillRate := refillRate;
      this.lastUpdate := now;
    }

    method Refill(now: Instant)
      modifies this
      ensures View() == Refilled(old(View()), now)
    {
      var elapsed := Elapsed(now, lastUpdate);
      tokens := Min(tokens + Earned(refillRate, elapsed), capacity);
      lastUpdate := now;
    }

    method TryConsume(now: Instant) returns (ok: bool)
      modifies this
      ensures ok == Accepts(old(View()), now)
      ensures View() == AfterTry(old(View()), now)
    {
      Refill(now);
      if tokens >= 1.0 {
        tokens := tokens - 1.0;
        return true;
      } else {
        return false;
      }
    }

    /** None stands for the panic on converting an infinite quotient to a duration. */
    method WaitTime() returns (wait: Option<Duration>)
      ensures wait == Wait(View())
    {
      if tokens >= 1.0 {
        return Some(0.0);
      } else {
        var needed := 1.0 - tokens;
        return if refillRate == 0.0 then None else Some(needed / refillRate);
      }
    }
  }

  // ---------- one bucket, any clock ----------

  predicate InRange(b: Bucket) {
    0.0 <= b.tokens <= b.capacity && b.refillRate >= 0.0
  }

  lemma RefillStaysInRange(b: Bucket, now: Instant)
    requires InRange(b)
    ensures InRange(Refilled(b, now)) && InRange(AfterTry(b, now))
    ensures Refilled(b, now).tokens >= b.tokens
  {
    assert Earned(b.refillRate, Elapsed(now, b.lastUpdate)) >= 0.0;
  }

  /** Refilling on the way changes nothing: only the consumed tokens and the clock matter. */
  lemma RefillComposes(b: Bucket, mid: Instant, now: Instant)
    requires InRange(b) && b.lastUpdate <= mid <= now
    ensures Refilled(Refilled(b, mid), now) == Refilled(b, now)
  {
    var x, y, r := mid - b.lastUpdate, now - mid, b.refillRate;
    assert (x + y) * r == x * r + y * r;
    assert x * r >= 0.0 && y * r >= 0.0;
  }

  /**
   The reported wait is exact: with no consumption in between, a request is served at `later` if and only if a
   wait was reported, it has passed since the bucket was last refilled, and the bucket can ever hold a whole token.
   */
  lemma BucketWaitIsExact(r: Bucket, later: Instant)
    requires InRange(r) && r.lastUpdate <= later
    ensures Accepts(r, later) <==>
            r.capacity >= 1.0 && Wait(r).Some? && later - r.lastUpdate >= Wait(r).value
  {
    if r.tokens >= 1.0 {
      RefillStaysInRange(r, later);
    } else if r.refillRate == 0.0 {
      assert Earned(r.refillRate, Elapsed(later, r.lastUpdate)) == 0.0;
    } else {
      PositiveRateWait(r, later);
    }
  }

  /** In particular after a request, whether it was served or not. */
  lemma WaitIsExact(b: Bucket, now: Instant, later: Instant)
    requires InRange(b) && now <= later
    ensures var wait := Wait(AfterTry(b, now));
            Accepts(AfterTry(b, now), later) <==> b.capacity >= 1.0 && wait.Some? && later - now >= wait.value
  {
    RefillStaysInRange(b, now);
    BucketWaitIsExact(AfterTry(b, now), later);
  }

  lemma PositiveRateWait(r: Bucket, later: Instant)
    requires InRange(r) && r.refillRate > 0.0 && r.tokens < 1.0 && r.lastUpdate <= later
    ensures Accepts(r, later) <==> r.capacity >= 1.0 && later - r.lastUpdate >= Wait(r).value
  {
    var wait, rate, passed := Wait(r).value, r.refillRate, later - r.lastUpdate;
    assert wait * rate == 1.0 - r.tokens;
    assert (passed - wait) * rate == passed * rate - wait * rate;
  }

  // ---------- runs of requests ----------

  /** One request in a history: when it came and whether it was served. */
  datatype Attempt = Attempt(time: Instant, accepted: bool)

  function Weight(a: Attempt): nat {
    if a.accepted then 1 else 0
  }

  /** The bucket after requests at the given times. */
  function AfterAll(b: Bucket, times: seq<Instant>): Bucket {
    if times == [] then b
    else AfterTry(AfterAll(b, times[..|times| - 1]), times[|times| - 1])
  }

  /** What the bucket answered to requests at the given times. */
  function History(b: Bucket, times: seq<Instant>): (h: seq<Attempt>)
    ensures |h| == |times|
    ensures forall i :: 0 <= i < |h| ==> h[i].time == times[i]
  {
    if times == [] then []
    else
      var n := |times| - 1;
      History(b, times[..n]) + [Attempt(times[n], Accepts(AfterAll(b, times[..n]), times[n]))]
  }

  /** Number of served requests. */
  function Accepted(h: seq<Attempt>): nat {
    if h == [] then 0 else Accepted(h[..|h| - 1]) + Weight(h[|h| - 1])
  }

  /** Number of requests served in the closed time window from `from` to `to`. */
  function AcceptedIn(h: seq<Attempt>, from: Instant, to: Instant): nat {
    if h == [] then 0
    else
      var a := h[|h| - 1];
      AcceptedIn(h[..|h| - 1], from, to) + if from <= a.time <= to then Weight(a) else 0
  }

  ghost predicate Ordered(h: seq<Attempt>) {
    forall i, j :: 0 <= i < j < |h| ==> h[i].time <= h[j].time
  }

  ghost predicate EndsBy(h: seq<Attempt>, now: Instant) {
    forall i :: 0 <= i < |h| ==> h[i].time <= now
  }

  ghost predicate SameTimes(h: seq<Attempt>, times: seq<Instant>) {
    |h| == |times| && forall i :: 0 <= i < |h| ==> h[i].time == times[i]
  }

  /** The limit a bucket stands for: `n` requests served in one window of time. */
  predicate WithinLimit(b: Bucket, n: nat, from: Instant, to: Instant) {
    n as real <= b.capacity + b.refillRate * (to - from)
  }

  /** A history that keeps every window of time within the limit of the bucket. */
  ghost predicate Feasible(b: Bucket, h: seq<Attempt>) {
    forall from, to :: from <= to ==> WithinLimit(b, AcceptedIn(h, from, to), from, to)
  }

  /** A bucket as it is when created. */
  predicate IsFresh(b: Bucket) {
    b == Fresh(b.capacity, b.refillRate, b.lastUpdate) && InRange(b)
  }

  // The proofs below are linear: they see the refill only as a supply `earned(t)` of tokens by
  // instant `t`, of which a bucket is the case `earned(t) = refillRate * t`.

  type Supply = Instant -> real

  function SupplyOf(b: Bucket): Supply {
    (t: Instant) => b.refillRate * t
  }

  ghost predicate Growing(earned: Supply) {
    forall s: Instant, t: Instant :: s <= t ==> earned(s) <= earned(t)
  }

  /** The level a bucket that starts full shows at `now` after the decisions in `h`, whoever took them. */
  function Level(capacity: real, earned: Supply, h: seq<Attempt>, now: Instant): real {
    if h == [] then capacity
    else
      var a := h[|h| - 1];
      Min(Level(capacity, earned, h[..|h| - 1], a.time) - Weight(a) as real + earned(now) - earned(a.time), capacity)
  }

  lemma {:induction false} NothingAfterEnd(h: seq<Attempt>, from: Instant, to: Instant)
    requires forall i :: 0 <= i < |h| ==> h[i].time < from
    ensures AcceptedIn(h, from, to) == 0
  {
    if h != [] {
      NothingAfterEnd(h[..|h| - 1], from, to);
    }
  }

  lemma {:induction false} LaterEndAddsNothing(h: seq<Attempt>, from: Instant, end: Instant, to: Instant)
    requires EndsBy(h, end) && end <= to
    ensures AcceptedIn(h, from, to) == AcceptedIn(h, from, end)
  {
    if h != [] {
      LaterEndAddsNothing(h[..|h| - 1], from, end, to);
    }
  }

  lemma {:induction false} LevelUnderEveryWindow(
    capacity: real, earned: Supply, h: seq<Attempt>, from: Instant, now: Instant)
    requires Growing(earned) && Ordered(h) && EndsBy(h, now) && from <= now
    ensures Level(capacity, earned, h, now) <=
            capacity + earned(now) - earned(from) - AcceptedIn(h, from, now) as real
  {
    if h != [] {
      var a, front := h[|h| - 1], h[..|h| - 1];
      if from <= a.time {
        LevelUnderEveryWindow(capacity, earned, front, from, a.time);
        LaterEndAddsNothing(front, from, a.time, now);
      } else {
        NothingAfterEnd(h, from, now);
      }
    }
  }

  lemma {:induction false} LevelMeetsSomeWindow(capacity: real, earned: Supply, h: seq<Attempt>, now: Instant)
    returns (from: Instant)
    requires Growing(earned) && Ordered(h) && EndsBy(h, now)
    ensures from <= now
    ensures Level(capacity, earned, h, now) ==
            capacity + earned(now) - earned(from) - AcceptedIn(h, from, now) as real
  {
    if h == [] {
      from := now;
    } else {
      var a, front := h[|h| - 1], h[..|h| - 1];
      if Level(capacity, earned, h, now) == capacity && a.time < now {
        from := now;
        NothingAfterEnd(h, from, now);
      } else {
        from := LevelMeetsSomeWindow(capacity, earned, front, a.time);
        LevelUnderEveryWindow(capacity, earned, front, a.time, a.time);
        LaterEndAddsNothing(front, from, a.time, now);
      }
    }
  }

  /** A decision of a feasible policy in favour of a request is backed by a whole token. */
  lemma FeasibleNeedsToken(b: Bucket, h: seq<Attempt>)
    requires InRange(b) && Ordered(h) && h != [] && h[|h| - 1].accepted
    requires Feasible(b, h)
    ensures Level(b.capacity, SupplyOf(b), h[..|h| - 1], h[|h| - 1].time) >= 1.0
  {
    var front, t := h[..|h| - 1], h[|h| - 1].time;
    SupplyGrows(b);
    var from := LevelMeetsSomeWindow(b.capacity, SupplyOf(b), front, t);
    assert WithinLimit(b, AcceptedIn(h, from, t), from, t);
    LimitBySupply(b, AcceptedIn(h, from, t), from, t);
  }

  lemma SupplyOverWindow(b: Bucket, from: Instant, to: Instant)
    ensures SupplyOf(b)(to) - SupplyOf(b)(from) == b.refillRate * (to - from) == Earned(b.refillRate, to - from)
  {
  }

  lemma SupplyGrows(b: Bucket)
    requires b.refillRate >= 0.0
    ensures Growing(SupplyOf(b))
  {
    forall s: Instant, t: Instant | s <= t
      ensures SupplyOf(b)(s) <= SupplyOf(b)(t)
    {
      SupplyOverWindow(b, s, t);
    }
  }

  lemma RefillByWindow(b: Bucket, now: Instant)
    requires b.lastUpdate <= now
    ensures Refilled(b, now).tokens == Min(b.tokens + SupplyOf(b)(now) - SupplyOf(b)(b.lastUpdate), b.capacity)
  {
    SupplyOverWindow(b, b.lastUpdate, now);
  }

  /** A bucket created full at or before the first request shows exactly the level of its own history. */
  lemma {:induction false} BucketShowsLevel(b: Bucket, times: seq<Instant>, now: Instant)
    requires IsFresh(b) && NonDecreasing([b.lastUpdate] + times + [now])
    ensures InRange(AfterAll(b, times)) && AfterAll(b, times).lastUpdate <= now
    ensures AfterAll(b, times).capacity == b.capacity && AfterAll(b, times).refillRate == b.refillRate
    ensures Refilled(AfterAll(b, times), now).tokens == Level(b.capacity, SupplyOf(b), History(b, times), now)
  {
    var all := [b.lastUpdate] + times + [now];
    assert all[0] <= all[|all| - 1];
    SupplyGrows(b);
    if times == [] {
      RefillByWindow(b, now);
    } else {
      var n := |times| - 1;
      var front, t := times[..n], times[n];
      assert [b.lastUpdate] + front + [t] == all[..|all| - 1];
      BucketShowsLevel(b, front, t);
      RefillStaysInRange(AfterAll(b, front), t);
      assert all[|all| - 2] == t;
      assert History(b, times)[..n] == History(b, front);
      RefillByWindow(AfterAll(b, times), now);
      assert SupplyOf(AfterAll(b, times))(now) == SupplyOf(b)(now);
      assert SupplyOf(AfterAll(b, times))(t) == SupplyOf(b)(t);
    }
  }

  lemma HistoryIsOrdered(b: Bucket, times: seq<Instant>, h: seq<Attempt>, now: Instant)
    requires NonDecreasing([b.lastUpdate] + times + [now]) && SameTimes(h, times)
    ensures Ordered(h) && EndsBy(h, now)
  {
    var all := [b.lastUpdate] + times + [now];
    assert forall i :: 0 <= i < |times| ==> times[i] == all[i + 1];
    assert all[|all| - 1] == now;
  }

  /** `n` requests fit a window if and only if the tokens the window leaves over them are not negative. */
  lemma LimitBySupply(b: Bucket, n: nat, from: Instant, to: Instant)
    ensures WithinLimit(b, n, from, to) <==>
            n as real <= b.capacity + SupplyOf(b)(to) - SupplyOf(b)(from)
  {
    SupplyOverWindow(b, from, to);
  }

  lemma AcceptedFitsWindow(b: Bucket, times: seq<Instant>, from: Instant, now: Instant)
    requires IsFresh(b) && NonDecreasing([b.lastUpdate] + times + [now]) && from <= now
    requires Accepts(AfterAll(b, times), now)
    ensures WithinLimit(b, AcceptedIn(History(b, times), from, now) + 1, from, now)
  {
    var h := History(b, times);
    BucketShowsLevel(b, times, now);
    HistoryIsOrdered(b, times, h, now);
    SupplyGrows(b);
    LevelUnderEveryWindow(b.capacity, SupplyOf(b), h, from, now);
    LimitBySupply(b, AcceptedIn(h, from, now) + 1, from, now);
  }

  /** A window that leaves less than a token has no room for one more request. */
  lemma OneMoreIsOverLimit(b: Bucket, n: nat, from: Instant, to: Instant, supply: real)
    requires supply == SupplyOf(b)(to) - SupplyOf(b)(from) && b.capacity + supply - n as real < 1.0
    ensures !WithinLimit(b, n + 1, from, to)
  {
    LimitBySupply(b, n + 1, from, to);
  }

  lemma RejectedBelowOne(b: Bucket, times: seq<Instant>, now: Instant)
    requires IsFresh(b) && NonDecreasing([b.lastUpdate] + times + [now])
    requires !Accepts(AfterAll(b, times), now)
    ensures Level(b.capacity, SupplyOf(b), History(b, times), now) < 1.0
  {
    BucketShowsLevel(b, times, now);
  }

  lemma BelowOneSaturatesWindow(b: Bucket, h: seq<Attempt>, now: Instant) returns (from: Instant)
    requires b.refillRate >= 0.0 && Ordered(h) && EndsBy(h, now) && Level(b.capacity, SupplyOf(b), h, now) < 1.0
    ensures from <= now && !WithinLimit(b, AcceptedIn(h, from, now) + 1, from, now)
  {
    SupplyGrows(b);
    from := LevelMeetsSomeWindow(b.capacity, SupplyOf(b), h, now);
    OneMoreIsOverLimit(b, AcceptedIn(h, from, now), from, now, SupplyOf(b)(now) - SupplyOf(b)(from));
  }

  /** One more request at `now` takes no window that ends there over the limit. */
  ghost predicate EveryWindowAllows(b: Bucket, h: seq<Attempt>, now: Instant) {
    forall from :: from <= now ==> WithinLimit(b, AcceptedIn(h, from, now) + 1, from, now)
  }

  /**
   The bucket serves a request exactly when no window ending at it would go over the limit: it never
   exceeds the limit, and every rejection is justified by a window that is already saturated.
   */
  lemma AcceptsIffEveryWindowAllows(b: Bucket, times: seq<Instant>, now: Instant)
    requires IsFresh(b) && NonDecreasing([b.lastUpdate] + times + [now])
    ensures Accepts(AfterAll(b, times), now) <==> EveryWindowAllows(b, History(b, times), now)
  {
    if Accepts(AfterAll(b, times), now) {
      forall from | from <= now
        ensures WithinLimit(b, AcceptedIn(History(b, times), from, now) + 1, from, now)
      {
        AcceptedFitsWindow(b, times, from, now);
      }
    } else {
      RejectedBelowOne(b, times, now);
      HistoryIsOrdered(b, times, History(b, times), now);
      var from := BelowOneSaturatesWindow(b, History(b, times), now);
    }
  }

  lemma WiderWindowAllowsMore(b: Bucket, n: nat, from: Instant, end: Instant, to: Instant)
    requires b.refillRate >= 0.0 && end <= to && WithinLimit(b, n, from, end)
    ensures WithinLimit(b, n, from, to)
  {
    LimitBySupply(b, n, from, end);
    LimitBySupply(b, n, from, to);
    SupplyGrows(b);
  }

  /** In every window of time, however placed, the bucket serves at most capacity + rate * length requests. */
  lemma {:induction false} EveryWindowWithinLimit(b: Bucket, times: seq<Instant>)
    requires IsFresh(b) && NonDecreasing([b.lastUpdate] + times)
    ensures Feasible(b, History(b, times))
  {
    forall from, to | from <= to
      ensures WithinLimit(b, AcceptedIn(History(b, times), from, to), from, to)
    {
      WindowWithinLimit(b, times, from, to);
    }
  }

  lemma ServedFitsLongerWindow(b: Bucket, times: seq<Instant>, from: Instant, t: Instant, to: Instant)
    requires IsFresh(b) && NonDecreasing([b.lastUpdate] + times + [t]) && from <= t <= to
    requires Accepts(AfterAll(b, times), t)
    ensures WithinLimit(b, AcceptedIn(History(b, times), from, to) + 1, from, to)
  {
    var g := History(b, times);
    HistoryIsOrdered(b, times, g, t);
    AcceptedFitsWindow(b, times, from, t);
    LaterEndAddsNothing(g, from, t, to);
    WiderWindowAllowsMore(b, AcceptedIn(g, from, t) + 1, from, t, to);
  }

  lemma {:induction false} WindowWithinLimit(b: Bucket, times: seq<Instant>, from: Instant, to: Instant)
    requires IsFresh(b) && NonDecreasing([b.lastUpdate] + times) && from <= to
    ensures WithinLimit(b, AcceptedIn(History(b, times), from, to), from, to)
  {
    if times == [] {
      WiderWindowAllowsMore(b, 0, from, from, to);
    } else {
      var n := |times| - 1;
      var front, t, all := times[..n], times[n], [b.lastUpdate] + times;
      assert all[..n + 1] == [b.lastUpdate] + front && all == [b.lastUpdate] + front + [t];
      WindowWithinLimit(b, front, from, to);
      var accepted := Accepts(AfterAll(b, front), t);
      assert History(b, times)[..n] == History(b, front);
      if accepted && from <= t <= to {
        ServedFitsLongerWindow(b, front, from, t, to);
      }
    }
  }

  lemma PrefixStaysFeasible(b: Bucket, h: seq<Attempt>)
    requires Feasible(b, h) && h != []
    ensures Feasible(b, h[..|h| - 1])
  {
    var front := h[..|h| - 1];
    forall from, to | from <= to
      ensures WithinLimit(b, AcceptedIn(front, from, to), from, to)
    {
      assert WithinLimit(b, AcceptedIn(h, from, to), from, to);
    }
  }

  /** What a feasible policy has saved in tokens it has lost in served requests. */
  lemma {:induction false} GreedyStaysAhead(b: Bucket, times: seq<Instant>, other: seq<Attempt>, now: Instant)
    requires IsFresh(b) && NonDecreasing([b.lastUpdate] + times + [now])
    requires SameTimes(other, times) && Feasible(b, other)
    ensures Accepted(other) <= Accepted(History(b, times))
    ensures Level(b.capacity, SupplyOf(b), other, now) <=
            Level(b.capacity, SupplyOf(b), History(b, times), now)
            + (Accepted(History(b, times)) - Accepted(other)) as real
  {
    if times != [] {
      var n := |times| - 1;
      var front, t := times[..n], times[n];
      var all := [b.lastUpdate] + times + [now];
      assert all[..|all| - 1] == [b.lastUpdate] + front + [t];
      PrefixStaysFeasible(b, other);
      GreedyStaysAhead(b, front, other[..n], t);
      assert History(b, times)[..n] == History(b, front);
      BucketShowsLevel(b, front, t);
      HistoryIsOrdered(b, times, other, now);
      if other[n].accepted {
        FeasibleNeedsToken(b, other);
      }
    }
  }

  /**
   Greedy optimality: after every prefix of the requests the bucket has served at least as many as any
   other policy that keeps every window within the same limit.
   */
  lemma {:induction false} GreedyIsOptimal(b: Bucket, times: seq<Instant>, other: seq<Attempt>, n: nat)
    requires IsFresh(b) && NonDecreasing([b.lastUpdate] + times)
    requires SameTimes(other, times) && Feasible(b, other)
    requires n <= |times|
    ensures Accepted(other[..n]) <= Accepted(History(b, times)[..n])
    decreases |times|
  {
    var all := [b.lastUpdate] + times;
    if n < |times| {
      var m := |times| - 1;
      assert all[..m + 1] == [b.lastUpdate] + times[..m];
      PrefixStaysFeasible(b, other);
      GreedyIsOptimal(b, times[..m], other[..m], n);
      assert History(b, times)[..m] == History(b, times[..m]);
      assert History(b, times)[..m][..n] == History(b, times)[..n];
      assert other[..m][..n] == other[..n];
    } else {
      var now := all[|all| - 1];
      assert NonDecreasing(all + [now]);
      assert all + [now] == [b.lastUpdate] + times + [now];
      GreedyStaysAhead(b, times, other, now);
      assert other[..n] == other && History(b, times)[..n] == History(b, times);
    }
  }
}
