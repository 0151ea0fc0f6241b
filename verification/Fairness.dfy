/**
 How evenly the load balancer spreads requests over a fixed set of healthy endpoints, when no breaker is
 open: positions picked, and endpoints returned, by whole runs of selections.
 */
module Fairness {
  import opened CircuitBreakers
  import opened Clock
  import opened LoadBalancers
  import opened Wrappers

  function CountOf(picks: seq<nat>, v: nat): nat {
    if picks == [] then 0 else CountOf(picks[..|picks| - 1], v) + if picks[|picks| - 1] == v then 1 else 0
  }

  // ---------- rotation ----------

  /** The counter after `k` selections. */
  function Counter(start: nat, k: nat): nat {
    if k == 0 then start else (Counter(start, k - 1) + 1) % WORD
  }

  /** The positions picked by `k` selections over `loads`. */
  function Rotation(start: nat, loads: seq<nat>, k: nat): (picks: seq<nat>)
    requires loads != []
    ensures |picks| == k
  {
    if k == 0 then []
    else Rotation(start, loads, k - 1) + [Pick(RoundRobin, Counter(start, k - 1), 0, loads)]
  }

  /** How many numbers below `x` leave remainder `v`. */
  function Residues(x: nat, n: nat, v: nat): nat
    requires n > 0
  {
    if x == 0 then 0 else Residues(x - 1, n, v) + if (x - 1) % n == v then 1 else 0
  }

  lemma NextRemainder(x: nat, n: nat)
    requires n > 0
    ensures (x + 1) % n == (if x % n == n - 1 then 0 else x % n + 1)
    ensures (x + 1) / n == (if x % n == n - 1 then x / n + 1 else x / n)
  {
    var q, r := x / n, x % n;
    assert x == q * n + r;
    if r == n - 1 {
      assert x + 1 == (q + 1) * n;
      DivModUnique(x + 1, n, q + 1, 0);
    } else {
      DivModUnique(x + 1, n, q, r + 1);
    }
  }

  lemma DivModUnique(x: nat, n: nat, q: nat, r: nat)
    requires n > 0 && r < n && x == q * n + r
    ensures x / n == q && x % n == r
  {
    var d := x / n - q;
    assert d * n == r - x % n;
    if d != 0 {
      MultipleIsFar(d, n);
      assert false;
    }
  }

  lemma MultipleIsFar(d: int, n: int)
    requires d != 0 && n >= 0
    ensures d * n >= n || d * n <= -n
  {
    if d > 0 {
      assert (d - 1) * n >= 0;
    } else {
      assert (-d - 1) * n >= 0;
    }
  }

  lemma {:induction false} RemainderOfShift(x: nat, n: nat, k: nat)
    requires n > 0
    ensures (x + k) % n == (x % n + k) % n
  {
    if k > 0 {
      RemainderOfShift(x, n, k - 1);
      NextRemainder(x + k - 1, n);
      NextRemainder(x % n + k - 1, n);
    } else {
      DivModUnique(x % n, n, 0, x % n);
    }
  }

  /** `n` consecutive numbers leave every remainder once. */
  lemma {:induction false} OneOfEach(x: nat, n: nat, v: nat)
    requires n > 0 && v < n
    ensures Residues(x + n, n, v) == Residues(x, n, v) + 1
  {
    if x == 0 {
      BelowFirst(n, n, v);
    } else {
      OneOfEach(x - 1, n, v);
      RemainderOfShift(n, n, x - 1);
      DivModUnique(n, n, 1, 0);
      assert (x - 1 + n) % n == (x - 1) % n;
      assert Residues(x - 1 + n + 1, n, v) == Residues(x - 1 + n, n, v) + if (x - 1 + n) % n == v then 1 else 0;
    }
  }

  lemma {:induction false} BelowFirst(x: nat, n: nat, v: nat)
    requires x <= n && v < n
    ensures Residues(x, n, v) == if v < x then 1 else 0
  {
    if x > 0 {
      BelowFirst(x - 1, n, v);
      DivModUnique(x - 1, n, 0, x - 1);
    }
  }

  /** `rounds * n`, by addition. */
  function Length(rounds: nat, n: nat): nat {
    if rounds == 0 then 0 else Length(rounds - 1, n) + n
  }

  lemma {:induction false} LengthIsProduct(rounds: nat, n: nat)
    ensures Length(rounds, n) == rounds * n
  {
    if rounds > 0 {
      LengthIsProduct(rounds - 1, n);
      assert rounds * n == (rounds - 1) * n + n;
    }
  }

  lemma {:induction false} RoundsOfEach(x: nat, n: nat, v: nat, rounds: nat)
    requires n > 0 && v < n
    ensures Residues(x + Length(rounds, n), n, v) == Residues(x, n, v) + rounds
  {
    if rounds > 0 {
      RoundsOfEach(x, n, v, rounds - 1);
      OneMoreRound(x + Length(rounds - 1, n), x + Length(rounds, n), n, v);
    }
  }

  lemma OneMoreRound(x: nat, y: nat, n: nat, v: nat)
    requires n > 0 && v < n && y == x + n
    ensures Residues(y, n, v) == Residues(x, n, v) + 1
  {
    OneOfEach(x, n, v);
  }

  /** Selection number `i` of the run picks as if the counter had never wrapped. */
  ghost predicate NeverSeesWrap(start: nat, n: nat, k: nat)
    requires n > 0
  {
    forall i: nat :: i < k ==> Counter(start, i) % n == (start + i) % n
  }

  lemma {:induction false} RotationCounts(start: nat, loads: seq<nat>, k: nat, v: nat)
    requires loads != [] && NeverSeesWrap(start, |loads|, k)
    ensures CountOf(Rotation(start, loads, k), v) ==
            Residues(start + k, |loads|, v) - Residues(start, |loads|, v)
  {
    if k > 0 {
      RotationCounts(start, loads, k - 1, v);
      var picks := Rotation(start, loads, k);
      assert picks[..k - 1] == Rotation(start, loads, k - 1);
      assert picks[k - 1] == (start + (k - 1)) % |loads|;
    }
  }

  lemma {:induction false} CounterWithoutWrap(start: nat, k: nat)
    requires start + k < WORD
    ensures Counter(start, k) == start + k
  {
    if k > 0 {
      CounterWithoutWrap(start, k - 1);
    }
  }

  lemma CounterStepModulo(c: nat, x: nat, n: nat)
    requires n > 0 && WORD % n == 0 && c < WORD && c % n == x % n
    ensures ((c + 1) % WORD) % n == (x + 1) % n
  {
    NextRemainder(c, n);
    NextRemainder(x, n);
    if c + 1 == WORD {
      DivModUnique(0, n, 0, 0);
    }
  }

  lemma {:induction false} CounterModulo(start: nat, n: nat, k: nat)
    requires n > 0 && WORD % n == 0 && start < WORD
    ensures Counter(start, k) < WORD && Counter(start, k) % n == (start + k) % n
  {
    if k > 0 {
      CounterModulo(start, n, k - 1);
      CounterStepModulo(Counter(start, k - 1), start + (k - 1), n);
      assert start + (k - 1) + 1 == start + k;
    }
  }

  /** Any `rounds * n` rotations in a row pick every position `rounds` times, if the counter does not wrap. */
  lemma FairBetweenWraps(start: nat, loads: seq<nat>, rounds: nat, v: nat)
    requires loads != [] && v < |loads| && start + rounds * |loads| <= WORD
    ensures CountOf(Rotation(start, loads, rounds * |loads|), v) == rounds
  {
    var k := rounds * |loads|;
    forall i: nat | i < k
      ensures Counter(start, i) % |loads| == (start + i) % |loads|
    {
      CounterWithoutWrap(start, i);
    }
    RotationCounts(start, loads, k, v);
    LengthIsProduct(rounds, |loads|);
    RoundsOfEach(start, |loads|, v, rounds);
  }

  ghost predicate AlwaysFair(loads: seq<nat>)
    requires loads != []
  {
    forall start: nat, rounds: nat, v: nat :: start < WORD && v < |loads| ==>
      CountOf(Rotation(start, loads, rounds * |loads|), v) == rounds
  }

  /** Just before it wraps, a counter that is not a whole number of rounds skips the last position. */
  lemma WrapSkipsLast(loads: seq<nat>)
    requires loads != [] && |loads| <= WORD && WORD % |loads| != 0
    ensures CountOf(Rotation(WORD - 1, loads, |loads|), |loads| - 1) == 0
  {
    WrapSkipsLastSoFar(loads, |loads|);
  }

  lemma {:induction false} WrapSkipsLastSoFar(loads: seq<nat>, k: nat)
    requires loads != [] && k <= |loads| <= WORD && WORD % |loads| != 0
    ensures CountOf(Rotation(WORD - 1, loads, k), |loads| - 1) == 0
  {
    if k > 0 {
      WrapSkipsLastSoFar(loads, k - 1);
      var picks := Rotation(WORD - 1, loads, k);
      assert picks[..k - 1] == Rotation(WORD - 1, loads, k - 1);
      CounterAcrossWrap(k - 1);
      NotLastNearWrap(Counter(WORD - 1, k - 1), |loads|);
    }
  }

  lemma {:induction false} CounterAcrossWrap(k: nat)
    requires k <= WORD
    ensures Counter(WORD - 1, k) == if k == 0 then WORD - 1 else k - 1
  {
    if k > 0 {
      CounterAcrossWrap(k - 1);
    }
  }

  lemma NotLastNearWrap(c: nat, n: nat)
    requires n > 0 && (c < n - 1 || (c == WORD - 1 && WORD % n != 0))
    ensures c % n != n - 1
  {
    if c < n - 1 {
      DivModUnique(c, n, 0, c);
    } else {
      NextRemainder(c, n);
    }
  }

  /** Rotation is fair over every run, wraps included, exactly when the number of endpoints divides the word size. */
  lemma AlwaysFairIff(loads: seq<nat>)
    requires loads != [] && |loads| <= WORD
    ensures AlwaysFair(loads) <==> WORD % |loads| == 0
  {
    var n := |loads|;
    if WORD % n == 0 {
      forall start: nat, rounds: nat, v: nat | start < WORD && v < n
        ensures CountOf(Rotation(start, loads, rounds * n), v) == rounds
      {
        forall i: nat | i < rounds * n
          ensures Counter(start, i) % n == (start + i) % n
        {
          CounterModulo(start, n, i);
        }
        RotationCounts(start, loads, rounds * n, v);
        LengthIsProduct(rounds, n);
        RoundsOfEach(start, n, v, rounds);
      }
    } else {
      var start: nat, rounds: nat, v: nat := WORD - 1, 1, n - 1;
      WrapSkipsLast(loads);
      assert rounds * n == n;
      assert CountOf(Rotation(start, loads, rounds * n), v) != rounds;
    }
  }

  // ---------- rotation through the breakers ----------

  /** The outcome of `k` rotating selections at the given times: the breakers after them, and who was returned. */
  function SelectionRun(
    b: Breakers, healthy: seq<Endpoint>, loads: seq<nat>, start: nat, times: nat -> Readings, k: nat)
    : (r: (Breakers, seq<Option<Endpoint>>))
    requires healthy != [] && |loads| == |healthy| && forall e <- healthy :: e in b
    ensures (forall e <- healthy :: e in r.0) && |r.1| == k
  {
    if k == 0 then (b, [])
    else
      var (c, returned) := SelectionRun(b, healthy, loads, start, times, k - 1);
      var chosen := healthy[Pick(RoundRobin, Counter(start, k - 1), 0, loads)];
      SelectionContract(c, healthy, chosen, times(k - 1));
      var s := Selection(c, healthy, chosen, times(k - 1));
      (s.breakers, returned + [s.endpoint])
  }

  ghost predicate NoneOpen(b: Breakers, healthy: seq<Endpoint>)
    requires forall e <- healthy :: e in b
  {
    forall e <- healthy :: b[e].state != Open
  }

  lemma ClosedBreakersAdmit(b: Breakers, healthy: seq<Endpoint>, chosen: Endpoint, clock: Readings)
    requires chosen in healthy && (forall e <- healthy :: e in b) && NoneOpen(b, healthy)
    ensures var s := Selection(b, healthy, chosen, clock);
            s.endpoint == Some(chosen) && (forall e <- healthy :: e in s.breakers) && NoneOpen(s.breakers, healthy)
  {
  }

  /** While no breaker is open, selections return exactly the positions of the rotation and open none. */
  lemma {:induction false} SelectionsFollowRotation(
    b: Breakers, healthy: seq<Endpoint>, loads: seq<nat>, start: nat, times: nat -> Readings, k: nat)
    requires healthy != [] && |loads| == |healthy| && (forall e <- healthy :: e in b) && NoneOpen(b, healthy)
    ensures var (c, returned) := SelectionRun(b, healthy, loads, start, times, k);
            && NoneOpen(c, healthy)
            && forall i :: 0 <= i < k ==>
                 var p := Rotation(start, loads, k)[i];
                 p < |healthy| && returned[i] == Some(healthy[p])
  {
    if k > 0 {
      SelectionsFollowRotation(b, healthy, loads, start, times, k - 1);
      var (c, returned) := SelectionRun(b, healthy, loads, start, times, k - 1);
      var picks := Rotation(start, loads, k);
      assert picks[..k - 1] == Rotation(start, loads, k - 1);
      ClosedBreakersAdmit(c, healthy, healthy[picks[k - 1]], times(k - 1));
    }
  }

  /** How often a run of selections returned the endpoint. */
  function TimesReturned(returned: seq<Option<Endpoint>>, e: Endpoint): nat {
    if returned == [] then 0
    else
      var n := |returned| - 1;
      TimesReturned(returned[..n], e) + if returned[n] == Some(e) then 1 else 0
  }

  ghost predicate Distinct(endpoints: seq<Endpoint>) {
    forall i, j :: 0 <= i < j < |endpoints| ==> endpoints[i] != endpoints[j]
  }

  lemma {:induction false} ReturnedLikePicked(
    healthy: seq<Endpoint>, picks: seq<nat>, returned: seq<Option<Endpoint>>, v: nat)
    requires Distinct(healthy) && v < |healthy| && |picks| == |returned|
    requires forall i :: 0 <= i < |picks| ==> picks[i] < |healthy| && returned[i] == Some(healthy[picks[i]])
    ensures TimesReturned(returned, healthy[v]) == CountOf(picks, v)
  {
    if picks != [] {
      var n := |picks| - 1;
      ReturnedLikePicked(healthy, picks[..n], returned[..n], v);
      assert healthy[picks[n]] == healthy[v] <==> picks[n] == v;
    }
  }

  /**
   While no breaker is open, any `rounds * n` selections in a row return every endpoint exactly `rounds` times, if
   the counter does not wrap or the number of endpoints divides the word size.
   */
  lemma EachEndpointServesEqually(
    b: Breakers, healthy: seq<Endpoint>, loads: seq<nat>, start: nat, times: nat -> Readings, rounds: nat, v: nat)
    requires healthy != [] && |loads| == |healthy| && (forall e <- healthy :: e in b) && NoneOpen(b, healthy)
    requires Distinct(healthy) && v < |healthy| && |healthy| <= WORD
    requires start + rounds * |healthy| <= WORD || (start < WORD && WORD % |healthy| == 0)
    ensures var (_, returned) := SelectionRun(b, healthy, loads, start, times, rounds * |healthy|);
            TimesReturned(returned, healthy[v]) == rounds
  {
    var k := rounds * |healthy|;
    var (_, returned) := SelectionRun(b, healthy, loads, start, times, k);
    SelectionsFollowRotation(b, healthy, loads, start, times, k);
    ReturnedLikePicked(healthy, Rotation(start, loads, k), returned, v);
    if start + k <= WORD {
      FairBetweenWraps(start, loads, rounds, v);
    } else {
      AlwaysFairIff(loads);
      assert CountOf(Rotation(start, loads, rounds * |loads|), v) == rounds;
    }
  }

  /** The endpoints returned by a rotation from `start` whose counter wraps at the word size. */
  ghost predicate IsRotation(h: seq<Endpoint>, start: nat, returned: seq<Option<Endpoint>>)
    requires h != []
  {
    forall i :: 0 <= i < |returned| ==>
      returned[i] == Some(h[((start + i) % 0x1_0000_0000_0000_0000) % |h|])
  }

  /** One selection by a rotating policy, while no breaker is open. */
  method SelectNext(lb: LoadBalancer, clock: Readings, draw: nat, ghost h: seq<Endpoint>)
    returns (r: Option<Endpoint>)
    requires lb.policy == RoundRobin || lb.policy == ConsistentHash
    requires OwnBreakers(lb.endpoints) && h == Healthy(lb.endpoints) && h != [] && NoneTripped(lb.endpoints)
    modifies lb`nextIndex, set e <- lb.endpoints :: e.breaker
    ensures h == Healthy(lb.endpoints) && NoneTripped(lb.endpoints)
    ensures r == Some(h[old(lb.nextIndex) % |h|]) && lb.nextIndex == Counter(old(lb.nextIndex), 1)
  {
    r := lb.Select(clock, draw);
    assert Counter(old(lb.nextIndex), 0) == old(lb.nextIndex);
  }

  /**
   Selections in a row by a rotating policy, while no breaker is open, return the healthy endpoints by the counter, that
   is (`CounterRotates`) exactly the rotation.
   */
  method SelectRepeatedly(
    lb: LoadBalancer, clocks: nat -> Readings, draws: nat -> nat, k: nat, ghost h: seq<Endpoint>)
    returns (returned: seq<Option<Endpoint>>)
    requires lb.policy == RoundRobin || lb.policy == ConsistentHash
    requires OwnBreakers(lb.endpoints) && h == Healthy(lb.endpoints) && h != [] && NoneTripped(lb.endpoints)
    modifies lb`nextIndex, set e <- lb.endpoints :: e.breaker
    ensures h == Healthy(lb.endpoints) && NoneTripped(lb.endpoints)
    ensures |returned| == k && FollowsCounter(h, old(lb.nextIndex), returned)
    ensures lb.nextIndex == Counter(old(lb.nextIndex), k)
  {
    if k == 0 {
      returned := [];
    } else {
      returned := SelectRepeatedly(lb, clocks, draws, k - 1, h);
      var e := SelectNext(lb, clocks(k - 1), draws(k - 1), h);
      NextCounter(old(lb.nextIndex), k - 1);
      NextFollows(h, old(lb.nextIndex), returned, e);
      returned := returned + [e];
    }
  }

  ghost predicate FollowsCounter(h: seq<Endpoint>, start: nat, returned: seq<Option<Endpoint>>)
    requires h != []
  {
    forall i :: 0 <= i < |returned| ==> returned[i] == Some(h[Counter(start, i) % |h|])
  }

  lemma NextFollows(h: seq<Endpoint>, start: nat, returned: seq<Option<Endpoint>>, e: Option<Endpoint>)
    requires h != [] && FollowsCounter(h, start, returned) && e == Some(h[Counter(start, |returned|) % |h|])
    ensures FollowsCounter(h, start, returned + [e])
  {
  }

  lemma CounterRotates(h: seq<Endpoint>, start: nat, returned: seq<Option<Endpoint>>)
    requires h != [] && start < WORD && FollowsCounter(h, start, returned)
    ensures IsRotation(h, start, returned)
    ensures Counter(start, |returned|) == (start + |returned|) % 0x1_0000_0000_0000_0000
  {
    CounterIsModulo(start, |returned|);
    forall i | 0 <= i < |returned|
      ensures returned[i] == Some(h[((start + i) % 0x1_0000_0000_0000_0000) % |h|])
    {
      CounterIsModulo(start, i);
    }
  }

  lemma NextCounter(start: nat, i: nat)
    ensures Counter(start, i + 1) == Counter(Counter(start, i), 1)
  {
    assert Counter(Counter(start, i), 0) == Counter(start, i);
  }

  lemma {:induction false} CounterIsModulo(start: nat, k: nat)
    requires start < WORD
    ensures Counter(start, k) == (start + k) % 0x1_0000_0000_0000_0000
  {
    if k > 0 {
      var before := start + (k - 1);
      CounterIsModulo(start, k - 1);
      NextRemainder(before, WORD);
      NextRemainder(before % WORD, WORD);
      DivModUnique(before % WORD, WORD, 0, before % WORD);
    }
  }

  /** A rotation of whole rounds returns every endpoint once a round, with the wrap of the counter as the only limit. */
  lemma RotationIsFair(h: seq<Endpoint>, start: nat, returned: seq<Option<Endpoint>>, rounds: nat, v: nat)
    requires h != [] && Distinct(h) && v < |h| <= WORD && start < WORD
    requires |returned| == rounds * |h| && IsRotation(h, start, returned)
    requires start + |returned| <= WORD || WORD % |h| == 0
    ensures TimesReturned(returned, h[v]) == rounds
  {
    var loads := seq(|h|, _ => 0);
    var picks := Rotation(start, loads, |returned|);
    forall i | 0 <= i < |picks|
      ensures picks[i] < |h| && returned[i] == Some(h[picks[i]])
    {
      RotationAt(start, loads, |returned|, i);
      CounterIsModulo(start, i);
    }
    ReturnedLikePicked(h, picks, returned, v);
    if start + |returned| <= WORD {
      FairBetweenWraps(start, loads, rounds, v);
    } else {
      AlwaysFairIff(loads);
      assert CountOf(Rotation(start, loads, rounds * |loads|), v) == rounds;
    }
  }

  lemma {:induction false} RotationAt(start: nat, loads: seq<nat>, k: nat, i: nat)
    requires loads != [] && i < k
    ensures Rotation(start, loads, k)[i] == Counter(start, i) % |loads|
  {
    if i < k - 1 {
      RotationAt(start, loads, k - 1, i);
    }
  }

  // ---------- least connections ----------

  /** The loads after `k` selections by least connections, each followed by an acquired connection. */
  function LoadsAfter(loads: seq<nat>, k: nat): (r: seq<nat>)
    requires loads != []
    ensures |r| == |loads|
  {
    if k == 0 then loads
    else
      var before := LoadsAfter(loads, k - 1);
      AfterAcquire(before)
  }

  function AfterAcquire(loads: seq<nat>): (r: seq<nat>)
    requires loads != []
    ensures |r| == |loads|
  {
    var i := LeastIndex(loads);
    loads[i := (loads[i] + 1) % WORD]
  }

  /** Whole rounds of `n` in `k`, and what is left over. */
  function Rounds(k: nat, n: nat): (p: (nat, nat))
    requires n > 0
    ensures p.1 < n
  {
    if k == 0 then (0, 0)
    else
      var (q, r) := Rounds(k - 1, n);
      if r == n - 1 then (q + 1, 0) else (q, r + 1)
  }

  lemma {:induction false} RoundsByDivision(k: nat, n: nat)
    requires n > 0
    ensures Rounds(k, n) == (k / n, k % n)
  {
    if k == 0 {
      DivModUnique(0, n, 0, 0);
    } else {
      RoundsByDivision(k - 1, n);
      NextRemainder(k - 1, n);
    }
  }

  /** The first `r` endpoints have one connection more than the others, which have `load`. */
  predicate Staircase(loads: seq<nat>, load: nat, r: nat) {
    forall i :: 0 <= i < |loads| ==> loads[i] == if i < r then load + 1 else load
  }

  lemma StaircaseLowest(loads: seq<nat>, load: nat, r: nat)
    requires r < |loads| && Staircase(loads, load, r)
    ensures LeastIndex(loads) == r
  {
    var i := LeastIndex(loads);
    assert loads[i] <= loads[r];
  }

  lemma StaircaseStep(loads: seq<nat>, load: nat, r: nat)
    requires r < |loads| && Staircase(loads, load, r) && load + 1 < WORD
    ensures if r == |loads| - 1 then Staircase(AfterAcquire(loads), load + 1, 0)
            else Staircase(AfterAcquire(loads), load, r + 1)
  {
    StaircaseLowest(loads, load, r);
    assert loads[r] == load;
  }

  lemma {:induction false} LoadsFormStaircase(loads: seq<nat>, load: nat, k: nat)
    requires loads != [] && Staircase(loads, load, 0) && load + Rounds(k, |loads|).0 + 1 < WORD
    ensures Staircase(LoadsAfter(loads, k), load + Rounds(k, |loads|).0, Rounds(k, |loads|).1)
  {
    if k > 0 {
      var (q, r) := Rounds(k - 1, |loads|);
      LoadsFormStaircase(loads, load, k - 1);
      StaircaseStep(LoadsAfter(loads, k - 1), load + q, r);
    }
  }

  /**
   From equal loads, with no releases, least connections goes round in order: selection number `k` picks
   position `k % n`, and no endpoint is ever more than one connection ahead of another.
   */
  lemma LeastConnectionsGoesRound(loads: seq<nat>, load: nat, k: nat)
    requires loads != [] && (forall i :: 0 <= i < |loads| ==> loads[i] == load)
    requires load + k / |loads| + 1 < WORD
    ensures var n, after := |loads|, LoadsAfter(loads, k);
            && Pick(LeastConnections, 0, 0, after) == k % n
            && forall i :: 0 <= i < n ==> after[i] == load + k / n + if i < k % n then 1 else 0
  {
    RoundsByDivision(k, |loads|);
    LoadsFormStaircase(loads, load, k);
    StaircaseLowest(LoadsAfter(loads, k), load + Rounds(k, |loads|).0, Rounds(k, |loads|).1);
  }

  // ---------- least connections through the breakers ----------

  /** The active connections of the endpoints. */
  type Connections = map<Endpoint, nat>

  function LoadsIn(c: Connections, healthy: seq<Endpoint>): (loads: seq<nat>)
    requires forall e <- healthy :: e in c
    ensures |loads| == |healthy|
    ensures forall i :: 0 <= i < |healthy| ==> loads[i] == c[healthy[i]]
  {
    seq(|healthy|, i requires 0 <= i < |healthy| => c[healthy[i]])
  }

  function Acquire(c: Connections, e: Option<Endpoint>): Connections {
    if e.Some? && e.value in c then c[e.value := (c[e.value] + 1) % WORD] else c
  }

  /** The breakers and connections in the course of a run. */
  datatype Balance = Balance(breakers: Breakers, connections: Connections)

  ghost predicate Covers(r: Balance, healthy: seq<Endpoint>) {
    (forall e <- healthy :: e in r.breakers) && (forall e <- healthy :: e in r.connections)
  }

  ghost function LeastSelection(r: Balance, healthy: seq<Endpoint>, clock: Readings): Selected
    requires healthy != [] && Covers(r, healthy)
  {
    Selection(r.breakers, healthy, healthy[Pick(LeastConnections, 0, 0, LoadsIn(r.connections, healthy))], clock)
  }

  /** One selection by least connections, followed by a connection to the endpoint it returned. */
  ghost function AfterLeast(r: Balance, healthy: seq<Endpoint>, clock: Readings): (after: Balance)
    requires healthy != [] && Covers(r, healthy)
    ensures Covers(after, healthy)
  {
    var chosen := healthy[Pick(LeastConnections, 0, 0, LoadsIn(r.connections, healthy))];
    SelectionContract(r.breakers, healthy, chosen, clock);
    var s := LeastSelection(r, healthy, clock);
    Balance(s.breakers, Acquire(r.connections, s.endpoint))
  }

  /** After `k` selections. */
  ghost function LeastRun(r: Balance, healthy: seq<Endpoint>, times: nat -> Readings, k: nat): (after: Balance)
    requires healthy != [] && Covers(r, healthy)
    ensures Covers(after, healthy)
  {
    if k == 0 then r else AfterLeast(LeastRun(r, healthy, times, k - 1), healthy, times(k - 1))
  }

  lemma AcquireFollowsLoads(c: Connections, healthy: seq<Endpoint>)
    requires healthy != [] && Distinct(healthy) && forall e <- healthy :: e in c
    ensures var loads := LoadsIn(c, healthy);
            var after := Acquire(c, Some(healthy[LeastIndex(loads)]));
            (forall e <- healthy :: e in after) && LoadsIn(after, healthy) == AfterAcquire(loads)
  {
  }

  /** No breaker is open, and the endpoints have these loads. */
  ghost predicate Balanced(r: Balance, healthy: seq<Endpoint>, loads: seq<nat>) {
    Covers(r, healthy) && NoneOpen(r.breakers, healthy) && LoadsIn(r.connections, healthy) == loads
  }

  lemma LeastStep(r: Balance, healthy: seq<Endpoint>, loads: seq<nat>, clock: Readings)
    requires healthy != [] && Distinct(healthy) && Balanced(r, healthy, loads)
    ensures Balanced(AfterLeast(r, healthy, clock), healthy, AfterAcquire(loads))
    ensures LeastSelection(r, healthy, clock).endpoint == Some(healthy[LeastIndex(loads)])
  {
    ClosedBreakersAdmit(r.breakers, healthy, healthy[LeastIndex(loads)], clock);
    AcquireFollowsLoads(r.connections, healthy);
  }

  lemma StaysBalanced(
    r: Balance, healthy: seq<Endpoint>, loads: seq<nat>, clock: Readings, after: Balance, next: seq<nat>)
    requires healthy != [] && Distinct(healthy) && Balanced(r, healthy, loads)
    requires after == AfterLeast(r, healthy, clock) && next == AfterAcquire(loads)
    ensures Balanced(after, healthy, next)
  {
    LeastStep(r, healthy, loads, clock);
  }

  /** While no breaker is open, such a run changes the loads as selections without breakers do. */
  lemma {:induction false} LeastRunFollowsLoads(
    r: Balance, healthy: seq<Endpoint>, loads: seq<nat>, times: nat -> Readings, k: nat)
    requires healthy != [] && Distinct(healthy) && Balanced(r, healthy, loads)
    ensures Balanced(LeastRun(r, healthy, times, k), healthy, LoadsAfter(loads, k))
  {
    if k > 0 {
      LeastRunFollowsLoads(r, healthy, loads, times, k - 1);
      StaysBalanced(LeastRun(r, healthy, times, k - 1), healthy, LoadsAfter(loads, k - 1), times(k - 1),
                    LeastRun(r, healthy, times, k), LoadsAfter(loads, k));
    }
  }

  /**
   From equal loads, with no releases and no breaker open, selection number `k` by least connections returns
   endpoint number `k % n`, and no endpoint is ever more than one connection ahead of another.
   */
  lemma LeastConnectionsServesInTurn(
    r: Balance, healthy: seq<Endpoint>, times: nat -> Readings, load: nat, k: nat)
    requires healthy != [] && Distinct(healthy) && Covers(r, healthy) && NoneOpen(r.breakers, healthy)
    requires (forall e <- healthy :: r.connections[e] == load) && load + k / |healthy| + 1 < WORD
    ensures var n, before := |healthy|, LeastRun(r, healthy, times, k);
            && LeastSelection(before, healthy, times(k)).endpoint == Some(healthy[k % n])
            && forall i :: 0 <= i < n ==>
                 before.connections[healthy[i]] == load + k / n + if i < k % n then 1 else 0
  {
    var loads := LoadsIn(r.connections, healthy);
    LeastRunFollowsLoads(r, healthy, loads, times, k);
    LeastConnectionsGoesRound(loads, load, k);
    LeastStep(LeastRun(r, healthy, times, k), healthy, LoadsAfter(loads, k), times(k));
  }
}
