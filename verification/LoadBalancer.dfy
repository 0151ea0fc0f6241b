/**
 The load balancer of an upstream cluster: it picks among the healthy endpoints by policy and, when the
 breaker of the picked endpoint refuses, falls back to the first other endpoint whose breaker admits.
 */
module LoadBalancers {
  import opened Clock
  import opened CircuitBreakers
  import opened Wrappers

  datatype Policy = RoundRobin | LeastConnections | Random | ConsistentHash

  /** Counters are machine words and wrap around. */
  const WORD := 0x1_0000_0000_0000_0000

  const DEFAULT_BREAKER := Config(5, 30.0, 2)

  function PowerOfTwo(n: nat): nat {
    if n == 0 then 1 else 2 * PowerOfTwo(n - 1)
  }

  lemma {:induction false} PowerOfTwoAdds(m: nat, n: nat)
    ensures PowerOfTwo(m + n) == PowerOfTwo(m) * PowerOfTwo(n)
  {
    if m > 0 {
      PowerOfTwoAdds(m - 1, n);
      assert PowerOfTwo(m + n) == 2 * PowerOfTwo(m - 1 + n);
    }
  }

  /** A word has 64 bits. */
  lemma WordHas64Bits()
    ensures WORD == PowerOfTwo(64)
  {
    PowerOfTwoAdds(8, 8);
    PowerOfTwoAdds(16, 16);
    PowerOfTwoAdds(32, 32);
    assert PowerOfTwo(8) == 256;
  }

  class Endpoint {
    const address: string
    var activeConnections: nat
    var healthy: bool
    const breaker: CircuitBreaker

    constructor (address: string)
      ensures this.address == address && activeConnections == 0 && healthy
      ensures fresh(breaker) && breaker.View() == INITIAL
      ensures breaker.config.failureThreshold == 5 && breaker.config.successThreshold == 2
      ensures breaker.config.timeout == 30.0
    {
      this.address := address;
      activeConnections := 0;
      healthy := true;
      breaker := new CircuitBreaker(DEFAULT_BREAKER);
    }

    method AcquireConnection()
      modifies this`activeConnections
      ensures activeConnections == (old(activeConnections) + 1) % WORD
    {
      activeConnections := (activeConnections + 1) % WORD;
    }

    method ReleaseConnection()
      modifies this`activeConnections
      ensures activeConnections == (old(activeConnections) + WORD - 1) % WORD
    {
      activeConnections := (activeConnections + WORD - 1) % WORD;
    }
  }

  // ---------- choosing ----------

  /** The healthy endpoints, in order. */
  function Healthy(endpoints: seq<Endpoint>): (h: seq<Endpoint>)
    reads endpoints
    ensures forall i :: 0 <= i < |h| ==> h[i] in endpoints && h[i].healthy
    ensures forall e <- endpoints :: e.healthy ==> e in h
  {
    if endpoints == [] then []
    else
      var n := |endpoints| - 1;
      Healthy(endpoints[..n]) + if endpoints[n].healthy then [endpoints[n]] else []
  }

  /** `h` is what is at the rising positions of the list, and those are where it is healthy. */
  ghost predicate IsHealthyPart(endpoints: seq<Endpoint>, h: seq<Endpoint>, positions: seq<nat>)
    reads endpoints
  {
    && |positions| == |h|
    && (forall i :: 0 <= i < |h| ==> positions[i] < |endpoints| && h[i] == endpoints[positions[i]])
    && (forall i, j :: 0 <= i < j < |h| ==> positions[i] < positions[j])
    && (forall k: nat :: k < |endpoints| ==> (endpoints[k].healthy <==> k in positions))
  }

  lemma OneMoreEndpoint(endpoints: seq<Endpoint>, h: seq<Endpoint>, positions: seq<nat>, e: Endpoint)
    requires IsHealthyPart(endpoints, h, positions)
    ensures if e.healthy then IsHealthyPart(endpoints + [e], h + [e], positions + [|endpoints|])
            else IsHealthyPart(endpoints + [e], h, positions)
  {
  }

  /** The healthy endpoints are all of those in the list, and in its order. */
  lemma {:induction false} HealthyInOrder(endpoints: seq<Endpoint>) returns (positions: seq<nat>)
    ensures IsHealthyPart(endpoints, Healthy(endpoints), positions)
  {
    if endpoints == [] {
      positions := [];
    } else {
      var n := |endpoints| - 1;
      var front := endpoints[..n];
      positions := HealthyInOrder(front);
      OneMoreEndpoint(front, Healthy(front), positions, endpoints[n]);
      assert front + [endpoints[n]] == endpoints;
      if endpoints[n].healthy {
        positions := positions + [n];
      }
    }
  }

  function Loads(endpoints: seq<Endpoint>): (loads: seq<nat>)
    reads endpoints
    ensures |loads| == |endpoints|
    ensures forall i :: 0 <= i < |endpoints| ==> loads[i] == endpoints[i].activeConnections
  {
    if endpoints == [] then [] else [endpoints[0].activeConnections] + Loads(endpoints[1..])
  }

  /** The first position of the smallest load. */
  function LeastIndex(loads: seq<nat>): (i: nat)
    requires loads != []
    ensures i < |loads|
    ensures forall j :: 0 <= j < |loads| ==> loads[i] <= loads[j]
    ensures forall j :: 0 <= j < i ==> loads[i] < loads[j]
  {
    if |loads| == 1 then 0
    else
      var rest := LeastIndex(loads[1..]);
      if loads[0] <= loads[1..][rest] then 0 else rest + 1
  }

  predicate Rotates(policy: Policy) {
    policy == RoundRobin || policy == ConsistentHash
  }

  /** The position picked by the policy; `draw` is what the random generator yields. */
  function Pick(policy: Policy, nextIndex: nat, draw: nat, loads: seq<nat>): (i: nat)
    requires loads != []
    ensures i < |loads|
  {
    match policy
    case RoundRobin => nextIndex % |loads|
    case LeastConnections => LeastIndex(loads)
    case Random => draw % |loads|
    case ConsistentHash => nextIndex % |loads|
  }

  // ---------- asking the breakers ----------

  /** The breakers of the endpoints at one moment. */
  type Breakers = map<Endpoint, Breaker>

  ghost function BreakersOf(endpoints: seq<Endpoint>): (b: Breakers)
    reads set e <- endpoints :: e.breaker
  {
    map e | e in endpoints :: e.breaker.View()
  }

  /** The clock as the breaker of each endpoint reads it in the course of one selection. */
  type Readings = Endpoint -> Instant

  predicate Ready(b: Breakers, e: Endpoint, clock: Readings)
    requires e in b
  {
    Admits(e.breaker.config, b[e], clock(e))
  }

  function Ask(b: Breakers, e: Endpoint, clock: Readings): Breakers
    requires e in b
  {
    b[e := AfterRequest(e.breaker.config, b[e], clock(e))]
  }

  /** The outcome of a selection: the breakers after it and the endpoint a request gets. */
  datatype Selected = Selected(breakers: Breakers, endpoint: Option<Endpoint>)

  /** Asks the endpoints with another address in turn, until one lets the request through. */
  function AskedOthers(b: Breakers, endpoints: seq<Endpoint>, address: string, clock: Readings): Selected
    requires forall e <- endpoints :: e in b
  {
    if endpoints == [] then Selected(b, None)
    else
      var e := endpoints[0];
      if e.address == address then AskedOthers(b, endpoints[1..], address, clock)
      else if Ready(b, e, clock) then Selected(Ask(b, e, clock), Some(e))
      else AskedOthers(Ask(b, e, clock), endpoints[1..], address, clock)
  }

  function Selection(b: Breakers, healthy: seq<Endpoint>, chosen: Endpoint, clock: Readings): Selected
    requires chosen in healthy && forall e <- healthy :: e in b
  {
    if Ready(b, chosen, clock) then Selected(Ask(b, chosen, clock), Some(chosen))
    else AskedOthers(Ask(b, chosen, clock), healthy, chosen.address, clock)
  }

  /** Every endpoint has a breaker of its own. */
  predicate OwnBreakers(endpoints: seq<Endpoint>) {
    forall e, f | e in endpoints && f in endpoints && e != f :: e.breaker != f.breaker
  }

  /** Position `i` is the first with the fewest active connections. */
  predicate IsLeastLoaded(endpoints: seq<Endpoint>, i: nat)
    reads endpoints
  {
    && i < |endpoints|
    && (forall j :: 0 <= j < |endpoints| ==> endpoints[i].activeConnections <= endpoints[j].activeConnections)
    && (forall j :: 0 <= j < i ==> endpoints[i].activeConnections < endpoints[j].activeConnections)
  }

  /** No healthy endpoint has an open breaker. */
  predicate NoneTripped(endpoints: seq<Endpoint>)
    reads endpoints, set e <- endpoints :: e.breaker
  {
    forall e <- endpoints :: e.healthy ==> e.breaker.state != Open
  }

  /** A selection among breakers of which none is open returns the chosen endpoint and opens none. */
  lemma NoTripBySelection(b: Breakers, healthy: seq<Endpoint>, chosen: Endpoint, clock: Readings)
    requires chosen in healthy && forall e <- healthy :: e in b
    ensures var s := Selection(b, healthy, chosen, clock);
            (forall e <- healthy :: b[e].state != Open) ==>
              s.endpoint == Some(chosen)
              && forall e <- healthy :: e in s.breakers && s.breakers[e].state != Open
  {
  }

  class LoadBalancer {
    const endpoints: seq<Endpoint>
    const policy: Policy
    var nextIndex: nat

    constructor (endpoints: seq<Endpoint>, policy: Policy)
      ensures this.endpoints == endpoints && this.policy == policy && nextIndex == 0
    {
      this.endpoints := endpoints;
      this.policy := policy;
      this.nextIndex := 0;
    }

    /** The position the policy picks. */
    method PickFrom(h: seq<Endpoint>, draw: nat) returns (i: nat)
      requires h != []
      ensures match policy
              case LeastConnections => IsLeastLoaded(h, i)
              case Random => i == draw % |h|
              case _ => i == nextIndex % |h|
      ensures i < |h|
    {
      i := Pick(policy, nextIndex, draw, Loads(h));
    }

    /** Picks an endpoint; a rotating policy moves on to the next position. */
    method Choose(draw: nat) returns (e: Endpoint)
      requires Healthy(endpoints) != []
      modifies this`nextIndex
      ensures e in Healthy(endpoints) && e in endpoints
      ensures var h := Healthy(endpoints);
              match policy
              case LeastConnections => exists i: nat :: IsLeastLoaded(h, i) && e == h[i]
              case Random => e == h[draw % |h|]
              case _ => e == h[old(nextIndex) % |h|]
      ensures nextIndex ==
              if policy == RoundRobin || policy == ConsistentHash
              then (old(nextIndex) + 1) % 0x1_0000_0000_0000_0000 else old(nextIndex)
      ensures BreakersOf(endpoints) == old(BreakersOf(endpoints)) && Healthy(endpoints) == old(Healthy(endpoints))
      ensures NoneTripped(endpoints) == old(NoneTripped(endpoints))
    {
      var h := Healthy(endpoints);
      var i := PickFrom(h, draw);
      e := h[i];
      if Rotates(policy) {
        nextIndex := (nextIndex + 1) % WORD;
      }
    }

    /**
     A rotating policy picks by the counter and advances it, least connections the first endpoint with the fewest
     active connections, and random the one drawn; the breakers decide from there.
     */
    method Select(clock: Readings, draw: nat) returns (r: Option<Endpoint>)
      requires OwnBreakers(endpoints)
      modifies this`nextIndex, set e <- endpoints :: e.breaker
      ensures Healthy(endpoints) == old(Healthy(endpoints))
      ensures Healthy(endpoints) == [] ==>
                r == None && nextIndex == old(nextIndex) && BreakersOf(endpoints) == old(BreakersOf(endpoints))
      ensures var h := Healthy(endpoints);
              h != [] && (policy == RoundRobin || policy == ConsistentHash) ==>
                && Selected(BreakersOf(endpoints), r) ==
                   Selection(old(BreakersOf(endpoints)), h, h[old(nextIndex) % |h|], clock)
                && (old(NoneTripped(endpoints)) ==> r == Some(h[old(nextIndex) % |h|]))
                && nextIndex == (old(nextIndex) + 1) % 0x1_0000_0000_0000_0000
      ensures var h := Healthy(endpoints);
              h != [] && policy == LeastConnections ==>
                && nextIndex == old(nextIndex)
                && exists i: nat :: IsLeastLoaded(h, i)
                     && Selected(BreakersOf(endpoints), r) == Selection(old(BreakersOf(endpoints)), h, h[i], clock)
                     && (old(NoneTripped(endpoints)) ==> r == Some(h[i]))
      ensures var h := Healthy(endpoints);
              h != [] && policy == Random ==>
                && nextIndex == old(nextIndex)
                && Selected(BreakersOf(endpoints), r) ==
                   Selection(old(BreakersOf(endpoints)), h, h[draw % |h|], clock)
                && (old(NoneTripped(endpoints)) ==> r == Some(h[draw % |h|]))
      ensures old(NoneTripped(endpoints)) ==> NoneTripped(endpoints)
    {
      var healthy := Healthy(endpoints);
      if healthy == [] {
        return None;
      }
      var chosen := Choose(draw);
      r := AskHealthy(chosen, clock);
    }

    /** Asks the chosen endpoint and, if it refuses, the other healthy ones. */
    method AskHealthy(chosen: Endpoint, clock: Readings) returns (r: Option<Endpoint>)
      requires OwnBreakers(endpoints) && chosen in Healthy(endpoints)
      modifies set e <- endpoints :: e.breaker
      ensures Healthy(endpoints) == old(Healthy(endpoints))
      ensures Selected(BreakersOf(endpoints), r) ==
              Selection(old(BreakersOf(endpoints)), Healthy(endpoints), chosen, clock)
      ensures old(NoneTripped(endpoints)) ==> r == Some(chosen) && NoneTripped(endpoints)
    {
      var healthy := Healthy(endpoints);
      ghost var before := BreakersOf(endpoints);
      r := AskFrom(chosen, healthy, clock);
      assert Healthy(endpoints) == healthy;
      NoTripBySelection(before, healthy, chosen, clock);
      assert forall e <- endpoints :: BreakersOf(endpoints)[e].state == e.breaker.state;
    }

    method AskFrom(chosen: Endpoint, healthy: seq<Endpoint>, clock: Readings) returns (r: Option<Endpoint>)
      requires OwnBreakers(endpoints) && chosen in healthy && forall e <- healthy :: e in endpoints
      modifies set e <- endpoints :: e.breaker
      ensures Selected(BreakersOf(endpoints), r) == Selection(old(BreakersOf(endpoints)), healthy, chosen, clock)
    {
      var ok := AskOne(chosen, clock);
      if ok {
        return Some(chosen);
      }
      r := AskOthers(healthy, chosen.address, clock);
    }

    method AskOne(e: Endpoint, clock: Readings) returns (ok: bool)
      requires OwnBreakers(endpoints) && e in endpoints
      modifies e.breaker
      ensures ok == Ready(old(BreakersOf(endpoints)), e, clock)
      ensures BreakersOf(endpoints) == Ask(old(BreakersOf(endpoints)), e, clock)
    {
      ok := e.breaker.AllowRequest(clock(e));
    }

    method AskOthers(healthy: seq<Endpoint>, address: string, clock: Readings) returns (r: Option<Endpoint>)
      requires OwnBreakers(endpoints) && forall e <- healthy :: e in endpoints
      modifies set e <- endpoints :: e.breaker
      ensures Selected(BreakersOf(endpoints), r) == AskedOthers(old(BreakersOf(endpoints)), healthy, address, clock)
    {
      for k := 0 to |healthy|
        invariant AskedOthers(BreakersOf(endpoints), healthy[k..], address, clock) ==
                  AskedOthers(old(BreakersOf(endpoints)), healthy, address, clock)
      {
        var e := healthy[k];
        assert healthy[k..][0] == e && healthy[k..][1..] == healthy[k + 1..];
        if e.address != address {
          var ok := AskOne(e, clock);
          if ok {
            return Some(e);
          }
        }
      }
      return None;
    }
  }

  // ---------- what a selection guarantees ----------

  /** Breakers that differ in nothing but how often they were asked. */
  predicate SameCircuit(b: Breaker, c: Breaker) {
    b.(totalRequests := 0) == c.(totalRequests := 0)
  }

  predicate DistinctAddresses(endpoints: seq<Endpoint>) {
    forall i, j :: 0 <= i < j < |endpoints| ==> endpoints[i].address != endpoints[j].address
  }

  lemma {:induction false} HealthyStayDistinct(endpoints: seq<Endpoint>)
    requires DistinctAddresses(endpoints)
    ensures DistinctAddresses(Healthy(endpoints))
  {
    if endpoints != [] {
      var n := |endpoints| - 1;
      HealthyStayDistinct(endpoints[..n]);
      var front := Healthy(endpoints[..n]);
      forall i | 0 <= i < |front|
        ensures front[i].address != endpoints[n].address
      {
        assert front[i] in endpoints[..n];
      }
    }
  }

  /** The endpoint at position `i` has another address and would let a request through. */
  predicate CanServe(b: Breakers, endpoints: seq<Endpoint>, i: nat, address: string, clock: Readings)
    requires i < |endpoints| && forall e <- endpoints :: e in b
  {
    endpoints[i].address != address && Ready(b, endpoints[i], clock)
  }

  /** `e` is the first of the endpoints that can serve. */
  ghost predicate FirstToServe(b: Breakers, endpoints: seq<Endpoint>, e: Endpoint, address: string, clock: Readings)
    requires forall e <- endpoints :: e in b
  {
    exists i: nat :: i < |endpoints| && IsFirstAt(b, endpoints, e, i, address, clock)
  }

  predicate IsFirstAt(b: Breakers, endpoints: seq<Endpoint>, e: Endpoint, i: nat, address: string, clock: Readings)
    requires i < |endpoints| && forall e <- endpoints :: e in b
  {
    && endpoints[i] == e && CanServe(b, endpoints, i, address, clock)
    && forall j :: 0 <= j < i ==> !CanServe(b, endpoints, j, address, clock)
  }

  /** The fallback changes the state of no breaker but that of the endpoint it returns. */
  lemma {:induction false} FallbackKeepsOthers(b: Breakers, endpoints: seq<Endpoint>, address: string, clock: Readings)
    requires forall e <- endpoints :: e in b
    ensures var s := AskedOthers(b, endpoints, address, clock);
            s.breakers.Keys == b.Keys && forall e <- b ::
              SameCircuit(s.breakers[e],
                          if s.endpoint == Some(e) then AfterRequest(e.breaker.config, b[e], clock(e)) else b[e])
  {
    if endpoints != [] {
      var e, rest := endpoints[0], endpoints[1..];
      if e.address == address {
        FallbackKeepsOthers(b, rest, address, clock);
      } else if !Ready(b, e, clock) {
        FallbackKeepsOthers(Ask(b, e, clock), rest, address, clock);
      }
    }
  }

  /** The fallback returns the first endpoint that can serve, and none only if no endpoint can. */
  lemma {:induction false} FallbackPicksFirst(b: Breakers, endpoints: seq<Endpoint>, address: string, clock: Readings)
    requires forall e <- endpoints :: e in b
    ensures match AskedOthers(b, endpoints, address, clock).endpoint
            case None => forall i :: 0 <= i < |endpoints| ==> !CanServe(b, endpoints, i, address, clock)
            case Some(e) => FirstToServe(b, endpoints, e, address, clock)
  {
    if endpoints != [] {
      var rest := endpoints[1..];
      if CanServe(b, endpoints, 0, address, clock) {
        assert IsFirstAt(b, endpoints, endpoints[0], 0, address, clock);
      } else {
        var c := if endpoints[0].address == address then b else Ask(b, endpoints[0], clock);
        FallbackPicksFirst(c, rest, address, clock);
        assert forall i: nat :: i < |rest| ==>
          CanServe(c, rest, i, address, clock) == CanServe(b, endpoints, i + 1, address, clock);
        match AskedOthers(c, rest, address, clock).endpoint
        case None =>
          forall i | 0 < i < |endpoints|
            ensures !CanServe(b, endpoints, i, address, clock)
          {
            assert !CanServe(c, rest, i - 1, address, clock);
          }
        case Some(e) =>
          var k: nat :| k < |rest| && IsFirstAt(c, rest, e, k, address, clock);
          forall j | 0 < j < k + 1
            ensures !CanServe(b, endpoints, j, address, clock)
          {
            assert !CanServe(c, rest, j - 1, address, clock);
          }
          assert IsFirstAt(b, endpoints, e, k + 1, address, clock);
      }
    }
  }

  /** No breaker is asked twice when addresses are distinct, and those outside the list are not asked. */
  lemma {:induction false} FallbackAsksOnce(b: Breakers, endpoints: seq<Endpoint>, address: string, clock: Readings)
    requires DistinctAddresses(endpoints) && forall e <- endpoints :: e in b
    ensures var s := AskedOthers(b, endpoints, address, clock);
            s.breakers.Keys == b.Keys && forall e <- b ::
              b[e].totalRequests <= s.breakers[e].totalRequests
              <= b[e].totalRequests + if e in endpoints && e.address != address then 1 else 0
  {
    if endpoints != [] {
      var e, rest := endpoints[0], endpoints[1..];
      assert forall i :: 0 <= i < |rest| ==> rest[i] == endpoints[i + 1];
      if e.address == address {
        FallbackAsksOnce(b, rest, address, clock);
      } else if !Ready(b, e, clock) {
        FallbackAsksOnce(Ask(b, e, clock), rest, address, clock);
        assert e !in rest;
      }
    }
  }

  /**
   A selection returns the chosen endpoint if its breaker admits, else the first healthy endpoint with
   another address whose breaker admits, else none.  Only the breaker of the returned endpoint changes
   state, and it takes the request.
   */
  lemma SelectionContract(b: Breakers, healthy: seq<Endpoint>, chosen: Endpoint, clock: Readings)
    requires chosen in healthy && forall e <- healthy :: e in b
    ensures var s := Selection(b, healthy, chosen, clock);
            && (s.endpoint.Some? ==> s.endpoint.value in healthy && Ready(b, s.endpoint.value, clock))
            && (Ready(b, chosen, clock) ==> s.endpoint == Some(chosen))
            && (!Ready(b, chosen, clock) && s.endpoint.Some? ==>
                  FirstToServe(b, healthy, s.endpoint.value, chosen.address, clock))
            && (s.endpoint.None? <==> (!Ready(b, chosen, clock)
                  && forall e <- healthy :: e.address == chosen.address || !Ready(b, e, clock)))
            && s.breakers.Keys == b.Keys
            && (forall e <- b :: SameCircuit(s.breakers[e],
                  if s.endpoint == Some(e) then AfterRequest(e.breaker.config, b[e], clock(e)) else b[e]))
  {
    if !Ready(b, chosen, clock) {
      var c, a := Ask(b, chosen, clock), chosen.address;
      FallbackKeepsOthers(c, healthy, a, clock);
      FallbackPicksFirst(c, healthy, a, clock);
      assert forall i: nat :: i < |healthy| ==> CanServe(c, healthy, i, a, clock) == CanServe(b, healthy, i, a, clock);
      match AskedOthers(c, healthy, a, clock).endpoint
      case None =>
        forall e | e in healthy
          ensures e.address == a || !Ready(b, e, clock)
        {
          var i: nat :| i < |healthy| && healthy[i] == e;
          assert !CanServe(c, healthy, i, a, clock);
        }
      case Some(e) =>
        var i: nat :| i < |healthy| && IsFirstAt(c, healthy, e, i, a, clock);
        assert IsFirstAt(b, healthy, e, i, a, clock);
    }
  }

  /** With distinct addresses a selection asks each healthy breaker at most once, and no other. */
  lemma SelectionAsksOnce(b: Breakers, healthy: seq<Endpoint>, chosen: Endpoint, clock: Readings)
    requires DistinctAddresses(healthy) && chosen in healthy && forall e <- healthy :: e in b
    ensures var s := Selection(b, healthy, chosen, clock);
            s.breakers.Keys == b.Keys && forall e <- b ::
              b[e].totalRequests <= s.breakers[e].totalRequests <= b[e].totalRequests + if e in healthy then 1 else 0
  {
    FallbackAsksOnce(Ask(b, chosen, clock), healthy, chosen.address, clock);
  }

  /** The fallback asks an endpoint exactly if it has another address and none before it could serve. */
  predicate IsAsked(b: Breakers, endpoints: seq<Endpoint>, i: nat, address: string, clock: Readings)
    requires i < |endpoints| && forall e <- endpoints :: e in b
  {
    endpoints[i].address != address && forall j: nat :: j < i ==> !CanServe(b, endpoints, j, address, clock)
  }

  lemma AskedLater(b: Breakers, c: Breakers, endpoints: seq<Endpoint>, i: nat, address: string, clock: Readings)
    requires 0 < i < |endpoints| && (forall e <- endpoints :: e in b) && !CanServe(b, endpoints, 0, address, clock)
    requires forall e <- endpoints[1..] :: e in c && c[e] == b[e]
    ensures IsAsked(c, endpoints[1..], i - 1, address, clock) <==> IsAsked(b, endpoints, i, address, clock)
  {
    var rest := endpoints[1..];
    assert forall j: nat :: j < i - 1 ==>
      CanServe(c, rest, j, address, clock) == CanServe(b, endpoints, j + 1, address, clock);
    if IsAsked(c, rest, i - 1, address, clock) {
      forall j: nat | j < i
        ensures !CanServe(b, endpoints, j, address, clock)
      {
        if j > 0 {
          assert !CanServe(c, rest, j - 1, address, clock);
        }
      }
    }
  }

  lemma {:induction false} FallbackAsksExactly(
    b: Breakers, endpoints: seq<Endpoint>, address: string, clock: Readings, i: nat)
    requires DistinctAddresses(endpoints) && (forall e <- endpoints :: e in b) && i < |endpoints|
    ensures var s, e := AskedOthers(b, endpoints, address, clock), endpoints[i];
            && e in s.breakers
            && s.breakers[e].totalRequests ==
               b[e].totalRequests + if IsAsked(b, endpoints, i, address, clock) then 1 else 0
  {
    var first, rest := endpoints[0], endpoints[1..];
    assert forall j :: 0 <= j < |rest| ==> rest[j] == endpoints[j + 1];
    assert first !in rest;
    FallbackAsksOnce(b, endpoints, address, clock);
    if CanServe(b, endpoints, 0, address, clock) {
      assert i > 0 ==> !IsAsked(b, endpoints, i, address, clock) && endpoints[i] != first;
    } else {
      var c := if first.address == address then b else Ask(b, first, clock);
      FallbackAsksOnce(c, rest, address, clock);
      if i > 0 {
        AskedLater(b, c, endpoints, i, address, clock);
        FallbackAsksExactly(c, rest, address, clock, i - 1);
      }
    }
  }

  /**
   With distinct addresses a selection asks the chosen endpoint once and, if it refuses, each other one up to and
   including the first that admits, once; it asks no other.
   */
  lemma SelectionAsksExactly(b: Breakers, healthy: seq<Endpoint>, chosen: Endpoint, clock: Readings, i: nat)
    requires DistinctAddresses(healthy) && chosen in healthy && (forall e <- healthy :: e in b) && i < |healthy|
    ensures var s, e := Selection(b, healthy, chosen, clock), healthy[i];
            && e in s.breakers
            && s.breakers[e].totalRequests == b[e].totalRequests
               + if e == chosen || (!Ready(b, chosen, clock) && IsAsked(b, healthy, i, chosen.address, clock))
                 then 1 else 0
  {
    var c, a := Ask(b, chosen, clock), chosen.address;
    var k: nat :| k < |healthy| && healthy[k] == chosen;
    FallbackAsksExactly(c, healthy, a, clock, i);
    assert forall j: nat :: j < |healthy| ==> CanServe(c, healthy, j, a, clock) == CanServe(b, healthy, j, a, clock);
  }
}
