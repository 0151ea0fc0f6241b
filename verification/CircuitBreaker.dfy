/**
 The circuit breaker, one call at a time: the object updated in place, what each call does to its value,
 and what whole runs of calls guarantee.
 */
module CircuitBreakers {
  import opened Clock
  import opened Wrappers

  datatype State = Closed | Open | HalfOpen

  datatype Config = Config(failureThreshold: nat, timeout: Duration, successThreshold: nat)

  datatype Breaker = Breaker(
    state: State,
    failureCount: nat,
    successCount: nat,
    lastFailureTime: Option<Instant>,
    totalRequests: nat,
    totalFailures: nat)

  const INITIAL := Breaker(Closed, 0, 0, None, 0, 0)

  /** The test an open breaker makes before it lets a request probe the service. */
  predicate TimeoutElapsed(cfg: Config, lastFailure: Option<Instant>, now: Instant) {
    lastFailure.Some? && Elapsed(now, lastFailure.value) >= cfg.timeout
  }

  predicate Admits(cfg: Config, b: Breaker, now: Instant) {
    b.state != Open || TimeoutElapsed(cfg, b.lastFailureTime, now)
  }

  function AfterRequest(cfg: Config, b: Breaker, now: Instant): Breaker {
    var c := b.(totalRequests := b.totalRequests + 1);
    if b.state == Open && Admits(cfg, b, now) then c.(state := HalfOpen, successCount := 0) else c
  }

  function AfterSuccess(cfg: Config, b: Breaker): Breaker {
    match b.state
    case HalfOpen =>
      if b.successCount + 1 >= cfg.successThreshold
      then b.(state := Closed, failureCount := 0, successCount := 0)
      else b.(successCount := b.successCount + 1)
    case Closed => b.(failureCount := 0)
    case Open => b
  }

  function AfterFailure(cfg: Config, b: Breaker, now: Instant): Breaker {
    var c := b.(totalFailures := b.totalFailures + 1);
    match b.state
    case Closed =>
      if b.failureCount + 1 >= cfg.failureThreshold
      then c.(failureCount := b.failureCount + 1, state := Open, lastFailureTime := Some(now))
      else c.(failureCount := b.failureCount + 1)
    case HalfOpen => c.(state := Open, lastFailureTime := Some(now), failureCount := 0, successCount := 0)
    case Open => c.(lastFailureTime := Some(now))
  }

  function AfterReset(b: Breaker): Breaker {
    b.(state := Closed, failureCount := 0, successCount := 0, lastFailureTime := None)
  }

  class CircuitBreaker {
    var state: State
    var failureCount: nat
    var successCount: nat
    var lastFailureTime: Option<Instant>
    const config: Config
    var totalRequests: nat
    var totalFailures: nat

    ghost function View(): Breaker
      reads this
    {
      Breaker(state, failureCount, successCount, lastFailureTime, totalRequests, totalFailures)
    }

    constructor (config: Config)
      ensures View() == INITIAL && this.config == config
    {
      this.state := Closed;
      this.failureCount, this.successCount := 0, 0;
      this.lastFailureTime := None;
      this.config := config;
      this.totalRequests, this.totalFailures := 0, 0;
    }

    method AllowRequest(now: Instant) returns (allowed: bool)
      modifies this
      ensures allowed == Admits(config, old(View()), now)
      ensures View() == AfterRequest(config, old(View()), now)
    {
      totalRequests := totalRequests + 1;
      match state
      case Closed => return true;
      case Open =>
        if lastFailureTime.Some? && Elapsed(now, lastFailureTime.value) >= config.timeout {
          state := HalfOpen;
          successCount := 0;
          return true;
        }
        return false;
      case HalfOpen => return true;
    }

    method RecordSuccess()
      modifies this
      ensures View() == AfterSuccess(config, old(View()))
    {
      match state
      case HalfOpen =>
        successCount := successCount + 1;
        if successCount >= config.successThreshold {
          state := Closed;
          failureCount := 0;
          successCount := 0;
        }
      case Closed => failureCount := 0;
      case Open =>
    }

    method RecordFailure(now: Instant)
      modifies this
      ensures View() == AfterFailure(config, old(View()), now)
    {
      totalFailures := totalFailures + 1;
      match state
      case Closed =>
        failureCount := failureCount + 1;
        if failureCount >= config.failureThreshold {
          state := Open;
          lastFailureTime := Some(now);
        }
      case HalfOpen =>
        state := Open;
        lastFailureTime := Some(now);
        failureCount := 0;
        successCount := 0;
      case Open => lastFailureTime := Some(now);
    }

    method Reset()
      modifies this
      ensures View() == AfterReset(old(View()))
    {
      state := Closed;
      failureCount := 0;
      successCount := 0;
      lastFailureTime := None;
    }
  }

  // ---------- runs of calls ----------

  datatype Op = Request | Success | Failure | Reset

  datatype Event = Event(op: Op, time: Instant)

  function After(cfg: Config, b: Breaker, e: Event): Breaker {
    match e.op
    case Request => AfterRequest(cfg, b, e.time)
    case Success => AfterSuccess(cfg, b)
    case Failure => AfterFailure(cfg, b, e.time)
    case Reset => AfterReset(b)
  }

  /** A new breaker after the events. */
  function AfterTrace(cfg: Config, trace: seq<Event>): Breaker {
    if trace == [] then INITIAL
    else After(cfg, AfterTrace(cfg, trace[..|trace| - 1]), trace[|trace| - 1])
  }

  // ---------- the specification: the state from the events alone, without any counter ----------

  function Count(op: Op, trace: seq<Event>): nat {
    if trace == [] then 0
    else Count(op, trace[..|trace| - 1]) + if trace[|trace| - 1].op == op then 1 else 0
  }

  /** Failures with no success after them. */
  function FailuresInARow(trace: seq<Event>): nat {
    if trace == [] then 0
    else
      var before := FailuresInARow(trace[..|trace| - 1]);
      match trace[|trace| - 1].op
      case Failure => before + 1
      case Success => 0
      case _ => before
  }

  function LatestFailure(trace: seq<Event>): Option<Instant> {
    if trace == [] then None
    else
      var e := trace[|trace| - 1];
      if e.op == Failure then Some(e.time) else LatestFailure(trace[..|trace| - 1])
  }

  /** How the breaker came to be closed, or open and perhaps half-open since. */
  datatype Origin = Cleared | Recovered | Tripped | Reopened

  /** A stretch of the trace spent in one state: it begins after event number `since - 1`. */
  datatype Phase = Phase(state: State, since: nat, origin: Origin)

  /** The phase a trace ends in, from the events since the phase began and the latest failure. */
  function PhaseAfter(cfg: Config, trace: seq<Event>): (p: Phase)
    ensures p.since <= |trace|
  {
    if trace == [] then Phase(Closed, 0, Cleared)
    else
      var n := |trace|;
      var e, p := trace[n - 1], PhaseAfter(cfg, trace[..n - 1]);
      var stretch := trace[p.since..];
      match e.op
      case Reset => Phase(Closed, n, Cleared)
      case Request =>
        if p.state == Open && TimeoutElapsed(cfg, LatestFailure(trace), e.time) then Phase(HalfOpen, n, p.origin) else p
      case Success =>
        if p.state == HalfOpen && Count(Success, stretch) >= cfg.successThreshold
        then Phase(Closed, n, Recovered) else p
      case Failure =>
        if p.state == HalfOpen then Phase(Open, n, Reopened)
        else if p.state == Closed && FailuresInARow(stretch) >= cfg.failureThreshold then Phase(Open, n, Tripped)
        else p
  }

  function AtLeastOne(threshold: nat): nat {
    if threshold == 0 then 1 else threshold
  }

  /** The failures in a row while closed; after a trip, the failures that caused it; after a reopening, none. */
  function FailuresBy(cfg: Config, p: Phase, trace: seq<Event>): nat
    requires p.since <= |trace|
  {
    if p.state == Closed then FailuresInARow(trace[p.since..])
    else if p.origin == Tripped then AtLeastOne(cfg.failureThreshold)
    else 0
  }

  /** The latest failure unless closed; then the one the breaker recovered from, if it was not cleared. */
  function FailureTimeBy(p: Phase, trace: seq<Event>): Option<Instant>
    requires p.since <= |trace|
  {
    if p.state != Closed then LatestFailure(trace)
    else if p.origin == Cleared then None
    else LatestFailure(trace[..p.since])
  }

  /** The whole breaker as the events alone determine it. */
  function BreakerBy(cfg: Config, trace: seq<Event>): Breaker {
    var p := PhaseAfter(cfg, trace);
    Breaker(p.state, FailuresBy(cfg, p, trace), if p.state == HalfOpen then Count(Success, trace[p.since..]) else 0,
            FailureTimeBy(p, trace), Count(Request, trace), Count(Failure, trace))
  }

  /** The breaker after any run is the one the trace specifies: state, counters, failure time and statistics. */
  lemma {:induction false} TraceRefinement(cfg: Config, trace: seq<Event>)
    ensures AfterTrace(cfg, trace) == BreakerBy(cfg, trace)
    ensures var b := AfterTrace(cfg, trace);
            && (b.state == Open ==> b.lastFailureTime.Some?)
            && (b.state == Closed ==> b.failureCount < AtLeastOne(cfg.failureThreshold))
  {
    if trace != [] {
      var n := |trace| - 1;
      var front := trace[..n];
      var p := PhaseAfter(cfg, front);
      TraceRefinement(cfg, front);
      StretchGrows(trace, p.since);
      assert front[..p.since] == trace[..p.since];
      assert trace[..n + 1] == trace;
    }
  }

  lemma StretchGrows(trace: seq<Event>, since: nat)
    requires since < |trace|
    ensures var n := |trace| - 1;
            var stretch, before, op := trace[since..], trace[..n][since..], trace[n].op;
            && Count(Success, stretch) == Count(Success, before) + (if op == Success then 1 else 0)
            && FailuresInARow(stretch) == if op == Failure then FailuresInARow(before) + 1
                                          else if op == Success then 0
                                          else FailuresInARow(before)
  {
    var n := |trace| - 1;
    assert trace[since..][..n - since] == trace[..n][since..];
    assert trace[since..][n - since] == trace[n];
  }

  /** The counters never run past their thresholds, so they cannot overflow. */
  lemma {:induction false} CountersStayBelowThresholds(cfg: Config, trace: seq<Event>)
    ensures var b := AfterTrace(cfg, trace);
            && (b.state == Closed ==> b.failureCount < AtLeastOne(cfg.failureThreshold))
            && b.failureCount <= AtLeastOne(cfg.failureThreshold)
            && b.successCount < AtLeastOne(cfg.successThreshold)
  {
    if trace != [] {
      CountersStayBelowThresholds(cfg, trace[..|trace| - 1]);
      TraceRefinement(cfg, trace[..|trace| - 1]);
    }
  }

  ghost predicate InTimeOrder(trace: seq<Event>) {
    forall i, j :: 0 <= i < j < |trace| ==> trace[i].time <= trace[j].time
  }

  /** While open, a request is admitted exactly when the timeout has passed since the latest failure. */
  lemma {:induction false} OpenAdmitsOnlyAfterTimeout(cfg: Config, trace: seq<Event>, now: Instant)
    requires AfterTrace(cfg, trace).state == Open
    ensures LatestFailure(trace).Some?
    ensures Admits(cfg, AfterTrace(cfg, trace), now) <==> Elapsed(now, LatestFailure(trace).value) >= cfg.timeout
  {
    TraceRefinement(cfg, trace);
  }

  /** A half-open breaker admits every request, however many come and whenever; none of them changes its state. */
  lemma {:induction false} HalfOpenAdmitsAll(cfg: Config, trace: seq<Event>, requests: seq<Event>, now: Instant)
    requires AfterTrace(cfg, trace).state == HalfOpen
    requires forall i :: 0 <= i < |requests| ==> requests[i].op == Request
    ensures var b := AfterTrace(cfg, trace + requests);
            b.state == HalfOpen && Admits(cfg, b, now) && b.successCount == AfterTrace(cfg, trace).successCount
  {
    if requests == [] {
      assert trace + requests == trace;
    } else {
      var n := |requests| - 1;
      HalfOpenAdmitsAll(cfg, trace, requests[..n], now);
      assert (trace + requests)[..|trace| + n] == trace + requests[..n];
    }
  }

  /** Event number `i` takes the breaker from one state to another. */
  predicate Moves(cfg: Config, trace: seq<Event>, i: nat, from: State, to: State)
    requires i < |trace|
  {
    AfterTrace(cfg, trace[..i]).state == from && AfterTrace(cfg, trace[..i + 1]).state == to
  }

  /** Open, it carries the time of a failure no earlier than `since`. */
  predicate FailedSince(b: Breaker, since: Instant) {
    b.state == Open ==> b.lastFailureTime.Some? && b.lastFailureTime.value >= since
  }

  lemma EventKeepsFailedSince(cfg: Config, b: Breaker, e: Event, since: Instant)
    requires FailedSince(b, since) && e.time >= since
    ensures FailedSince(After(cfg, b, e), since)
  {
  }

  /** Whenever the breaker is open after a probe began, the failure it waits on came after that probe. */
  lemma {:induction false} ProbeBeforeFailure(cfg: Config, trace: seq<Event>, i: nat)
    requires InTimeOrder(trace) && i < |trace| && Moves(cfg, trace, i, Open, HalfOpen)
    ensures FailedSince(AfterTrace(cfg, trace), trace[i].time)
  {
    var n := |trace| - 1;
    if i < n {
      var front := trace[..n];
      assert front[..i] == trace[..i] && front[..i + 1] == trace[..i + 1];
      ProbeBeforeFailure(cfg, front, i);
      EventKeepsFailedSince(cfg, AfterTrace(cfg, front), trace[n], trace[i].time);
    } else {
      assert trace[..i + 1] == trace;
    }
  }

  /** Two entries to half-open are at least the timeout apart, resets included. */
  lemma ProbesAreSpaced(cfg: Config, trace: seq<Event>, i: nat, j: nat)
    requires InTimeOrder(trace) && i < j < |trace|
    requires Moves(cfg, trace, i, Open, HalfOpen) && Moves(cfg, trace, j, Open, HalfOpen)
    ensures trace[j].time - trace[i].time >= cfg.timeout
  {
    var front := trace[..j];
    assert front[..i] == trace[..i] && front[..i + 1] == trace[..i + 1];
    assert trace[..j + 1][..j] == front;
    ProbeBeforeFailure(cfg, front, i);
  }

  /** Number of moves from one state to another in a run. */
  function MoveCount(cfg: Config, trace: seq<Event>, from: State, to: State): nat {
    if trace == [] then 0
    else
      var n := |trace| - 1;
      MoveCount(cfg, trace[..n], from, to)
      + if AfterTrace(cfg, trace[..n]).state == from && AfterTrace(cfg, trace).state == to then 1 else 0
  }

  /** The failures needed for a number of trips. */
  function TripCost(cfg: Config, trips: nat): nat {
    if trips == 0 then 0 else TripCost(cfg, trips - 1) + cfg.failureThreshold
  }

  lemma {:induction false} TripCostIsProduct(cfg: Config, trips: nat)
    ensures TripCost(cfg, trips) == cfg.failureThreshold * trips
  {
    if trips > 0 {
      TripCostIsProduct(cfg, trips - 1);
      assert cfg.failureThreshold * trips == cfg.failureThreshold * (trips - 1) + cfg.failureThreshold;
    }
  }

  lemma {:induction false} FailuresCoverTrips(cfg: Config, trace: seq<Event>)
    ensures var b := AfterTrace(cfg, trace);
            TripCost(cfg, MoveCount(cfg, trace, Closed, Open)) + MoveCount(cfg, trace, HalfOpen, Open)
            + (if b.state == Closed then b.failureCount else 0)
            <= b.totalFailures
  {
    if trace != [] {
      FailuresCoverTrips(cfg, trace[..|trace| - 1]);
    }
  }

  /** Every trip is paid for by `failureThreshold` failures and every reopening by one, none counted twice. */
  lemma TripsArePaidFor(cfg: Config, trace: seq<Event>)
    ensures cfg.failureThreshold * MoveCount(cfg, trace, Closed, Open) + MoveCount(cfg, trace, HalfOpen, Open)
            <= AfterTrace(cfg, trace).totalFailures == Count(Failure, trace)
  {
    FailuresCoverTrips(cfg, trace);
    TripCostIsProduct(cfg, MoveCount(cfg, trace, Closed, Open));
    TraceRefinement(cfg, trace);
  }
}
