/**
 The circuit breaker under concurrency: every call is broken into its atomic steps, each of which reads or
 writes one shared cell, and any number of tasks interleave them freely.  A call takes no lock across steps,
 and whoever awaits it may drop it wherever it waits.
 */
module BreakerSteps {
  import opened CircuitBreakers
  import opened Clock
  import opened Wrappers

  /** Where a task is: between calls, or about to perform the named step of one. */
  datatype Pc =
    | Idle
    | Returned(admitted: bool)
      // a request asking to be let through
    | RequestCount | RequestRead | RequestCheck | RequestProbe | RequestZeroSuccesses
      // recording a success
    | SuccessRead | SuccessAdd | CloseWrite | CloseZeroFailures | CloseZeroSuccesses | SuccessZeroFailures
      // recording a failure; the clock is read before the lock on the time is taken
    | FailureCount | FailureRead | FailureAdd
    | TripWrite | TripStamp | TripTime(at: Instant)
    | ReopenWrite | ReopenStamp | ReopenTime(at: Instant) | ReopenZeroFailures | ReopenZeroSuccesses
    | OpenStamp | OpenTime(at: Instant)
      // resetting
    | ResetWrite | ResetZeroFailures | ResetZeroSuccesses | ResetTime

  predicate Resting(pc: Pc) {
    pc.Idle? || pc.Returned?
  }

  /** The call has not begun to run, or waits for a lock: here it can be dropped. */
  predicate Suspended(pc: Pc) {
    || pc.RequestCount? || pc.RequestRead? || pc.RequestCheck? || pc.RequestProbe?
    || pc.SuccessRead? || pc.CloseWrite?
    || pc.FailureCount? || pc.FailureRead? || pc.TripWrite? || pc.TripTime?
    || pc.ReopenWrite? || pc.ReopenTime? || pc.OpenTime?
    || pc.ResetWrite? || pc.ResetTime?
  }

  function FirstStep(op: Op): Pc {
    match op
    case Request => RequestCount
    case Success => SuccessRead
    case Failure => FailureCount
    case Reset => ResetWrite
  }

  /** One atomic step of a task, at clock reading `now`. */
  function Advance(cfg: Config, b: Breaker, pc: Pc, now: Instant): (Breaker, Pc) {
    match pc
    case Idle => (b, pc)
    case Returned(_) => (b, pc)

    case RequestCount => (b.(totalRequests := b.totalRequests + 1), RequestRead)
    case RequestRead => (b, if b.state == Open then RequestCheck else Returned(true))
    case RequestCheck => (b, if TimeoutElapsed(cfg, b.lastFailureTime, now) then RequestProbe else Returned(false))
    case RequestProbe => (b.(state := HalfOpen), RequestZeroSuccesses)
    case RequestZeroSuccesses => (b.(successCount := 0), Returned(true))

    case SuccessRead =>
      (b, match b.state case HalfOpen => SuccessAdd case Closed => SuccessZeroFailures case Open => Idle)
    case SuccessAdd =>
      (b.(successCount := b.successCount + 1), if b.successCount + 1 >= cfg.successThreshold then CloseWrite else Idle)
    case CloseWrite => (b.(state := Closed), CloseZeroFailures)
    case CloseZeroFailures => (b.(failureCount := 0), CloseZeroSuccesses)
    case CloseZeroSuccesses => (b.(successCount := 0), Idle)
    case SuccessZeroFailures => (b.(failureCount := 0), Idle)

    case FailureCount => (b.(totalFailures := b.totalFailures + 1), FailureRead)
    case FailureRead =>
      (b, match b.state case Closed => FailureAdd case HalfOpen => ReopenWrite case Open => OpenStamp)
    case FailureAdd =>
      (b.(failureCount := b.failureCount + 1), if b.failureCount + 1 >= cfg.failureThreshold then TripWrite else Idle)
    case TripWrite => (b.(state := Open), TripStamp)
    case TripStamp => (b, TripTime(now))
    case TripTime(at) => (b.(lastFailureTime := Some(at)), Idle)
    case ReopenWrite => (b.(state := Open), ReopenStamp)
    case ReopenStamp => (b, ReopenTime(now))
    case ReopenTime(at) => (b.(lastFailureTime := Some(at)), ReopenZeroFailures)
    case ReopenZeroFailures => (b.(failureCount := 0), ReopenZeroSuccesses)
    case ReopenZeroSuccesses => (b.(successCount := 0), Idle)
    case OpenStamp => (b, OpenTime(now))
    case OpenTime(at) => (b.(lastFailureTime := Some(at)), Idle)

    case ResetWrite => (b.(state := Closed), ResetZeroFailures)
    case ResetZeroFailures => (b.(failureCount := 0), ResetZeroSuccesses)
    case ResetZeroSuccesses => (b.(successCount := 0), ResetTime)
    case ResetTime => (b.(lastFailureTime := None), Idle)
  }

  datatype System = System(breaker: Breaker, tasks: seq<Pc>)

  datatype Action = Begin(task: nat, op: Op) | Step(task: nat, now: Instant) | Drop(task: nat)

  /** An action of a task that does not exist, or that is not in a position to take it, does nothing. */
  function Perform(cfg: Config, s: System, a: Action): (r: System)
    ensures |r.tasks| == |s.tasks|
    ensures forall i :: 0 <= i < |s.tasks| && i != a.task ==> r.tasks[i] == s.tasks[i]
  {
    if a.task >= |s.tasks| then s
    else
      match a
      case Begin(i, op) => if Resting(s.tasks[i]) then s.(tasks := s.tasks[i := FirstStep(op)]) else s
      case Step(i, now) =>
        var (b, pc) := Advance(cfg, s.breaker, s.tasks[i], now);
        System(b, s.tasks[i := pc])
      case Drop(i) => if Suspended(s.tasks[i]) then s.(tasks := s.tasks[i := Idle]) else s
  }

  function Execute(cfg: Config, s: System, run: seq<Action>): (r: System)
    ensures |r.tasks| == |s.tasks|
    decreases |run|
  {
    if run == [] then s else Execute(cfg, Perform(cfg, s, run[0]), run[1..])
  }

  function Start(taskCount: nat): System {
    System(INITIAL, seq(taskCount, _ => Idle))
  }

  ghost predicate AtRest(s: System) {
    forall i :: 0 <= i < |s.tasks| ==> Resting(s.tasks[i])
  }

  lemma {:induction false} ExecuteConcat(cfg: Config, s: System, first: seq<Action>, second: seq<Action>)
    ensures Execute(cfg, s, first + second) == Execute(cfg, Execute(cfg, s, first), second)
    decreases |first|
  {
    if first == [] {
      assert first + second == second;
    } else {
      assert (first + second)[1..] == first[1..] + second;
      ExecuteConcat(cfg, Perform(cfg, s, first[0]), first[1..], second);
    }
  }

  // ---------- what the steps are ----------

  /** Each step of the path leads to the next. */
  ghost predicate IsPath(cfg: Config, path: seq<(Breaker, Pc)>, now: Instant) {
    forall i :: 0 <= i < |path| - 1 ==> Advance(cfg, path[i].0, path[i].1, now) == path[i + 1]
  }

  /** A failure that opens or redates the breaker writes its cells one by one, in the order of the program. */
  lemma OpeningWritesInOrder(cfg: Config, b: Breaker, t: Instant)
    ensures var open := b.(state := Open);
            var dated := open.(lastFailureTime := Some(t));
            && IsPath(cfg, [(b, TripWrite), (open, TripStamp), (open, TripTime(t)), (dated, Idle)], t)
            && IsPath(cfg, [(b, ReopenWrite), (open, ReopenStamp), (open, ReopenTime(t)), (dated, ReopenZeroFailures),
                            (dated.(failureCount := 0), ReopenZeroSuccesses),
                            (dated.(failureCount := 0, successCount := 0), Idle)], t)
            && IsPath(cfg, [(b, OpenStamp), (b, OpenTime(t)), (b.(lastFailureTime := Some(t)), Idle)], t)
  {
    var dated := b.(state := Open, lastFailureTime := Some(t));
    assert Advance(cfg, dated, ReopenZeroFailures, t) == (dated.(failureCount := 0), ReopenZeroSuccesses);
  }

  /** And so do a success that closes it, a reset and a probe. */
  lemma ClosingWritesInOrder(cfg: Config, b: Breaker, t: Instant)
    ensures var closed := b.(state := Closed);
            var cleared := closed.(failureCount := 0);
            && IsPath(cfg, [(b, CloseWrite), (closed, CloseZeroFailures), (cleared, CloseZeroSuccesses),
                            (cleared.(successCount := 0), Idle)], t)
            && IsPath(cfg, [(b, ResetWrite), (closed, ResetZeroFailures), (cleared, ResetZeroSuccesses),
                            (cleared.(successCount := 0), ResetTime),
                            (cleared.(successCount := 0, lastFailureTime := None), Idle)], t)
    ensures var probing := b.(state := HalfOpen);
            IsPath(cfg, [(b, RequestProbe), (probing, RequestZeroSuccesses),
                         (probing.(successCount := 0), Returned(true))], t)
  {
  }

  /** The step neither depends on what the two locks guard, the state and the failure time, nor changes it. */
  ghost predicate TakesNoLock(cfg: Config, pc: Pc) {
    forall b: Breaker, state: State, time: Option<Instant>, now: Instant ::
      Advance(cfg, b.(state := state, lastFailureTime := time), pc, now) ==
      (Advance(cfg, b, pc, now).0.(state := state, lastFailureTime := time), Advance(cfg, b, pc, now).1)
  }

  /** A running call can be dropped exactly where it has not begun or its next step takes a lock. */
  lemma SuspendedIffAwaits(cfg: Config, pc: Pc)
    requires !Resting(pc)
    ensures Suspended(pc) <==> (exists op :: pc == FirstStep(op)) || !TakesNoLock(cfg, pc)
  {
    var b := INITIAL;
    match pc
    case RequestCount => assert pc == FirstStep(Request);
    case SuccessRead => assert pc == FirstStep(Success);
    case FailureCount => assert pc == FirstStep(Failure);
    case ResetWrite => assert pc == FirstStep(Reset);
    case RequestCheck =>
      var t := if cfg.timeout >= 0.0 then -cfg.timeout else 0.0;
      LockedBy(cfg, b, pc, Open, Some(t), 0.0);
    case RequestRead => LockedBy(cfg, b, pc, Open, None, 0.0);
    case FailureRead => LockedBy(cfg, b, pc, Open, None, 0.0);
    case RequestProbe => LockedBy(cfg, b, pc, Open, None, 0.0);
    case CloseWrite => LockedBy(cfg, b, pc, Open, None, 0.0);
    case TripWrite => LockedBy(cfg, b, pc, Closed, None, 0.0);
    case ReopenWrite => LockedBy(cfg, b, pc, Closed, None, 0.0);
    case TripTime(at) => LockedBy(cfg, b, pc, Closed, None, 0.0);
    case ReopenTime(at) => LockedBy(cfg, b, pc, Closed, None, 0.0);
    case OpenTime(at) => LockedBy(cfg, b, pc, Closed, None, 0.0);
    case ResetTime => LockedBy(cfg, b, pc, Closed, Some(0.0), 0.0);
    case _ =>
  }

  lemma LockedBy(cfg: Config, b: Breaker, pc: Pc, state: State, time: Option<Instant>, now: Instant)
    requires Advance(cfg, b.(state := state, lastFailureTime := time), pc, now) !=
             (Advance(cfg, b, pc, now).0.(state := state, lastFailureTime := time), Advance(cfg, b, pc, now).1)
    ensures !TakesNoLock(cfg, pc)
  {
  }

  // ---------- runs without drops, or without some of them ----------

  predicate NoDrop(run: seq<Action>) {
    forall i :: 0 <= i < |run| ==> !run[i].Drop?
  }

  /** The run drops no call at a step of the given kind; it may drop others. */
  ghost predicate NeverDropsAt(cfg: Config, s: System, run: seq<Action>, kind: Pc -> bool)
    decreases |run|
  {
    run != [] ==>
      && !(run[0].Drop? && run[0].task < |s.tasks| && kind(s.tasks[run[0].task]))
      && NeverDropsAt(cfg, Perform(cfg, s, run[0]), run[1..], kind)
  }

  lemma {:induction false} NoDropIsNeverAt(cfg: Config, s: System, run: seq<Action>, kind: Pc -> bool)
    requires NoDrop(run)
    ensures NeverDropsAt(cfg, s, run, kind)
    decreases |run|
  {
    if run != [] {
      NoDropIsNeverAt(cfg, Perform(cfg, s, run[0]), run[1..], kind);
    }
  }

  // ---------- no trip and no recovery is lost ----------

  /** The task is about to open the breaker or to clear its failures. */
  predicate SettlesFailures(pc: Pc) {
    pc.TripWrite? || pc.CloseZeroFailures? || pc.ResetZeroFailures?
  }

  /** The task is about to close the breaker or to clear its successes. */
  predicate SettlesSuccesses(pc: Pc) {
    pc.CloseWrite? || pc.RequestZeroSuccesses?
  }

  predicate Settles(pc: Pc) {
    SettlesFailures(pc) || SettlesSuccesses(pc)
  }

  ghost predicate NoLostTrip(cfg: Config, s: System) {
    s.breaker.state == Closed && s.breaker.failureCount >= AtLeastOne(cfg.failureThreshold) ==>
      exists i :: 0 <= i < |s.tasks| && SettlesFailures(s.tasks[i])
  }

  ghost predicate NoLostClose(cfg: Config, s: System) {
    s.breaker.state == HalfOpen && s.breaker.successCount >= AtLeastOne(cfg.successThreshold) ==>
      exists i :: 0 <= i < |s.tasks| && SettlesSuccesses(s.tasks[i])
  }

  lemma ActionLosesNothing(cfg: Config, s: System, a: Action)
    requires NoLostTrip(cfg, s) && NoLostClose(cfg, s)
    requires !(a.Drop? && a.task < |s.tasks| && Settles(s.tasks[a.task]))
    ensures NoLostTrip(cfg, Perform(cfg, s, a)) && NoLostClose(cfg, Perform(cfg, s, a))
  {
    var r := Perform(cfg, s, a);
    if a.task < |s.tasks| {
      var i := a.task;
      assert forall j :: 0 <= j < |s.tasks| && j != i ==> r.tasks[j] == s.tasks[j];
      if r.breaker.state == Closed && r.breaker.failureCount >= AtLeastOne(cfg.failureThreshold) {
        if !SettlesFailures(r.tasks[i]) {
          assert s.breaker.state == Closed && s.breaker.failureCount >= AtLeastOne(cfg.failureThreshold);
          var j :| 0 <= j < |s.tasks| && SettlesFailures(s.tasks[j]);
          assert SettlesFailures(r.tasks[j]);
        }
      }
      if r.breaker.state == HalfOpen && r.breaker.successCount >= AtLeastOne(cfg.successThreshold) {
        if !SettlesSuccesses(r.tasks[i]) {
          assert s.breaker.state == HalfOpen && s.breaker.successCount >= AtLeastOne(cfg.successThreshold);
          var j :| 0 <= j < |s.tasks| && SettlesSuccesses(s.tasks[j]);
          assert SettlesSuccesses(r.tasks[j]);
        }
      }
    }
  }

  lemma {:induction false} RunLosesNothing(cfg: Config, s: System, run: seq<Action>)
    requires NoLostTrip(cfg, s) && NoLostClose(cfg, s) && NeverDropsAt(cfg, s, run, Settles)
    ensures NoLostTrip(cfg, Execute(cfg, s, run)) && NoLostClose(cfg, Execute(cfg, s, run))
    decreases |run|
  {
    if run != [] {
      ActionLosesNothing(cfg, s, run[0]);
      RunLosesNothing(cfg, Perform(cfg, s, run[0]), run[1..]);
    }
  }

  /**
   Under every interleaving of any number of tasks, resets included, in which no call is dropped just when it is
   about to trip or close the breaker, a closed breaker with enough failures to trip has a task about to open it
   or to clear them, and a half-open one with enough successes has a task about to close it or to clear them.
   So when no call is in progress neither has enough.
   */
  lemma EveryTripAndCloseHappens(cfg: Config, taskCount: nat, run: seq<Action>)
    requires NeverDropsAt(cfg, Start(taskCount), run, Settles)
    ensures var s := Execute(cfg, Start(taskCount), run);
            && NoLostTrip(cfg, s) && NoLostClose(cfg, s)
            && !TripIsDue(cfg, s) && !CloseIsDue(cfg, s)
  {
    RunLosesNothing(cfg, Start(taskCount), run);
  }

  /** No call is in progress, and yet a closed breaker has the failures to trip. */
  ghost predicate TripIsDue(cfg: Config, s: System) {
    AtRest(s) && s.breaker.state == Closed && s.breaker.failureCount >= AtLeastOne(cfg.failureThreshold)
  }

  /** No call is in progress, and yet a half-open breaker has the successes to close. */
  ghost predicate CloseIsDue(cfg: Config, s: System) {
    AtRest(s) && s.breaker.state == HalfOpen && s.breaker.successCount >= AtLeastOne(cfg.successThreshold)
  }

  // ---------- a task alone behaves like the sequential breaker ----------

  /** More steps than any call takes; those left over find the task resting and do nothing. */
  const CALL_STEPS := 7

  function AloneFor(cfg: Config, b: Breaker, pc: Pc, now: Instant, steps: nat): (Breaker, Pc)
    decreases steps
  {
    if steps == 0 then (b, pc)
    else
      var (c, next) := Advance(cfg, b, pc, now);
      AloneFor(cfg, c, next, now, steps - 1)
  }

  function Steps(task: nat, now: Instant, n: nat): seq<Action> {
    if n == 0 then [] else [Step(task, now)] + Steps(task, now, n - 1)
  }

  /** A whole call by one task, without interruption. */
  function WholeCall(task: nat, e: Event): seq<Action> {
    [Begin(task, e.op)] + Steps(task, e.time, CALL_STEPS)
  }

  function Answer(cfg: Config, b: Breaker, e: Event): Pc {
    if e.op == Request then Returned(Admits(cfg, b, e.time)) else Idle
  }

  lemma {:induction false} AloneAtRest(cfg: Config, b: Breaker, pc: Pc, now: Instant, steps: nat)
    requires Resting(pc)
    ensures AloneFor(cfg, b, pc, now, steps) == (b, pc)
    decreases steps
  {
    if steps > 0 {
      AloneAtRest(cfg, b, pc, now, steps - 1);
    }
  }

  /** The task passes through `path` and its shared state through `states`, one step at a time. */
  lemma {:induction false} AloneAlong(cfg: Config, path: seq<(Breaker, Pc)>, now: Instant, steps: nat)
    requires 1 <= |path| <= steps + 1 && (|path| == steps + 1 || Resting(path[|path| - 1].1))
    requires forall i :: 0 <= i < |path| - 1 ==> Advance(cfg, path[i].0, path[i].1, now) == path[i + 1]
    ensures AloneFor(cfg, path[0].0, path[0].1, now, steps) == path[|path| - 1]
    decreases steps
  {
    if |path| == 1 {
      if steps > 0 {
        AloneAtRest(cfg, path[0].0, path[0].1, now, steps);
      }
    } else {
      AloneAlong(cfg, path[1..], now, steps - 1);
    }
  }

  lemma RequestAlone(cfg: Config, b: Breaker, t: Instant, steps: nat)
    requires steps >= CALL_STEPS
    ensures AloneFor(cfg, b, RequestCount, t, steps) == (AfterRequest(cfg, b, t), Returned(Admits(cfg, b, t)))
  {
    var c := b.(totalRequests := b.totalRequests + 1);
    var read := [(b, RequestCount), (c, RequestRead)];
    if b.state != Open {
      AloneAlong(cfg, read + [(c, Returned(true))], t, steps);
    } else if !TimeoutElapsed(cfg, b.lastFailureTime, t) {
      AloneAlong(cfg, read + [(c, RequestCheck), (c, Returned(false))], t, steps);
    } else {
      var d := c.(state := HalfOpen);
      AloneAlong(cfg, read + [(c, RequestCheck), (c, RequestProbe), (d, RequestZeroSuccesses),
                              (d.(successCount := 0), Returned(true))], t, steps);
    }
  }

  lemma SuccessAlone(cfg: Config, b: Breaker, t: Instant, steps: nat)
    requires steps >= CALL_STEPS
    ensures AloneFor(cfg, b, SuccessRead, t, steps) == (AfterSuccess(cfg, b), Idle)
  {
    match b.state
    case Open => AloneAlong(cfg, [(b, SuccessRead), (b, Idle)], t, steps);
    case Closed =>
      AloneAlong(cfg, [(b, SuccessRead), (b, SuccessZeroFailures), (b.(failureCount := 0), Idle)], t, steps);
    case HalfOpen =>
      var c := b.(successCount := b.successCount + 1);
      if c.successCount < cfg.successThreshold {
        AloneAlong(cfg, [(b, SuccessRead), (b, SuccessAdd), (c, Idle)], t, steps);
      } else {
        var d := c.(state := Closed);
        var e := d.(failureCount := 0);
        AloneAlong(cfg, [(b, SuccessRead), (b, SuccessAdd), (c, CloseWrite), (d, CloseZeroFailures),
                         (e, CloseZeroSuccesses), (e.(successCount := 0), Idle)], t, steps);
      }
  }

  lemma FailureAloneWhileClosed(cfg: Config, b: Breaker, t: Instant, steps: nat)
    requires steps >= CALL_STEPS
    requires b.state == Closed
    ensures AloneFor(cfg, b, FailureCount, t, steps) == (AfterFailure(cfg, b, t), Idle)
  {
    var c := b.(totalFailures := b.totalFailures + 1);
    var d := c.(failureCount := c.failureCount + 1);
    if d.failureCount < cfg.failureThreshold {
      AloneAlong(cfg, [(b, FailureCount), (c, FailureRead), (c, FailureAdd), (d, Idle)], t, steps);
    } else {
      var e := d.(state := Open);
      AloneAlong(cfg, [(b, FailureCount), (c, FailureRead), (c, FailureAdd), (d, TripWrite), (e, TripStamp),
                       (e, TripTime(t)), (e.(lastFailureTime := Some(t)), Idle)], t, steps);
    }
  }

  lemma ReopenAlone(cfg: Config, c: Breaker, t: Instant, steps: nat)
    requires steps >= CALL_STEPS
    ensures AloneFor(cfg, c, ReopenWrite, t, steps - 2) ==
            (c.(state := Open, lastFailureTime := Some(t), failureCount := 0, successCount := 0), Idle)
  {
    var d := c.(state := Open);
    var e := d.(lastFailureTime := Some(t));
    var f := e.(failureCount := 0);
    AloneAlong(cfg, [(c, ReopenWrite), (d, ReopenStamp), (d, ReopenTime(t)), (e, ReopenZeroFailures),
                     (f, ReopenZeroSuccesses), (f.(successCount := 0), Idle)], t, steps - 2);
  }

  lemma FailureAloneWhileHalfOpen(cfg: Config, b: Breaker, t: Instant, steps: nat)
    requires steps >= CALL_STEPS
    requires b.state == HalfOpen
    ensures AloneFor(cfg, b, FailureCount, t, steps) == (AfterFailure(cfg, b, t), Idle)
  {
    var c := b.(totalFailures := b.totalFailures + 1);
    ReopenAlone(cfg, c, t, steps);
    assert AloneFor(cfg, c, FailureRead, t, steps - 1) == AloneFor(cfg, c, ReopenWrite, t, steps - 2);
  }

  lemma FailureAloneWhileOpen(cfg: Config, b: Breaker, t: Instant, steps: nat)
    requires steps >= CALL_STEPS
    requires b.state == Open
    ensures AloneFor(cfg, b, FailureCount, t, steps) == (AfterFailure(cfg, b, t), Idle)
  {
    var c := b.(totalFailures := b.totalFailures + 1);
    AloneAlong(cfg, [(b, FailureCount), (c, FailureRead), (c, OpenStamp), (c, OpenTime(t)),
                     (c.(lastFailureTime := Some(t)), Idle)], t, steps);
  }

  lemma ResetAlone(cfg: Config, b: Breaker, t: Instant, steps: nat)
    requires steps >= CALL_STEPS
    ensures AloneFor(cfg, b, ResetWrite, t, steps) == (AfterReset(b), Idle)
  {
    var c := b.(state := Closed);
    var d := c.(failureCount := 0);
    var e := d.(successCount := 0);
    AloneAlong(cfg, [(b, ResetWrite), (c, ResetZeroFailures), (d, ResetZeroSuccesses), (e, ResetTime),
                     (e.(lastFailureTime := None), Idle)], t, steps);
  }

  lemma AloneIsSequential(cfg: Config, b: Breaker, e: Event, steps: nat)
    requires steps >= CALL_STEPS
    ensures AloneFor(cfg, b, FirstStep(e.op), e.time, steps) == (After(cfg, b, e), Answer(cfg, b, e))
  {
    match e.op
    case Request => RequestAlone(cfg, b, e.time, steps);
    case Success => SuccessAlone(cfg, b, e.time, steps);
    case Failure =>
      match b.state {
        case Closed => FailureAloneWhileClosed(cfg, b, e.time, steps);
        case HalfOpen => FailureAloneWhileHalfOpen(cfg, b, e.time, steps);
        case Open => FailureAloneWhileOpen(cfg, b, e.time, steps);
      }
    case Reset => ResetAlone(cfg, b, e.time, steps);
  }

  lemma {:induction false} StepsAreAlone(cfg: Config, s: System, task: nat, now: Instant, n: nat)
    requires task < |s.tasks|
    ensures var (b, pc) := AloneFor(cfg, s.breaker, s.tasks[task], now, n);
            Execute(cfg, s, Steps(task, now, n)) == System(b, s.tasks[task := pc])
    decreases n
  {
    if n > 0 {
      assert Steps(task, now, n)[1..] == Steps(task, now, n - 1);
      StepsAreAlone(cfg, Perform(cfg, s, Step(task, now)), task, now, n - 1);
    }
  }

  /** A call that runs uninterrupted has exactly the effect and the answer of the sequential call. */
  lemma WholeCallIsSequential(cfg: Config, s: System, task: nat, e: Event)
    requires task < |s.tasks| && Resting(s.tasks[task])
    ensures Execute(cfg, s, WholeCall(task, e)) ==
            System(After(cfg, s.breaker, e), s.tasks[task := Answer(cfg, s.breaker, e)])
  {
    var begun := Perform(cfg, s, Begin(task, e.op));
    assert WholeCall(task, e)[1..] == Steps(task, e.time, CALL_STEPS);
    StepsAreAlone(cfg, begun, task, e.time, CALL_STEPS);
    AloneIsSequential(cfg, s.breaker, e, CALL_STEPS);
  }

  lemma ThenWholeCall(cfg: Config, s: System, run: seq<Action>, task: nat, e: Event)
    requires task < |s.tasks| && Resting(Execute(cfg, s, run).tasks[task])
    ensures var mid := Execute(cfg, s, run);
            Execute(cfg, s, run + WholeCall(task, e)) ==
            System(After(cfg, mid.breaker, e), mid.tasks[task := Answer(cfg, mid.breaker, e)])
  {
    ExecuteConcat(cfg, s, run, WholeCall(task, e));
    WholeCallIsSequential(cfg, Execute(cfg, s, run), task, e);
  }

  // ---------- an open breaker can recover ----------

  /** The task has opened the breaker and not yet written the time of the failure. */
  predicate WritesTime(pc: Pc) {
    pc.TripStamp? || pc.TripTime? || pc.ReopenStamp? || pc.ReopenTime?
  }

  predicate Resets(pc: Pc) {
    pc.ResetWrite? || pc.ResetZeroFailures? || pc.ResetZeroSuccesses? || pc.ResetTime?
  }

  predicate NoReset(run: seq<Action>) {
    forall i :: 0 <= i < |run| ==> run[i].Begin? ==> run[i].op != Reset
  }

  ghost predicate TimeOnItsWay(s: System) {
    && (forall i :: 0 <= i < |s.tasks| ==> !Resets(s.tasks[i]))
    && (s.breaker.state == Open && s.breaker.lastFailureTime == None ==>
          exists i :: 0 <= i < |s.tasks| && WritesTime(s.tasks[i]))
  }

  lemma {:induction false} RunKeepsTime(cfg: Config, s: System, run: seq<Action>)
    requires TimeOnItsWay(s) && NoReset(run) && NeverDropsAt(cfg, s, run, WritesTime)
    ensures TimeOnItsWay(Execute(cfg, s, run))
    decreases |run|
  {
    if run != [] {
      var a := run[0];
      var r := Perform(cfg, s, a);
      if a.task < |s.tasks| && r.breaker.state == Open && r.breaker.lastFailureTime == None {
        if !WritesTime(r.tasks[a.task]) {
          var j :| 0 <= j < |s.tasks| && WritesTime(s.tasks[j]);
          assert WritesTime(r.tasks[j]);
        }
      }
      RunKeepsTime(cfg, r, run[1..]);
    }
  }

  /**
   Under every interleaving without resets, in which no call is dropped between opening the breaker and writing the
   time, an open breaker carries a failure time unless a task is about to write one; and once at rest it lets
   a request through as soon as the timeout has passed.
   */
  lemma OpenCanRecover(cfg: Config, taskCount: nat, run: seq<Action>, task: nat, now: Instant)
    requires NoReset(run) && NeverDropsAt(cfg, Start(taskCount), run, WritesTime) && task < taskCount
    ensures var s := Execute(cfg, Start(taskCount), run);
            && TimeOnItsWay(s)
            && (AtRest(s) && s.breaker.state == Open ==>
                  s.breaker.lastFailureTime.Some?
                  && (Elapsed(now, s.breaker.lastFailureTime.value) >= cfg.timeout ==>
                        var r := Execute(cfg, s, WholeCall(task, Event(Request, now)));
                        r.tasks[task] == Returned(true) && r.breaker.state == HalfOpen))
  {
    RunKeepsTime(cfg, Start(taskCount), run);
    var s := Execute(cfg, Start(taskCount), run);
    if AtRest(s) && s.breaker.state == Open {
      WholeCallIsSequential(cfg, s, task, Event(Request, now));
    }
  }

  // ---------- what can wedge the breaker ----------

  /** Open, with no failure time to recover from, and nobody about to write one. */
  ghost predicate Wedged(s: System) {
    s.breaker.state == Open && s.breaker.lastFailureTime == None && AtRest(s)
  }

  /** The run resets the breaker, and drops calls, only if that is allowed. */
  predicate Permitted(withResets: bool, withDrops: bool, run: seq<Action>) {
    (withResets || NoReset(run)) && (withDrops || NoDrop(run))
  }

  /** A run of `taskCount` tasks that wedges the breaker. */
  ghost predicate WedgingRun(cfg: Config, withResets: bool, withDrops: bool, taskCount: nat, run: seq<Action>) {
    Permitted(withResets, withDrops, run) && Wedged(Execute(cfg, Start(taskCount), run))
  }

  ghost predicate CanWedge(cfg: Config, withResets: bool, withDrops: bool, taskCount: nat) {
    exists run: seq<Action> :: WedgingRun(cfg, withResets, withDrops, taskCount, run)
  }

  /** `n` failures in a row by one task, each uninterrupted. */
  function FailingCalls(task: nat, n: nat): seq<Action> {
    if n == 0 then [] else FailingCalls(task, n - 1) + WholeCall(task, Event(Failure, 0.0))
  }

  lemma {:induction false} FailingCallsTrip(cfg: Config, s: System, task: nat, n: nat)
    requires task < |s.tasks| && s.tasks[task] == Idle && s.breaker == INITIAL
    requires n <= AtLeastOne(cfg.failureThreshold)
    ensures var r := Execute(cfg, s, FailingCalls(task, n));
            && r.tasks == s.tasks && r.breaker.failureCount == n
            && (if n == AtLeastOne(cfg.failureThreshold)
                then r.breaker.state == Open && r.breaker.lastFailureTime == Some(0.0)
                else r.breaker.state == Closed && r.breaker.lastFailureTime == None)
  {
    if n > 0 {
      FailingCallsTrip(cfg, s, task, n - 1);
      ThenWholeCall(cfg, s, FailingCalls(task, n - 1), task, Event(Failure, 0.0));
    }
  }

  /** The first `n` steps of a call of task `task`. */
  function CallUpTo(task: nat, e: Event, n: nat): seq<Action> {
    [Begin(task, e.op)] + Steps(task, e.time, n)
  }

  /** A call left after `n` steps is where the same steps would leave the task alone. */
  lemma CallUpToIsAlone(cfg: Config, s: System, task: nat, e: Event, n: nat)
    requires task < |s.tasks| && Resting(s.tasks[task])
    ensures var (b, pc) := AloneFor(cfg, s.breaker, FirstStep(e.op), e.time, n);
            Execute(cfg, s, CallUpTo(task, e, n)) == System(b, s.tasks[task := pc])
  {
    assert CallUpTo(task, e, n)[1..] == Steps(task, e.time, n);
    StepsAreAlone(cfg, Perform(cfg, s, Begin(task, e.op)), task, e.time, n);
  }

  /** Three steps into a reset of a breaker that is as new, all that is left is to clear the time. */
  lemma ResetUpToTime(cfg: Config, s: System, task: nat, e: Event, n: nat)
    requires s.breaker == INITIAL && task < |s.tasks| && Resting(s.tasks[task]) && e.op == Reset && n == 3
    ensures Execute(cfg, s, CallUpTo(task, e, n)) == System(INITIAL, s.tasks[task := ResetTime])
  {
    CallUpToIsAlone(cfg, s, task, e, n);
    var b := s.breaker;
    AloneAlong(cfg, [(b, ResetWrite), (b, ResetZeroFailures), (b, ResetZeroSuccesses), (b, ResetTime)], e.time, n);
  }

  lemma OneStep(cfg: Config, s: System, a: Action)
    ensures Execute(cfg, s, [a]) == Perform(cfg, s, a)
  {
    assert [a][1..] == [];
  }

  /** A task about to clear the time wedges an open breaker, if everybody else rests. */
  lemma ClearingTimeWedges(cfg: Config, s: System, task: nat, now: Instant)
    requires task < |s.tasks| && s.tasks[task] == ResetTime && s.breaker.state == Open
    requires forall i :: 0 <= i < |s.tasks| && i != task ==> Resting(s.tasks[i])
    ensures Wedged(Execute(cfg, s, [Step(task, now)]))
  {
    OneStep(cfg, s, Step(task, now));
  }

  /** A reset is suspended just before it clears the time; meanwhile the breaker trips; the reset finishes. */
  lemma OverlappingResetWedges(cfg: Config, s: System, failing: nat, resetting: nat, e: Event)
    returns (run: seq<Action>)
    requires s.breaker == INITIAL && (forall i :: 0 <= i < |s.tasks| ==> s.tasks[i] == Idle)
    requires failing < |s.tasks| && resetting < |s.tasks| && failing != resetting && e.op == Reset
    ensures Wedged(Execute(cfg, s, run)) && NoDrop(run)
  {
    var prepare, fail := CallUpTo(resetting, e, 3), FailingCalls(failing, AtLeastOne(cfg.failureThreshold));
    var finish := [Step(resetting, e.time)];
    ResetUpToTime(cfg, s, resetting, e, 3);
    var s1 := Execute(cfg, s, prepare);
    FailingCallsTrip(cfg, s1, failing, AtLeastOne(cfg.failureThreshold));
    ClearingTimeWedges(cfg, Execute(cfg, s1, fail), resetting, e.time);
    run := prepare + fail + finish;
    ExecuteConcat(cfg, s, prepare + fail, finish);
    ExecuteConcat(cfg, s, prepare, fail);
    StepsBeginNothing(resetting, e.time, 3);
    FailingCallsFail(failing, AtLeastOne(cfg.failureThreshold));
  }

  /** The task is in a reset that has closed the breaker. */
  predicate PastResetWrite(pc: Pc) {
    pc.ResetZeroFailures? || pc.ResetZeroSuccesses? || pc.ResetTime?
  }

  /** A task on its own finishes a reset before anybody can open the breaker again. */
  ghost predicate NoOverlap(s: System) {
    && (forall i :: 0 <= i < |s.tasks| && PastResetWrite(s.tasks[i]) ==> s.breaker.state == Closed)
    && (s.breaker.state == Open && s.breaker.lastFailureTime == None ==>
          exists i :: 0 <= i < |s.tasks| && WritesTime(s.tasks[i]))
  }

  lemma {:induction false} LoneTaskNeverWedges(cfg: Config, s: System, run: seq<Action>)
    requires |s.tasks| <= 1 && NoOverlap(s) && NeverDropsAt(cfg, s, run, WritesTime)
    ensures NoOverlap(Execute(cfg, s, run))
    decreases |run|
  {
    if run != [] {
      var r := Perform(cfg, s, run[0]);
      if |s.tasks| == 1 && r.breaker.state == Open && r.breaker.lastFailureTime == None {
        assert WritesTime(r.tasks[0]);
      }
      LoneTaskNeverWedges(cfg, r, run[1..]);
    }
  }

  lemma {:induction false} NobodyDoesNothing(cfg: Config, s: System, run: seq<Action>)
    requires s.tasks == []
    ensures Execute(cfg, s, run) == s
    decreases |run|
  {
    if run != [] {
      NobodyDoesNothing(cfg, s, run[1..]);
    }
  }

  /** Calls of one task, of which all but the last few steps of the last one are taken, and that one is dropped. */
  function DroppedAfter(task: nat, before: seq<Action>, e: Event, n: nat): seq<Action> {
    before + CallUpTo(task, e, n) + [Drop(task)]
  }

  lemma CallUpToReaches(cfg: Config, s: System, task: nat, e: Event, n: nat, b: Breaker, pc: Pc)
    requires task < |s.tasks| && Resting(s.tasks[task])
    requires AloneFor(cfg, s.breaker, FirstStep(e.op), e.time, n) == (b, pc)
    ensures Execute(cfg, s, CallUpTo(task, e, n)) == System(b, s.tasks[task := pc])
  {
    CallUpToIsAlone(cfg, s, task, e, n);
  }

  lemma ThenDrop(cfg: Config, s: System, run: seq<Action>, task: nat, b: Breaker, tasks: seq<Pc>)
    requires Execute(cfg, s, run) == System(b, tasks) && task < |tasks| && Suspended(tasks[task])
    ensures Execute(cfg, s, run + [Drop(task)]) == System(b, tasks[task := Idle])
  {
    ExecuteConcat(cfg, s, run, [Drop(task)]);
    OneStep(cfg, System(b, tasks), Drop(task));
  }

  /** Dropping a call where it waits undoes none of its steps and leaves its task at rest. */
  lemma DroppedCall(
    cfg: Config, s: System, task: nat, before: seq<Action>, e: Event, n: nat, mid: System, b: Breaker, pc: Pc,
    run: seq<Action>)
    requires task < |mid.tasks| && mid == Execute(cfg, s, before) && Resting(mid.tasks[task])
    requires AloneFor(cfg, mid.breaker, FirstStep(e.op), e.time, n) == (b, pc) && Suspended(pc)
    requires run == DroppedAfter(task, before, e, n)
    ensures Execute(cfg, s, run) == System(b, mid.tasks[task := Idle])
  {
    CallUpToReaches(cfg, mid, task, e, n, b, pc);
    ExecuteConcat(cfg, s, before, CallUpTo(task, e, n));
    ThenDrop(cfg, s, before + CallUpTo(task, e, n), task, b, mid.tasks[task := pc]);
    assert mid.tasks[task := pc][task := Idle] == mid.tasks[task := Idle];
  }

  /** How far a failure that trips the breaker gets: to the write that opens it, and past it to that of the time. */
  lemma TrippingSteps(cfg: Config, b: Breaker, now: Instant, opening: nat, timing: nat)
    requires b.state == Closed && b.failureCount + 1 >= cfg.failureThreshold && opening == 3 && timing == 5
    ensures var c := b.(totalFailures := b.totalFailures + 1, failureCount := b.failureCount + 1);
            && AloneFor(cfg, b, FailureCount, now, opening) == (c, TripWrite)
            && AloneFor(cfg, b, FailureCount, now, timing) == (c.(state := Open), TripTime(now))
  {
    var c := b.(totalFailures := b.totalFailures + 1);
    var d := c.(failureCount := c.failureCount + 1);
    var e := d.(state := Open);
    AloneAlong(cfg, [(b, FailureCount), (c, FailureRead), (c, FailureAdd), (d, TripWrite)], now, opening);
    AloneAlong(cfg, [(b, FailureCount), (c, FailureRead), (c, FailureAdd), (d, TripWrite), (e, TripStamp),
                     (e, TripTime(now))], now, timing);
  }

  /** The failures one short of a trip, and one more that is dropped after `steps` steps. */
  function DroppedTrip(cfg: Config, task: nat, e: Event, steps: nat): seq<Action> {
    DroppedAfter(task, FailingCalls(task, AtLeastOne(cfg.failureThreshold) - 1), e, steps)
  }

  /** Nobody has called the breaker yet. */
  predicate Untouched(s: System) {
    s.breaker == INITIAL && forall i :: 0 <= i < |s.tasks| ==> s.tasks[i] == Idle
  }

  /** A breaker one failure short of a trip. */
  lemma OneShortOfTrip(cfg: Config, s: System, task: nat)
    requires task < |s.tasks| && Untouched(s)
    ensures var mid := Execute(cfg, s, FailingCalls(task, AtLeastOne(cfg.failureThreshold) - 1));
            && mid.tasks == s.tasks && mid.breaker.state == Closed && mid.breaker.lastFailureTime == None
            && mid.breaker.failureCount + 1 == AtLeastOne(cfg.failureThreshold)
  {
    FailingCallsTrip(cfg, s, task, AtLeastOne(cfg.failureThreshold) - 1);
  }

  /** Dropped before it opens the breaker, the failure leaves a trip due; dropped after, a wedged breaker. */
  lemma DroppedTripLeaves(cfg: Config, s: System, task: nat, e: Event, opening: nat, timing: nat)
    requires task < |s.tasks| && Untouched(s) && e.op == Failure && opening == 3 && timing == 5
    ensures TripIsDue(cfg, Execute(cfg, s, DroppedTrip(cfg, task, e, opening)))
    ensures Wedged(Execute(cfg, s, DroppedTrip(cfg, task, e, timing)))
  {
    var calls := FailingCalls(task, AtLeastOne(cfg.failureThreshold) - 1);
    var mid := Execute(cfg, s, calls);
    var b := mid.breaker;
    var c := b.(totalFailures := b.totalFailures + 1, failureCount := b.failureCount + 1);
    OneShortOfTrip(cfg, s, task);
    TrippingSteps(cfg, b, e.time, opening, timing);
    assert mid.tasks[task := Idle] == mid.tasks;
    DroppedCall(cfg, s, task, calls, e, opening, mid, c, TripWrite, DroppedTrip(cfg, task, e, opening));
    DroppedCall(cfg, s, task, calls, e, timing, mid, c.(state := Open), TripTime(e.time),
                DroppedTrip(cfg, task, e, timing));
  }

  /**
   The breaker can wedge exactly when resets can overlap other calls, so that there are at least two tasks, or when
   calls can be dropped, whatever the configuration.
   */
  lemma WedgesIffOverlappedOrDropped(cfg: Config, withResets: bool, withDrops: bool, taskCount: nat)
    ensures CanWedge(cfg, withResets, withDrops, taskCount) <==>
            (withResets && taskCount >= 2) || (withDrops && taskCount >= 1)
  {
    var start := Start(taskCount);
    if withDrops && taskCount >= 1 {
      var e := Event(Failure, 0.0);
      DroppedTripLeaves(cfg, start, 0, e, 3, 5);
      DroppedTripHasNoReset(cfg, 0, e, 5);
      assert WedgingRun(cfg, withResets, withDrops, taskCount, DroppedTrip(cfg, 0, e, 5));
    } else if withResets && taskCount >= 2 {
      var run := OverlappingResetWedges(cfg, start, 0, 1, Event(Reset, 0.0));
      assert WedgingRun(cfg, withResets, withDrops, taskCount, run);
    } else {
      forall run: seq<Action> | Permitted(withResets, withDrops, run)
        ensures !Wedged(Execute(cfg, start, run))
      {
        NothingWedges(cfg, withResets, withDrops, taskCount, run);
      }
    }
  }

  lemma NothingWedges(cfg: Config, withResets: bool, withDrops: bool, taskCount: nat, run: seq<Action>)
    requires Permitted(withResets, withDrops, run)
    requires (withResets ==> taskCount <= 1) && (withDrops ==> taskCount == 0)
    ensures !Wedged(Execute(cfg, Start(taskCount), run))
  {
    var start := Start(taskCount);
    if withDrops {
      NobodyDoesNothing(cfg, start, run);
    } else {
      NoDropIsNeverAt(cfg, start, run, WritesTime);
      if withResets {
        LoneTaskNeverWedges(cfg, start, run);
      } else {
        RunKeepsTime(cfg, start, run);
      }
    }
  }

  lemma {:induction false} StepsBeginNothing(task: nat, now: Instant, n: nat)
    ensures forall i :: 0 <= i < |Steps(task, now, n)| ==> Steps(task, now, n)[i].Step?
  {
    if n > 0 {
      StepsBeginNothing(task, now, n - 1);
    }
  }

  lemma {:induction false} FailingCallsFail(task: nat, n: nat)
    ensures NoReset(FailingCalls(task, n)) && NoDrop(FailingCalls(task, n))
  {
    if n > 0 {
      FailingCallsFail(task, n - 1);
      StepsBeginNothing(task, 0.0, CALL_STEPS);
    }
  }

  lemma DroppedTripHasNoReset(cfg: Config, task: nat, e: Event, steps: nat)
    requires e.op == Failure
    ensures NoReset(DroppedTrip(cfg, task, e, steps))
  {
    FailingCallsFail(task, AtLeastOne(cfg.failureThreshold) - 1);
    StepsBeginNothing(task, e.time, steps);
  }

  /** Only requests and successes are begun: what callers of a breaker that admits nobody can do. */
  predicate OnlyRequestsAndSuccesses(run: seq<Action>) {
    forall i :: 0 <= i < |run| ==> run[i].Begin? ==> run[i].op == Request || run[i].op == Success
  }

  predicate Harmless(pc: Pc) {
    pc.Idle? || pc == Returned(false) || pc.RequestCount? || pc.RequestRead? || pc.RequestCheck? || pc.SuccessRead?
  }

  /**
   A wedged breaker stays wedged and rejects every request, at any time, until a failure or reset comes: the
   only answer a task can get from then on is no.
   */
  lemma {:induction false} WedgeIsATrap(cfg: Config, s: System, run: seq<Action>)
    requires s.breaker.state == Open && s.breaker.lastFailureTime == None
    requires forall i :: 0 <= i < |s.tasks| ==> Harmless(s.tasks[i]) || Resting(s.tasks[i])
    requires OnlyRequestsAndSuccesses(run)
    ensures var r := Execute(cfg, s, run);
            && r.breaker.state == Open && r.breaker.lastFailureTime == None
            && |r.tasks| == |s.tasks|
            && forall i :: 0 <= i < |r.tasks| ==> Harmless(r.tasks[i]) || r.tasks[i] == s.tasks[i]
    decreases |run|
  {
    if run != [] {
      WedgeIsATrap(cfg, Perform(cfg, s, run[0]), run[1..]);
    }
  }

  // ---------- overlapping calls leave the table of legal moves ----------

  /** Three steps into a request that finds the breaker open and the timeout passed, it is about to probe. */
  lemma RequestUpToProbe(cfg: Config, s: System, task: nat, e: Event, n: nat)
    requires task < |s.tasks| && Resting(s.tasks[task]) && e.op == Request && n == 3
    requires s.breaker.state == Open && TimeoutElapsed(cfg, s.breaker.lastFailureTime, e.time)
    ensures Execute(cfg, s, CallUpTo(task, e, n)) ==
            System(s.breaker.(totalRequests := s.breaker.totalRequests + 1), s.tasks[task := RequestProbe])
  {
    var c := s.breaker.(totalRequests := s.breaker.totalRequests + 1);
    CallUpToIsAlone(cfg, s, task, e, n);
    AloneAlong(cfg, [(s.breaker, RequestCount), (c, RequestRead), (c, RequestCheck), (c, RequestProbe)], e.time, n);
  }

  /** `n` successes in a row by one task, each uninterrupted. */
  function SucceedingCalls(task: nat, n: nat): seq<Action> {
    if n == 0 then [] else SucceedingCalls(task, n - 1) + WholeCall(task, Event(Success, 0.0))
  }

  lemma {:induction false} SucceedingCallsClose(cfg: Config, s: System, task: nat, n: nat)
    requires task < |s.tasks| && Resting(s.tasks[task])
    requires s.breaker.state == HalfOpen && s.breaker.successCount == 0 && n <= AtLeastOne(cfg.successThreshold)
    ensures var r := Execute(cfg, s, SucceedingCalls(task, n));
            && (forall i :: 0 <= i < |s.tasks| && i != task ==> r.tasks[i] == s.tasks[i]) && Resting(r.tasks[task])
            && (if n == AtLeastOne(cfg.successThreshold) then r.breaker.state == Closed
                else r.breaker.state == HalfOpen && r.breaker.successCount == n)
  {
    if n > 0 {
      SucceedingCallsClose(cfg, s, task, n - 1);
      ThenWholeCall(cfg, s, SucceedingCalls(task, n - 1), task, Event(Success, 0.0));
    }
  }

  /** The action takes the breaker from closed straight to half-open after the run. */
  ghost predicate SkippingRun(cfg: Config, taskCount: nat, run: seq<Action>, a: Action) {
    var s := Execute(cfg, Start(taskCount), run);
    s.breaker.state == Closed && Perform(cfg, s, a).breaker.state == HalfOpen
  }

  ghost predicate CanSkipOpen(cfg: Config, taskCount: nat) {
    exists run: seq<Action>, a: Action :: SkippingRun(cfg, taskCount, run, a)
  }

  /**
   A late probe disturbs a breaker that has already recovered: while one request sits between its check and
   its write, another probes and then succeeds often enough to close the breaker.
   */
  lemma LateProbeSkipsOpen(cfg: Config, s: System, late: nat, other: nat, ask: Event) returns (run: seq<Action>)
    requires late < |s.tasks| && other < |s.tasks| && late != other && AtRest(s) && ask.op == Request
    requires s.breaker.state == Open && TimeoutElapsed(cfg, s.breaker.lastFailureTime, ask.time)
    ensures var r := Execute(cfg, s, run); r.breaker.state == Closed && r.tasks[late] == RequestProbe
  {
    var first, second := CallUpTo(late, ask, 3), WholeCall(other, ask);
    var third := SucceedingCalls(other, AtLeastOne(cfg.successThreshold));
    RequestUpToProbe(cfg, s, late, ask, 3);
    var s1 := Execute(cfg, s, first);
    WholeCallIsSequential(cfg, s1, other, ask);
    SucceedingCallsClose(cfg, Execute(cfg, s1, second), other, AtLeastOne(cfg.successThreshold));
    run := first + second + third;
    ExecuteConcat(cfg, s, first + second, third);
    ExecuteConcat(cfg, s, first, second);
  }

  /** A task that may still write half-open does so to an open breaker. */
  ghost predicate ProbesOpen(s: System) {
    forall i :: 0 <= i < |s.tasks| && (s.tasks[i].RequestCheck? || s.tasks[i].RequestProbe?) ==> s.breaker.state == Open
  }

  lemma {:induction false} LoneTaskProbesOpen(cfg: Config, s: System, run: seq<Action>)
    requires |s.tasks| <= 1 && ProbesOpen(s)
    ensures ProbesOpen(Execute(cfg, s, run))
    decreases |run|
  {
    if run != [] {
      LoneTaskProbesOpen(cfg, Perform(cfg, s, run[0]), run[1..]);
    }
  }

  /**
   Some run takes a breaker from closed straight to half-open if and only if there are two tasks to overlap: one
   task alone, whose calls come one after the other, cannot do it, whatever the configuration.
   */
  lemma SkipsOpenIffCallsOverlap(cfg: Config, taskCount: nat)
    ensures CanSkipOpen(cfg, taskCount) <==> taskCount >= 2
  {
    if taskCount >= 2 {
      var fail, ask := FailingCalls(0, AtLeastOne(cfg.failureThreshold)), Event(Request, cfg.timeout);
      FailingCallsTrip(cfg, Start(taskCount), 0, AtLeastOne(cfg.failureThreshold));
      var run := LateProbeSkipsOpen(cfg, Execute(cfg, Start(taskCount), fail), 0, 1, ask);
      ExecuteConcat(cfg, Start(taskCount), fail, run);
      assert SkippingRun(cfg, taskCount, fail + run, Step(0, ask.time));
    } else {
      forall run: seq<Action>, a: Action
        ensures !SkippingRun(cfg, taskCount, run, a)
      {
        LoneTaskProbesOpen(cfg, Start(taskCount), run);
      }
    }
  }

  // ---------- dropped calls leave trips and closes due ----------

  ghost predicate LeavesTripDue(cfg: Config, withDrops: bool, taskCount: nat, run: seq<Action>) {
    (withDrops || NoDrop(run)) && TripIsDue(cfg, Execute(cfg, Start(taskCount), run))
  }

  ghost predicate LeavesCloseDue(cfg: Config, withDrops: bool, taskCount: nat, run: seq<Action>) {
    (withDrops || NoDrop(run)) && CloseIsDue(cfg, Execute(cfg, Start(taskCount), run))
  }

  ghost predicate CanLeaveTripDue(cfg: Config, withDrops: bool, taskCount: nat) {
    exists run: seq<Action> :: LeavesTripDue(cfg, withDrops, taskCount, run)
  }

  ghost predicate CanLeaveCloseDue(cfg: Config, withDrops: bool, taskCount: nat) {
    exists run: seq<Action> :: LeavesCloseDue(cfg, withDrops, taskCount, run)
  }

  /** The failures of a trip, and a probe after the timeout. */
  function Probing(cfg: Config, task: nat, ask: Event): seq<Action> {
    FailingCalls(task, AtLeastOne(cfg.failureThreshold)) + WholeCall(task, ask)
  }

  lemma ProbingHalfOpens(cfg: Config, s: System, task: nat, ask: Event)
    requires task < |s.tasks| && Untouched(s) && ask == Event(Request, cfg.timeout)
    ensures var mid := Execute(cfg, s, Probing(cfg, task, ask));
            AtRest(mid) && mid.breaker.state == HalfOpen && mid.breaker.successCount == 0
  {
    var fail := FailingCalls(task, AtLeastOne(cfg.failureThreshold));
    FailingCallsTrip(cfg, s, task, AtLeastOne(cfg.failureThreshold));
    ThenWholeCall(cfg, s, fail, task, ask);
  }

  /** After that, the successes one short of a close. */
  function NearlyClosing(cfg: Config, task: nat, ask: Event): seq<Action> {
    Probing(cfg, task, ask) + SucceedingCalls(task, AtLeastOne(cfg.successThreshold) - 1)
  }

  lemma OneShortOfClose(cfg: Config, s: System, task: nat, ask: Event)
    requires task < |s.tasks| && Untouched(s) && ask == Event(Request, cfg.timeout)
    ensures var mid := Execute(cfg, s, NearlyClosing(cfg, task, ask));
            && AtRest(mid) && mid.breaker.state == HalfOpen
            && mid.breaker.successCount + 1 == AtLeastOne(cfg.successThreshold)
  {
    var probe, n := Probing(cfg, task, ask), AtLeastOne(cfg.successThreshold) - 1;
    var half := Execute(cfg, s, probe);
    ProbingHalfOpens(cfg, s, task, ask);
    SuccessesShortOfClose(cfg, half, task, n);
    ExecuteConcat(cfg, s, probe, SucceedingCalls(task, n));
    assert Execute(cfg, s, NearlyClosing(cfg, task, ask)) == Execute(cfg, half, SucceedingCalls(task, n));
  }

  lemma SuccessesShortOfClose(cfg: Config, s: System, task: nat, n: nat)
    requires task < |s.tasks| && AtRest(s) && s.breaker.state == HalfOpen && s.breaker.successCount == 0
    requires n < AtLeastOne(cfg.successThreshold)
    ensures var r := Execute(cfg, s, SucceedingCalls(task, n));
            AtRest(r) && r.breaker.state == HalfOpen && r.breaker.successCount == n
  {
    SucceedingCallsClose(cfg, s, task, n);
  }

  lemma DroppedCloseLeavesItDue(cfg: Config, s: System, task: nat, ask: Event, e: Event, closing: nat)
    requires task < |s.tasks| && Untouched(s) && ask == Event(Request, cfg.timeout)
    requires e.op == Success && closing == 2
    ensures CloseIsDue(cfg, Execute(cfg, s, DroppedAfter(task, NearlyClosing(cfg, task, ask), e, closing)))
  {
    var mid := Execute(cfg, s, NearlyClosing(cfg, task, ask));
    var b := mid.breaker;
    var c := b.(successCount := b.successCount + 1);
    OneShortOfClose(cfg, s, task, ask);
    AloneAlong(cfg, [(b, SuccessRead), (b, SuccessAdd), (c, CloseWrite)], e.time, closing);
    DroppedCall(cfg, s, task, NearlyClosing(cfg, task, ask), e, closing, mid, c, CloseWrite,
                DroppedAfter(task, NearlyClosing(cfg, task, ask), e, closing));
  }

  /**
   At rest a trip, or a close, can be due exactly when calls can be dropped: one task is enough, and resets make
   no difference.
   */
  lemma DueAtRestIffDropped(cfg: Config, withDrops: bool, taskCount: nat)
    ensures CanLeaveTripDue(cfg, withDrops, taskCount) <==> withDrops && taskCount >= 1
    ensures CanLeaveCloseDue(cfg, withDrops, taskCount) <==> withDrops && taskCount >= 1
  {
    var start := Start(taskCount);
    if withDrops && taskCount >= 1 {
      var fail, ask, succeed := Event(Failure, 0.0), Event(Request, cfg.timeout), Event(Success, 0.0);
      DroppedTripLeaves(cfg, start, 0, fail, 3, 5);
      DroppedCloseLeavesItDue(cfg, start, 0, ask, succeed, 2);
      assert LeavesTripDue(cfg, withDrops, taskCount, DroppedTrip(cfg, 0, fail, 3));
      assert LeavesCloseDue(cfg, withDrops, taskCount, DroppedAfter(0, NearlyClosing(cfg, 0, ask), succeed, 2));
    } else {
      forall run: seq<Action> | withDrops || NoDrop(run)
        ensures !TripIsDue(cfg, Execute(cfg, start, run)) && !CloseIsDue(cfg, Execute(cfg, start, run))
      {
        if withDrops {
          NobodyDoesNothing(cfg, start, run);
        } else {
          NoDropIsNeverAt(cfg, start, run, Settles);
          EveryTripAndCloseHappens(cfg, taskCount, run);
        }
      }
    }
  }

  /** The next failure performs a trip that is due, and the next success a close. */
  lemma DueIsDoneNext(cfg: Config, s: System, task: nat, now: Instant)
    requires task < |s.tasks|
    ensures TripIsDue(cfg, s) ==>
              var r := Execute(cfg, s, WholeCall(task, Event(Failure, now))).breaker;
              r.state == Open && r.lastFailureTime == Some(now)
    ensures CloseIsDue(cfg, s) ==>
              var r := Execute(cfg, s, WholeCall(task, Event(Success, now))).breaker;
              r.state == Closed && r.failureCount == 0 && r.successCount == 0
  {
    if AtRest(s) {
      WholeCallIsSequential(cfg, s, task, Event(Failure, now));
      WholeCallIsSequential(cfg, s, task, Event(Success, now));
    }
  }

  // ---------- every opening is paid for ----------

  predicate OpensBreaker(pc: Pc) {
    pc.TripWrite? || pc.ReopenWrite?
  }

  /** The task has counted a failure for which it may still open the breaker. */
  predicate MayStillOpen(pc: Pc) {
    pc.FailureRead? || pc.FailureAdd? || OpensBreaker(pc)
  }

  predicate Opens(s: System, a: Action) {
    a.Step? && a.task < |s.tasks| && OpensBreaker(s.tasks[a.task])
  }

  function Weight(b: bool): nat {
    if b then 1 else 0
  }

  function OpenersIn(tasks: seq<Pc>): nat {
    if tasks == [] then 0 else OpenersIn(tasks[..|tasks| - 1]) + Weight(MayStillOpen(tasks[|tasks| - 1]))
  }

  lemma {:induction false} OpenersAfterStep(tasks: seq<Pc>, i: nat, pc: Pc)
    requires i < |tasks|
    ensures OpenersIn(tasks[i := pc]) + Weight(MayStillOpen(tasks[i])) == OpenersIn(tasks) + Weight(MayStillOpen(pc))
  {
    var n := |tasks| - 1;
    if i == n {
      assert tasks[i := pc][..n] == tasks[..n];
    } else {
      OpenersAfterStep(tasks[..n], i, pc);
      assert tasks[i := pc][..n] == tasks[..n][i := pc];
    }
  }

  /** How often the run opens the breaker, counting a write to one that is open already. */
  function Openings(cfg: Config, s: System, run: seq<Action>): nat
    decreases |run|
  {
    if run == [] then 0
    else
      Openings(cfg, Perform(cfg, s, run[0]), run[1..]) + Weight(Opens(s, run[0]))
  }

  /** How often it goes from another state to open. */
  function MovesToOpen(cfg: Config, s: System, run: seq<Action>): nat
    decreases |run|
  {
    if run == [] then 0
    else
      var r := Perform(cfg, s, run[0]);
      MovesToOpen(cfg, r, run[1..]) + Weight(s.breaker.state != Open && r.breaker.state == Open)
  }

  lemma AdvanceCoversOpening(cfg: Config, b: Breaker, pc: Pc, now: Instant)
    ensures var (c, next) := Advance(cfg, b, pc, now);
            && Weight(OpensBreaker(pc)) + Weight(MayStillOpen(next)) + b.totalFailures <=
               c.totalFailures + Weight(MayStillOpen(pc))
            && (b.state != Open && c.state == Open ==> OpensBreaker(pc))
  {
  }

  lemma ActionCoversOpening(cfg: Config, s: System, a: Action)
    ensures var r := Perform(cfg, s, a);
            && Weight(Opens(s, a)) + OpenersIn(r.tasks) + s.breaker.totalFailures <=
               r.breaker.totalFailures + OpenersIn(s.tasks)
            && (s.breaker.state != Open && r.breaker.state == Open ==> Opens(s, a))
  {
    if a.task < |s.tasks| {
      var r := Perform(cfg, s, a);
      OpenersAfterStep(s.tasks, a.task, r.tasks[a.task]);
      assert r.tasks == s.tasks[a.task := r.tasks[a.task]];
      if a.Step? {
        AdvanceCoversOpening(cfg, s.breaker, s.tasks[a.task], a.now);
      }
    }
  }

  lemma {:induction false} FailuresCoverOpenings(cfg: Config, s: System, run: seq<Action>)
    ensures var r := Execute(cfg, s, run);
            Openings(cfg, s, run) + OpenersIn(r.tasks) + s.breaker.totalFailures <=
            r.breaker.totalFailures + OpenersIn(s.tasks)
    ensures MovesToOpen(cfg, s, run) <= Openings(cfg, s, run)
    decreases |run|
  {
    if run != [] {
      ActionCoversOpening(cfg, s, run[0]);
      FailuresCoverOpenings(cfg, Perform(cfg, s, run[0]), run[1..]);
    }
  }

  lemma {:induction false} NobodyOpensAtStart(tasks: seq<Pc>)
    requires forall i :: 0 <= i < |tasks| ==> tasks[i] == Idle
    ensures OpenersIn(tasks) == 0
  {
    if tasks != [] {
      NobodyOpensAtStart(tasks[..|tasks| - 1]);
    }
  }

  /** Under every interleaving the breaker opens no more often than failures are recorded. */
  lemma OpeningsArePaidFor(cfg: Config, taskCount: nat, run: seq<Action>)
    ensures MovesToOpen(cfg, Start(taskCount), run) <= Openings(cfg, Start(taskCount), run)
            <= Execute(cfg, Start(taskCount), run).breaker.totalFailures
  {
    NobodyOpensAtStart(Start(taskCount).tasks);
    FailuresCoverOpenings(cfg, Start(taskCount), run);
  }
}
