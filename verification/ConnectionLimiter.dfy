/**
 The connection limiter: a semaphore that bounds connections, and separate counters that report them.
 First one call at a time, then step by step with any number of tasks interleaving.
 */
module ConnectionLimiters {

  /** Permits left in the semaphore, and the counters. */
  datatype Counters = Counters(permits: nat, active: int, accepted: nat, rejected: nat)

  function Fresh(maxConnections: nat): Counters {
    Counters(maxConnections, 0, 0, 0)
  }

  function AfterAcquire(c: Counters): Counters {
    if c.permits > 0 then c.(permits := c.permits - 1, active := c.active + 1, accepted := c.accepted + 1)
    else c.(rejected := c.rejected + 1)
  }

  function AfterDrop(c: Counters): Counters {
    c.(active := c.active - 1, permits := c.permits + 1)
  }

  class ConnectionLimiter {
    const maxConnections: nat
    var permits: nat
    var active: int
    var accepted: nat
    var rejected: nat

    ghost function View(): Counters
      reads this
    {
      Counters(permits, active, accepted, rejected)
    }

    /** Permits are neither lost nor made, and the counter reports those taken. */
    ghost predicate Valid()
      reads this
    {
      active >= 0 && permits + active == maxConnections
    }

    constructor (maxConnections: nat)
      ensures Valid() && View() == Fresh(maxConnections) && this.maxConnections == maxConnections
    {
      this.maxConnections := maxConnections;
      permits, active, accepted, rejected := maxConnections, 0, 0, 0;
    }

    method TryAcquire() returns (ok: bool)
      requires Valid()
      modifies this
      ensures Valid() && View() == AfterAcquire(old(View()))
      ensures ok == (old(active) < maxConnections)
    {
      if permits > 0 {
        permits := permits - 1;
        active := active + 1;
        accepted := accepted + 1;
        return true;
      } else {
        rejected := rejected + 1;
        return false;
      }
    }

    /** Dropping a guard that somebody holds. */
    method DropGuard()
      requires Valid() && active > 0
      modifies this
      ensures Valid() && View() == AfterDrop(old(View()))
    {
      active := active - 1;
      permits := permits + 1;
    }
  }

  // ---------- any number of tasks ----------

  /** Where a task is in the life of one connection. */
  datatype Pc =
    | Outside     // holds nothing
    | Trying      // about to ask the semaphore
    | Permitted   // has the permit, about to count the connection as active
    | Counted     // about to count it as accepted
    | Holding     // holds a guard
    | Dropping    // about to uncount the connection
    | Uncounted   // about to give the permit back
    | Refused     // about to count the rejection

  /** `attempts` counts the calls begun; nothing in the program does. */
  datatype System = System(counters: Counters, attempts: nat, tasks: seq<Pc>)

  function Advance(c: Counters, pc: Pc): (Counters, Pc) {
    match pc
    case Outside => (c, Trying)
    case Trying => if c.permits > 0 then (c.(permits := c.permits - 1), Permitted) else (c, Refused)
    case Permitted => (c.(active := c.active + 1), Counted)
    case Counted => (c.(accepted := c.accepted + 1), Holding)
    case Holding => (c, Dropping)
    case Dropping => (c.(active := c.active - 1), Uncounted)
    case Uncounted => (c.(permits := c.permits + 1), Outside)
    case Refused => (c.(rejected := c.rejected + 1), Outside)
  }

  /** One step of one task; a task that does not exist takes none. */
  function Step(s: System, task: nat): System {
    if task >= |s.tasks| then s
    else
      var (c, pc) := Advance(s.counters, s.tasks[task]);
      System(c, s.attempts + (if s.tasks[task] == Outside then 1 else 0), s.tasks[task := pc])
  }

  /** The steps of a run name the task that takes each. */
  function Execute(s: System, run: seq<nat>): System
    decreases |run|
  {
    if run == [] then s else Execute(Step(s, run[0]), run[1..])
  }

  function Start(maxConnections: nat, taskCount: nat): System {
    System(Fresh(maxConnections), 0, seq(taskCount, _ => Outside))
  }

  type Test = Pc -> bool

  function CountOf(tasks: seq<Pc>, test: Test): nat {
    if tasks == [] then 0 else (if test(tasks[0]) then 1 else 0) + CountOf(tasks[1..], test)
  }

  lemma {:induction false} CountAfterUpdate(tasks: seq<Pc>, test: Test, i: nat, pc: Pc)
    requires i < |tasks|
    ensures CountOf(tasks[i := pc], test) ==
            CountOf(tasks, test) - (if test(tasks[i]) then 1 else 0) + (if test(pc) then 1 else 0)
  {
    if i > 0 {
      assert tasks[i := pc][1..] == tasks[1..][i - 1 := pc];
      CountAfterUpdate(tasks[1..], test, i - 1, pc);
    }
  }

  lemma {:induction false} CountNone(tasks: seq<Pc>, test: Test)
    requires forall i :: 0 <= i < |tasks| ==> !test(tasks[i])
    ensures CountOf(tasks, test) == 0
  {
    if tasks != [] {
      CountNone(tasks[1..], test);
    }
  }

  const HOLDS_PERMIT: Test := (pc: Pc) => pc !in {Outside, Trying, Refused}
  const IS_ACTIVE: Test := (pc: Pc) => pc in {Counted, Holding, Dropping}
  const NOT_YET_ACTIVE: Test := (pc: Pc) => pc == Permitted
  const NO_LONGER_ACTIVE: Test := (pc: Pc) => pc == Uncounted
  const UNDECIDED: Test := (pc: Pc) => pc in {Trying, Permitted, Counted, Refused}

  /**
   Permits are conserved; the active counter is the permits held, less the connections not yet counted and
   those already uncounted; every attempt is accepted, rejected or still under way.
   */
  ghost predicate Invariant(maxConnections: nat, s: System) {
    && s.counters.permits + CountOf(s.tasks, HOLDS_PERMIT) == maxConnections
    && s.counters.active ==
       CountOf(s.tasks, HOLDS_PERMIT) - CountOf(s.tasks, NOT_YET_ACTIVE) - CountOf(s.tasks, NO_LONGER_ACTIVE)
    && s.counters.active == CountOf(s.tasks, IS_ACTIVE)
    && s.counters.accepted + s.counters.rejected + CountOf(s.tasks, UNDECIDED) == s.attempts
  }

  lemma StepKeepsInvariant(maxConnections: nat, s: System, task: nat)
    requires Invariant(maxConnections, s)
    ensures Invariant(maxConnections, Step(s, task))
  {
    if task < |s.tasks| {
      var pc := Advance(s.counters, s.tasks[task]).1;
      CountAfterUpdate(s.tasks, HOLDS_PERMIT, task, pc);
      CountAfterUpdate(s.tasks, IS_ACTIVE, task, pc);
      CountAfterUpdate(s.tasks, NOT_YET_ACTIVE, task, pc);
      CountAfterUpdate(s.tasks, NO_LONGER_ACTIVE, task, pc);
      CountAfterUpdate(s.tasks, UNDECIDED, task, pc);
    }
  }

  lemma {:induction false} RunKeepsInvariant(maxConnections: nat, s: System, run: seq<nat>)
    requires Invariant(maxConnections, s)
    ensures Invariant(maxConnections, Execute(s, run))
    decreases |run|
  {
    if run != [] {
      StepKeepsInvariant(maxConnections, s, run[0]);
      RunKeepsInvariant(maxConnections, Step(s, run[0]), run[1..]);
    }
  }

  /** No task is in the middle of a call, or holds a guard. */
  predicate AllOutside(s: System) {
    forall i :: 0 <= i < |s.tasks| ==> s.tasks[i] == Outside
  }

  /** No task is in the middle of a call; some may hold guards. */
  predicate AtRest(s: System) {
    forall i :: 0 <= i < |s.tasks| ==> s.tasks[i] == Outside || s.tasks[i] == Holding
  }

  /**
   At every step of every interleaving the active counter lies between zero and the limit.  Whenever no
   call is in progress every attempt was accepted or rejected and the counter and the permits add up to
   the limit; and once every guard is dropped the counter is zero and every permit is back.
   */
  lemma ConnectionsAreBounded(maxConnections: nat, taskCount: nat, run: seq<nat>)
    ensures var s := Execute(Start(maxConnections, taskCount), run);
            && Invariant(maxConnections, s)
            && 0 <= s.counters.active <= maxConnections
            && (AtRest(s) ==> s.counters.accepted + s.counters.rejected == s.attempts
                              && s.counters.active + s.counters.permits == maxConnections)
            && (AllOutside(s) ==> s.counters.active == 0 && s.counters.permits == maxConnections)
  {
    var start := Start(maxConnections, taskCount);
    CountNone(start.tasks, HOLDS_PERMIT);
    CountNone(start.tasks, IS_ACTIVE);
    CountNone(start.tasks, NOT_YET_ACTIVE);
    CountNone(start.tasks, NO_LONGER_ACTIVE);
    CountNone(start.tasks, UNDECIDED);
    RunKeepsInvariant(maxConnections, start, run);
    var s := Execute(start, run);
    if AtRest(s) {
      CountNone(s.tasks, NOT_YET_ACTIVE);
      CountNone(s.tasks, NO_LONGER_ACTIVE);
      CountNone(s.tasks, UNDECIDED);
    }
    if AllOutside(s) {
      CountNone(s.tasks, HOLDS_PERMIT);
    }
  }

  /** A task is refused exactly when every permit is held at that moment. */
  lemma RefusedIffFull(maxConnections: nat, taskCount: nat, run: seq<nat>, task: nat)
    requires var s := Execute(Start(maxConnections, taskCount), run); task < |s.tasks| && s.tasks[task] == Trying
    ensures var s := Execute(Start(maxConnections, taskCount), run);
            Step(s, task).tasks[task] == Refused <==> CountOf(s.tasks, HOLDS_PERMIT) == maxConnections
  {
    ConnectionsAreBounded(maxConnections, taskCount, run);
  }

  function Repeat(task: nat, n: nat): seq<nat> {
    if n == 0 then [] else [task] + Repeat(task, n - 1)
  }

  function StepTimes(s: System, task: nat, n: nat): System
    decreases n
  {
    if n == 0 then s else StepTimes(Step(s, task), task, n - 1)
  }

  lemma {:induction false} RepeatedSteps(s: System, task: nat, n: nat)
    ensures Execute(s, Repeat(task, n)) == StepTimes(s, task, n)
    decreases n
  {
    if n > 0 {
      assert Repeat(task, n)[1..] == Repeat(task, n - 1);
      RepeatedSteps(Step(s, task), task, n - 1);
    }
  }

  /** A task that tries uninterrupted has exactly the effect of the whole call, in four steps or three. */
  lemma UninterruptedAcquire(s: System, task: nat)
    requires task < |s.tasks| && s.tasks[task] == Outside
    ensures var ok := s.counters.permits > 0;
            Execute(s, Repeat(task, if ok then 4 else 3)) ==
            System(AfterAcquire(s.counters), s.attempts + 1, s.tasks[task := if ok then Holding else Outside])
  {
    RepeatedSteps(s, task, if s.counters.permits > 0 then 4 else 3);
    var s1 := Step(s, task);
    var s2 := Step(s1, task);
    var s3 := Step(s2, task);
    assert StepTimes(s3, task, 1) == Step(s3, task);
    assert StepTimes(s2, task, 2) == Step(s3, task) && StepTimes(s2, task, 1) == s3;
  }

  /** Dropping a guard uninterrupted has exactly the effect of the whole drop, in three steps. */
  lemma UninterruptedDrop(s: System, task: nat)
    requires task < |s.tasks| && s.tasks[task] == Holding
    ensures Execute(s, Repeat(task, 3)) == System(AfterDrop(s.counters), s.attempts, s.tasks[task := Outside])
  {
    RepeatedSteps(s, task, 3);
    var s1 := Step(s, task);
    var s2 := Step(s1, task);
    assert StepTimes(s2, task, 1) == Step(s2, task);
  }
}
