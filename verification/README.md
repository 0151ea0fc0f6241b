# Verified model of the mesh proxy's stateful components

This project models six components of the proxy and proves what each guarantees over every run of calls:
the token-bucket rate limiter, the circuit breaker (one call at a time, and as interleaved atomic steps), the
load balancer that selects endpoints through their breakers, the router, the retry executor and the
connection limiter. `dafny verify dfyconfig.toml` checks all of it.

Each stateful object of the program is a class whose methods update it in place. The contract of a method gives the
new state by a function on plain values, and the lemmas are about those functions and about runs of them.
Concurrency is a transition system: every task has a program counter, every step reads or writes one
shared cell, and any number of tasks interleave in any order. A task may also drop a call of the breaker wherever
that call waits for a lock.

| file | component |
|---|---|
| `TokenBucket.dfy` | one bucket: refill, consumption, wait; window bound and greedy optimality |
| `RateLimiter.dfy`, `RateLimiterRuns.dfy` | global and client buckets, cleanup; runs of `check` |
| `ClientLimits.dfy`, `Forgetting.dfy` | when a client bucket can limit; when forgetting clients can be noticed |
| `CircuitBreaker.dfy` | the breaker object, its trace specification, timing and amortised bounds |
| `BreakerSteps.dfy` | the same breaker as interleaved atomic steps |
| `LoadBalancer.dfy`, `Fairness.dfy` | selection with fallback through breakers; fairness of runs |
| `Router.dfy` | regex cache, matching, sorted route table, rewriting |
| `Retry.dfy` | backoff arithmetic, retry policy, executor |
| `ConnectionLimiter.dfy` | semaphore and counters, sequential and interleaved |
| `Clock.dfy`, `Wrappers.dfy` | instants and elapsed time; optional values |

## Findings

Where the code differs from what its documentation suggests, the model follows the code.

* The documentation announces per-client and global limits. Every client bucket has the capacity and rate of the
  global bucket and is asked only after that one has served. So, among calls that do not overlap, it can limit a call
  only if the time between the two clock readings is shorter than for an earlier call of the same client: it never trails
  the global bucket by more than the tokens of that difference (`ClientTrailsByShrinkage`,
  `PerClientNeverLimits`), and it can limit some call exactly when that time can vary at all, clients are limited, and
  neither burst size nor rate is zero (`ClientsCanBeLimitedIff`).
* Forgetting idle clients changes no outcome exactly when clients are not limited, the burst size or the rate is zero,
  or both of these hold: the time to live covers a whole refill and what a call earns between
  dating its access and refilling the bucket, up to one token; and the time to live less that time still earns one
  token (`ForgettingIsInvisibleIff`). For a client whose time between the two buckets does not shrink it changes
  none, whatever the time to live (`ForgettingNeverChangesOutcome`).
* The `Retry-After` header always says one second (`RetryAfterHeaderSuffices`). With a burst size of zero no
  wait is ever enough (`RetryAfterIsExact`).
* Configuration accepts a rate of zero, and then every call after the burst divides by it and panics
  (`PanicsIffRateIsZero`).
* A `reset` that overlaps a trip, or a `record_failure` dropped while it waits to write the failure time, can leave the
  breaker open without one, and then it rejects every request until another failure or reset is recorded
  (`WedgesIffOverlappedOrDropped`, `WedgeIsATrap`). Otherwise this cannot happen (`OpenCanRecover`).
* A call dropped while it waits to open or close the breaker leaves that trip or close due with nobody to perform it; the
  next failure or success does. Without such drops none is ever due at rest (`DueAtRestIffDropped`, `DueIsDoneNext`,
  `EveryTripAndCloseHappens`).
* Half-open is documented to admit limited requests, but it admits every one (`HalfOpenAdmitsAll`).
* Two tasks whose calls overlap can move the breaker from closed straight to half-open, under every configuration; one
  task alone cannot (`SkipsOpenIffCallsOverlap`).
* Rotation is unfair across a wrap of its 64-bit counter exactly when the number of endpoints does not divide 2^64
  (`AlwaysFairIff`).
* The backoff exponent is a signed 32-bit cast of the attempt number, so delays collapse at attempt 2^31 unless they
  are constant or the base delay is far above the maximum (`DelaysNeverShrinkIff`).
* With jitter a delay can exceed the documented maximum, by up to half of it (`CanExceedMaximumIff`).
* The executor documents retries on retryable status codes, but it tests errors only: a response is returned
  whatever its status (`RetryExecutor.Execute`).
* The executor is not reset between executions, so a failing execution reports its own calls only if no earlier one
  has retried (`ReportsOwnCallsIff`).

## Model

| member | source | states |
|---|---|---|
| TokenBuckets.TokenBucket.constructor | src/ratelimit.rs:104-111 | a new bucket is full and dated now |
| TokenBuckets.TokenBucket.Refill | src/ratelimit.rs:114-119 | a refill adds the tokens earned since the last update, up to the capacity, and moves the update time |
| TokenBuckets.TokenBucket.TryConsume | src/ratelimit.rs:124-132 | succeeds exactly when a whole token is there after the refill, and then takes one |
| TokenBuckets.TokenBucket.WaitTime | src/ratelimit.rs:135-142 | the time the bucket needs to hold one token, or a panic when it is short of one and the rate is zero |
| TokenBuckets.BucketWaitIsExact | src/ratelimit.rs:135-142 | from any bucket, with nothing consumed in between, a request succeeds exactly from the end of the reported wait on, provided the capacity is at least one |
| TokenBuckets.WaitIsExact | src/ratelimit.rs:124-142 | in particular after a request, whether it was served or rejected |
| TokenBuckets.BucketShowsLevel | src/ratelimit.rs:104-132 | a bucket's refilled tokens are the level its own history of decisions leaves it |
| TokenBuckets.LevelMeetsSomeWindow | src/ratelimit.rs:114-132 | for any history some window ending now is used up to exactly the remaining level |
| TokenBuckets.AcceptsIffEveryWindowAllows | src/ratelimit.rs:104-132 | a request is served if and only if every window ending at it stays within capacity + rate * length |
| TokenBuckets.EveryWindowWithinLimit | src/ratelimit.rs:104-132 | no window of time, wherever it lies, sees more than capacity + rate * length requests served |
| TokenBuckets.GreedyIsOptimal | src/ratelimit.rs:114-132 | after every prefix the bucket has served at least as many requests as any other policy that respects the same window limit |
| RateLimiters.ClientEntry.TryAcquire | src/ratelimit.rs:167-170 | an access is dated by one clock reading and takes a token, if there is one, at a later reading |
| RateLimiters.RateLimiter.constructor | src/ratelimit.rs:187-197 | a new limiter has a full global bucket and no clients |
| RateLimiters.RateLimiter.Check | src/ratelimit.rs:284-320 | outcome and new state of one call, each clock reading its own: global bucket first, then cleanup and the client's bucket |
| RateLimiters.RateLimiter.MaybeCleanup | src/ratelimit.rs:323-342 | within 60 seconds of the last cleanup nothing happens; from then on exactly the entries seen within the time to live are kept, and the cleanup is dated |
| RateLimiterRuns.CleanupForgetsExactly | src/ratelimit.rs:296-342 | over every run, a call that reaches its client forgets nobody within 60 seconds of the latest cleanup, and afterwards exactly the clients last seen longer ago than the time to live; what becomes of its own client's entry |
| RateLimiterRuns.ClientTrailsByShrinkage | src/ratelimit.rs:284-320 | over every run, the bucket of a client trails the global one by no more than the tokens of the time by which the lag between asking the two has shrunk for that client |
| RateLimiterRuns.PerClientNeverLimits | src/ratelimit.rs:284-320 | for a client whose lag does not shrink, or with a rate of zero, the outcome is decided by the global bucket alone |
| ClientLimits.ClientsCanBeLimitedIff | src/ratelimit.rs:284-320 | a client bucket can limit a call that the global one has served if and only if the lag can vary, clients are limited, and burst and rate are not zero |
| RateLimiterRuns.TokensAreAccountedFor | src/ratelimit.rs:284-320 | over every run, the global tokens consumed are the calls allowed plus those limited by client buckets |
| RateLimiterRuns.AllowedWithinLimit | src/ratelimit.rs:284-320 | over every run, no window of time sees more than burst size + rate * length calls allowed |
| RateLimiterRuns.PanicsIffRateIsZero | src/ratelimit.rs:135-142 | a call panics exactly when the rate is zero and at least as many calls came before as the burst allows |
| RateLimiterRuns.RetryAfterIsExact | src/ratelimit.rs:286-294 | after a rejection by the global bucket the next call is rejected by it again exactly until the reported wait has passed, or for ever if the burst size is zero |
| RateLimiters.RateLimitInfo.RetryAfterSecs | src/ratelimit.rs:375-380 | whole seconds of any wait, rounded down, but at least one |
| RateLimiterRuns.RetryAfterHeaderSuffices | src/ratelimit.rs:375-380 | over every run the header value is one second and never less than the wait (RFC 9110, section 10.2.3), and nothing is reported as remaining |
| RateLimiterRuns.GlobalRejectionLeavesNoTrace | src/ratelimit.rs:286-294 | a call rejected by the global bucket can be dropped from a run without changing any later outcome or state |
| RateLimiterRuns.OthersOnlyForget | src/ratelimit.rs:296-342 | over every run of calls for other clients, the entry of a client stays as it is or is forgotten by a due cleanup that finds it expired |
| ForgottenClients.ForgettingIsInvisibleIff | src/ratelimit.rs:323-342 | over all runs, forgetting changes no outcome, limit type or wait if and only if the time to live covers a refill in the stated sense or client buckets never matter |
| ForgottenClients.ForgettingNeverChangesOutcome | src/ratelimit.rs:323-342 | the same for every time to live for a client whose lag between the two buckets does not shrink |
| ForgottenClients.EntryIsOwnHistory | src/ratelimit.rs:296-319 | in a limiter that never forgets, a client has an entry exactly when one of its calls reached it, and the entry is what its own calls alone leave |
| ForgottenClients.ClientsAreIsolated | src/ratelimit.rs:296-342 | where forgetting is invisible, the tokens a client finds depend only on its own calls |
| ForgottenClients.AllowedIffEveryWindowAllows | src/ratelimit.rs:284-320 | there, a call is allowed if and only if every window of all calls and every window of its client's calls stays within burst size + rate * length |
| ForgottenClients.ClientRetryAfterIsExact | src/ratelimit.rs:306-314 | there, after a rejection by its own bucket the next call of the client that the global bucket serves is allowed exactly when the reported wait has passed |
| CircuitBreakers.CircuitBreaker.constructor | src/circuit_breaker.rs:83-93 | a new breaker is closed with zero counters and no failure time |
| CircuitBreakers.CircuitBreaker.AllowRequest | src/circuit_breaker.rs:98-124 | rejects only when open before the timeout; an open breaker past it becomes half-open |
| CircuitBreakers.CircuitBreaker.RecordSuccess | src/circuit_breaker.rs:127-146 | clears failures when closed; closes a half-open breaker at the success threshold |
| CircuitBreakers.CircuitBreaker.RecordFailure | src/circuit_breaker.rs:149-174 | trips a closed breaker at the failure threshold, reopens a half-open one, redates an open one |
| CircuitBreakers.CircuitBreaker.Reset | src/circuit_breaker.rs:193-198 | closed, counters zero, no failure time, statistics kept |
| CircuitBreakers.TraceRefinement | src/circuit_breaker.rs:98-198 | after any run the whole breaker (state, both counters, failure time, statistics) is the one computed from the events alone |
| CircuitBreakers.CountersStayBelowThresholds | src/circuit_breaker.rs:131-161 | counters never pass their thresholds, so they cannot overflow |
| CircuitBreakers.OpenAdmitsOnlyAfterTimeout | src/circuit_breaker.rs:105-121 | an open breaker admits exactly when the timeout has passed since the latest failure of the run |
| CircuitBreakers.HalfOpenAdmitsAll | src/circuit_breaker.rs:122 | a half-open breaker admits every request, however many come, and stays as it is |
| CircuitBreakers.ProbesAreSpaced | src/circuit_breaker.rs:105-121 | two entries to half-open are at least the timeout apart, resets included |
| CircuitBreakers.TripsArePaidFor | src/circuit_breaker.rs:149-174 | failure threshold * trips + reopenings never exceeds the failures recorded |
| BreakerSteps.EveryTripAndCloseHappens | src/circuit_breaker.rs:98-198 | under every interleaving, resets included, that drops no call about to trip or close the breaker, a due trip or close has a task about to perform or cancel it; at rest none is due |
| BreakerSteps.DueAtRestIffDropped | src/circuit_breaker.rs:127-174 | some run leaves a trip due at rest, and some run a close, if and only if calls can be dropped and there is a task at all, for every configuration |
| BreakerSteps.DueIsDoneNext | src/circuit_breaker.rs:127-174 | the next failure performs a trip that is due at rest, and the next success a close |
| BreakerSteps.OpeningWritesInOrder | src/circuit_breaker.rs:155-172 | the writes of a trip, a reopening and a redating, one by one in the order of the program |
| BreakerSteps.ClosingWritesInOrder | src/circuit_breaker.rs:111-198 | the writes of a close, a reset and a probe, likewise |
| BreakerSteps.SuspendedIffAwaits | src/circuit_breaker.rs:98-198 | a call can be dropped exactly where it has not begun or its next step depends on or changes what the locks guard |
| BreakerSteps.WholeCallIsSequential | src/circuit_breaker.rs:98-198 | a call whose steps are not interrupted has exactly the effect and answer of the sequential call |
| BreakerSteps.OpenCanRecover | src/circuit_breaker.rs:105-172 | without resets, and without drops between opening the breaker and writing the time, open with no failure time implies a task about to write one; at rest an open breaker admits a request once the timeout has passed |
| BreakerSteps.WedgesIffOverlappedOrDropped | src/circuit_breaker.rs:149-198 | some run of a number of tasks ends at rest, open and with no failure time if and only if resets are allowed and there are at least two tasks, or calls can be dropped and there is one, for every configuration |
| BreakerSteps.WedgeIsATrap | src/circuit_breaker.rs:105-120 | such a breaker rejects every request, at any time, until a failure or a reset is recorded |
| BreakerSteps.SkipsOpenIffCallsOverlap | src/circuit_breaker.rs:109-114 | some run of a number of tasks takes a new breaker from closed straight to half-open if and only if there are at least two tasks, for every configuration |
| BreakerSteps.OpeningsArePaidFor | src/circuit_breaker.rs:149-174 | under every interleaving the breaker opens no more often than failures are recorded |
| LoadBalancers.Endpoint.constructor | src/transport.rs:113-126 | a new endpoint is healthy, idle and has a new breaker of its own with the default configuration |
| LoadBalancers.Endpoint.AcquireConnection | src/transport.rs:151-153 | counts a connection, modulo the word size |
| LoadBalancers.Endpoint.ReleaseConnection | src/transport.rs:156-158 | uncounts a connection, modulo the word size |
| LoadBalancers.LeastIndex | src/transport.rs:289-294 | the first of the endpoints with the fewest active connections |
| LoadBalancers.HealthyInOrder | src/transport.rs:240-245 | the healthy endpoints are exactly those of the list that are healthy, in its order |
| LoadBalancers.LoadBalancer.Select | src/transport.rs:239-303 | by policy: rotation takes the healthy endpoint at the counter modulo their number and advances the counter, least connections the first with the fewest active connections, random the one drawn; returned if no breaker is open, and otherwise put to the breakers |
| LoadBalancers.SelectionContract | src/transport.rs:262-276 | the chosen endpoint if its breaker admits, else the first healthy one with another address whose breaker admits, else none; only the returned endpoint's breaker changes state |
| LoadBalancers.SelectionAsksOnce | src/transport.rs:262-276 | with distinct addresses each healthy breaker is asked at most once and no other at all |
| LoadBalancers.SelectionAsksExactly | src/transport.rs:262-276 | with distinct addresses it asks the chosen breaker once and, if that refuses, each other one up to the first that admits, once |
| LoadBalancers.HealthyStayDistinct | src/transport.rs:240-245 | filtering the healthy endpoints keeps their addresses distinct |
| Fairness.FairBetweenWraps | src/transport.rs:280-286 | k * n rotations in a row pick each of n endpoints k times if the counter does not wrap |
| Fairness.AlwaysFairIff | src/transport.rs:280-286 | the same for runs that may wrap, if and only if n divides the word size |
| Fairness.SelectRepeatedly | src/transport.rs:239-286 | calls of the object in a row by a rotating policy, while no breaker is open, return the healthy endpoints at the successive values of the counter |
| Fairness.CounterRotates | src/transport.rs:280-286 | and so exactly the rotation: selection i the endpoint number (start + i) mod 2^64 mod n |
| Fairness.RotationIsFair | src/transport.rs:280-286 | whole rounds of such a rotation return each endpoint once a round, if the counter does not wrap or n divides the word size |
| Fairness.SelectionsFollowRotation | src/transport.rs:239-286 | while no breaker is open, successive selections return exactly the rotation |
| Fairness.EachEndpointServesEqually | src/transport.rs:239-286 | through the breakers, while none is open, k * n selections in a row return each of n endpoints exactly k times, if the counter does not wrap or n divides the word size |
| Fairness.LeastConnectionsGoesRound | src/transport.rs:288-294 | from equal loads, each choice followed by an acquire goes round in order and keeps all loads within one of each other |
| Fairness.LeastConnectionsServesInTurn | src/transport.rs:239-294 | the same for whole selections through the breakers, while none is open |
| Routers.RegexCache.GetOrCompile | src/router.rs:19-41 | a cached lookup returns what compiling the pattern would, and the cache holds each pattern only with its own compilation |
| Routers.MatchesIffFits | src/router.rs:287-307 | a route matches exactly when it is enabled, its verb is any or that of the request, and the conditions on path and headers hold, each spelled out |
| Routers.RouteMatches | src/router.rs:287-307 | matching through the cache decides exactly these conditions |
| Routers.HeaderMatches | src/router.rs:92-114 | each header condition, through the cache |
| Routers.PathMatches | src/router.rs:150-162 | each path condition, through the cache |
| Routers.FirstOccurrence | src/router.rs:393 | the first position at which a text contains another, if any |
| Routers.PrefixRewrite | src/router.rs:390-397 | a matching prefix route forwards the rewrite followed by the path after the prefix, the empty prefix included |
| Routers.SortIsTheStableSort | src/router.rs:371-373 | the sorted table is the one table that is sorted by falling priority and keeps the order of ties |
| Routers.ScanFindsBest | src/router.rs:362-397 | the first match in the sorted table is the highest-priority, earliest match, and removing it leaves the table sorted as if it had been removed before |
| Routers.Router.WithRoutes | src/router.rs:340-347 | a router created with routes holds them sorted |
| Routers.Router.AddRoute | src/router.rs:356-359 | the route joins the table, which is sorted again |
| Routers.Router.RemoveRoute | src/router.rs:362-368 | of the routes in force with the name, the earliest exact one, else the earliest with a prefix, else with a pattern, leaves the table and is returned |
| Routers.Router.FindRoute | src/router.rs:376-417 | of the routes in force that fit the request, the earliest exact one, else the earliest with a prefix, else with a pattern, with its rewritten path; else the default upstream, else none |
| Routers.BestComesFirst | src/router.rs:45-171 | the highest priority, earliest on ties, is the earliest exact route, else the earliest prefix route, else the earliest regex route |
| Routers.RoutingByShape | src/router.rs:376-417 | the same answer after any run of changes to the table |
| Routers.AnswerIsUnique | src/router.rs:376-417 | there is only one such answer |
| Routers.DisabledRouteIsInvisible | src/router.rs:287-290 | adding a disabled route changes no answer |
| Routers.TableIsSortedLive | src/router.rs:340-373 | after any run of additions and removals the table is the stable sort of the routes in force, in order of arrival |
| Routers.IncrementalIsBatch | src/router.rs:340-359 | adding routes one by one leaves the table of a router created with all of them |
| Routers.RoutingIsBestMatch | src/router.rs:376-417 | after any run of changes the answer is the highest-priority matching route, earliest on ties, else the default, else none |
| Routers.AddedRouteOrNoChange | src/router.rs:356-417 | adding a route changes an answer only to that route |
| Routers.AddThenRemoveRestores | src/router.rs:356-368 | adding a route under a fresh name and removing it restores the table |
| Retries.NextDelayIsDelay | src/retry.rs:117-133 | a delay is the base times the multiplier once for each earlier attempt, capped by the maximum, times the draw if there is jitter, in whole milliseconds that fit 64 bits |
| Retries.RetryPolicy.RecordRetry | src/retry.rs:138-154 | counts a retry and gives that delay while retries remain |
| Retries.RetryPolicy.Reset | src/retry.rs:157-159 | the next request starts from the first attempt |
| Retries.RetryExecutor.Execute | src/retry.rs:204-236 | terminates; every call but the last failed retryably; the last succeeded, failed for good or used up the retries; the reported attempts are those of the calls made, and each sleep is the delay of its retry |
| Retries.ReportsOwnCallsIff | src/retry.rs:204-236 | over any number of executions without a reset, one that fails reports its own calls if and only if no earlier first call failed retryably, or there are no retries, and the number fits 32 bits |
| Retries.DelaysGrowAndAreCapped | src/retry.rs:117-133 | without jitter later retries wait no less, and none over the maximum, for attempts below 2^31 |
| Retries.DelayCollapsesPastBoundary | src/retry.rs:119 | an attempt number from 2^31 on waits less than the base delay |
| Retries.DelaysNeverShrinkIff | src/retry.rs:117-133 | for any multiplier of at least one, base and maximum, delays without jitter are non-decreasing over all retries if and only if there are at most 2^31 of them, or they are all the same, or the smallest power leaves them at the maximum |
| Retries.CanExceedMaximumIff | src/retry.rs:117-133 | some draw of the jitter gives a delay above the maximum if and only if there is jitter and 1.5 times the delay before it is more than a millisecond above the maximum |
| Retries.TotalSleepAtLeast | src/retry.rs:117-133 | k retries below attempt 2^31 sleep at least k times the base or the maximum, whichever is less, halved by jitter |
| Retries.TotalSleepIsGeometric | src/retry.rs:117-133 | without jitter, while no delay reaches the maximum, k retries sleep base * (m^k - 1) / (m - 1) less at most a millisecond each |
| Retries.TotalSleep | src/retry.rs:117-133 | any number k of retries sleeps at most 1.5 * min(k * maximum, base * (m^k - 1) / (m - 1)) |
| ConnectionLimiters.ConnectionLimiter.TryAcquire | src/connection.rs:82-105 | takes a permit and counts the connection, or counts a rejection exactly when all permits are taken |
| ConnectionLimiters.ConnectionLimiter.DropGuard | src/connection.rs:144-152 | uncounts the connection and gives the permit back |
| ConnectionLimiters.ConnectionsAreBounded | src/connection.rs:82-152 | at every step of every interleaving the counter is the permits held less those not yet counted and already uncounted, and lies between zero and the limit; at rest every attempt is accepted or rejected; with all guards dropped the counter is zero |
| ConnectionLimiters.RefusedIffFull | src/connection.rs:83-103 | a task is refused exactly when every permit is held at that moment |
| ConnectionLimiters.UninterruptedAcquire | src/connection.rs:82-105 | the steps of an uninterrupted attempt are the whole call |
| ConnectionLimiters.UninterruptedDrop | src/connection.rs:144-152 | the steps of an uninterrupted drop are the whole drop |

## Left out

- Floating point: tokens, delays and multipliers are exact reals, durations are not rounded to nanoseconds, and delays are whole milliseconds as the code computes them.
- Clock readings: `check` takes a reading of its own for each place that reads the clock and for each entry a cleanup tests; its constructor uses one for both, and `select` one for the breaker of each endpoint it asks. The access time a new entry is created with is overwritten before anything reads it, and is not a reading of its own.
- Concurrent calls of the rate limiter, the load balancer and the router: each call is one step there. The circuit breaker and the connection limiter are modelled step by step, with sequentially consistent steps.
- LoadBalancers.LoadBalancer.Select: requires that different endpoints have different breakers, which holds because each endpoint creates its own.
- Retries.RetryExecutor.Execute: the reported attempts wrap around at 2^32, as in a build without overflow checks; a build with them panics there.
- ConnectionLimiters.ConnectionLimiter.constructor: accepts any limit, while the semaphore of the source panics above its own maximum number of permits.
- Dropping a `select` or an execution while it waits: these calls run to their end here. The circuit breaker is modelled with dropped calls.
- The test of response status codes, which the executor does not use.
- The test whether an error text is retryable, the header map and the regular expression engine are parameters: a predicate on errors, a lookup by name, and functions that compile and match.
- The random generator: the draw of the random policy and the jitter factor are parameters.
- Overflow of the statistics counters of breakers and of the connection limiter.
- Header parsing for client addresses, endpoint statistics and weights, pool limits, cluster maps, configuration builders and the printing of errors.
- Sockets, TLS, listeners, the admin interface, metrics and shutdown.
