/**
 Instants are seconds on a monotonic clock, durations are seconds.  The clock is never read by the
 model: every operation that reads it in the source takes the reading as a parameter.
 */
module Clock {
  type Instant = real
  type Duration = real

  /** Saturates at zero, as the subtraction of two monotonic instants does. */
  function Elapsed(now: Instant, since: Instant): (d: Duration)
    ensures now >= since ==> since + d == now
    ensures now <= since ==> d == 0.0
  {
    if now >= since then now - since else 0.0
  }

  ghost predicate NonDecreasing(times: seq<Instant>) {
    forall i, j :: 0 <= i < j < |times| ==> times[i] <= times[j]
  }
}
