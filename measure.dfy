/**
 * The measurement gate (single flight plus cooldown) and the download
 * outcome of one throughput measurement.
 */
module Measure {

  /** Clock readings are nanoseconds, as a Go time.Duration counts them. */
  const Second: int := 1_000_000_000

  /** Minimum time between the end of one measurement and the start of the next. */
  const Cooldown: int := 30 * Second

  /**
   * When the last measurement finished. `Never` is Go's zero time.Time: the
   * time since it, capped at Go's largest Duration (about 292 years), far
   * exceeds the 30 s cooldown.
   */
  datatype Instant = Never | At(t: int)

  /** The gate: no measurement in flight and the cooldown has elapsed since the last one ended. */
  predicate MayStart(measuring: bool, last: Instant, now: int) {
    !measuring && (last.Never? || now - last.t >= Cooldown)
  }

  /** What the download of the test payload did. */
  datatype Download =
    | RequestFailed
    | ReadFailed
    | Received(bytes: nat, seconds: real)

  /** The monotonic clock never yields a negative duration. */
  predicate WellFormed(d: Download) {
    d.Received? ==> d.seconds >= 0.0
  }

  /**
   * Megabits per second measured by a download. Every failure path, and a
   * download that took no measurable time, yields zero; otherwise the speed
   * is positive exactly when some bytes arrived.
   */
  function MeasuredSpeed(d: Download): (mbps: real)
    requires WellFormed(d)
    ensures mbps >= 0.0
    ensures mbps == 0.0 <==> !d.Received? || d.seconds == 0.0 || d.bytes == 0
  {
    match d
    case RequestFailed => 0.0
    case ReadFailed => 0.0
    case Received(n, secs) =>
      if secs == 0.0 then 0.0
      else (n * 8) as real / secs / 1_000_000.0
  }

  /** 5,000,000 bytes in one second is 40 Mbps. */
  lemma FullPayloadInOneSecond()
    ensures MeasuredSpeed(Received(5_000_000, 1.0)) == 40.0
  {
  }
}
