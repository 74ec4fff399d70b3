/** Clock readings and durations in nanoseconds; 0 is Go's zero time. */
module Clock {
  type Time = nat

  const SECOND: nat := 1_000_000_000
  const MINUTE: nat := 60 * SECOND
  const HOUR: nat := 60 * MINUTE
}
