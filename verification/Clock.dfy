/** Instants and durations in nanoseconds; a Duration is a 64-bit integer. */
module Clock {
  import Text

  const SECOND: int := 1_000_000_000

  const MAX_DURATION: int := Text.MAX_INT64
  const MIN_DURATION: int := Text.MIN_INT64

  type Duration = d: int | MIN_DURATION <= d <= MAX_DURATION

  /** An instant from the Unix epoch, within the 64-bit second count of time.Time. */
  type Time = t: int | Text.MIN_INT64 * SECOND <= t < (Text.MAX_INT64 + 1) * SECOND

  /** time.Time{}: the start of year 1. */
  const ZERO_TIME: Time := -62_135_596_800 * SECOND

  /** time.Time.Sub: the difference, saturated to what a Duration can hold. */
  function Sub(t: int, u: int): int {
    if t - u > MAX_DURATION then MAX_DURATION
    else if t - u < MIN_DURATION then MIN_DURATION
    else t - u
  }
}
