/** Instants on a clock that never goes backwards and never shows the zero time, which the
    gateway's components use to mean "unset". */
module Clock {
  type Time = int
  const ZERO_TIME: Time := 0
}
