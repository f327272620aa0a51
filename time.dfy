/** Instants and durations. Dates are held as whole milliseconds since the
    epoch; calendar and time-zone effects are not modelled. */
module Time {
  /** Milliseconds since the epoch. */
  type Instant = int

  /** One day in milliseconds (`1000 * 60 * 60 * 24`). */
  const DAY_MS: int := 86400000
}
