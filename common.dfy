/** Shared vocabulary: optional values and instants. */
module Common {

  /** A nullable column or session value. */
  datatype Option<+T> = None | Some(value: T)

  /**
   * An instant, in microseconds since an arbitrary epoch. Python's
   * `datetime` has microsecond resolution, and `datetime.now()` is compared
   * against instants parsed from '%Y-%m-%d %H:%M' form fields (whole
   * minutes), so the model keeps the finer unit.
   */
  type Time = int

  const MicrosPerSecond: int := 1_000_000
  const MicrosPerHour: int := 3_600_000_000
  const MicrosPerDay: int := 86_400_000_000

  /** `(end - start).total_seconds() / 3600`, exactly. */
  function HoursBetween(start: Time, end: Time): real
  {
    (end - start) as real / MicrosPerHour as real
  }

  /** `datetime.date()`: the calendar day (counted from the epoch) holding `t`. */
  function DayOf(t: Time): int
  {
    t / MicrosPerDay
  }
}
