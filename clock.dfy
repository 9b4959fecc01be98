/** Time-of-day arithmetic shared by the check-in and check-out handlers:
    the attendance thresholds and the `timedelta.seconds // 60` minute count. */
module Clock {
  import opened Domain

  /** Lateness is counted from 09:40 (a 10-minute grace after a 09:30 start). */
  const LateLimit: int := ClockTime(9, 40)
  /** The nominal start of the day: 09:30. */
  const ShiftStart: int := ClockTime(9, 30)
  /** Early leave is counted up to 17:50. */
  const EarlyLimit: int := ClockTime(17, 50)
  /** The nominal end of the day: 18:00. */
  const ShiftEnd: int := ClockTime(18, 0)

  /** The `seconds` field of `timedelta(microseconds = d)`: Python normalises a
      timedelta, flooring, to days, seconds in [0, 86400) and microseconds in
      [0, 10^6). Dafny's `/` and `%` floor for a positive divisor, as Python's do. */
  function TimedeltaSeconds(d: int): (s: int)
    ensures 0 <= s < SecondsPerDay
  {
    (d / MicrosPerSecond) % SecondsPerDay
  }

  /** `delta.seconds // 60` for the difference `d` of two datetimes on the same day. */
  function WholeMinutes(d: int): (m: int)
    ensures 0 <= m < 1440
  {
    TimedeltaSeconds(d) / 60
  }

  /** For a positive delta shorter than a day, `delta.seconds // 60` is the
      number of whole minutes in it, rounded down. */
  lemma {:induction false} WholeMinutesOfSubDay(d: int)
    requires 0 <= d < MicrosPerDay
    ensures WholeMinutes(d) == d / MicrosPerMinute
  {
    var q, r := d / MicrosPerSecond, d % MicrosPerSecond;
    assert d == MicrosPerSecond * q + r;
    assert 0 <= q < SecondsPerDay;
    assert TimedeltaSeconds(d) == q;
    var a, b := q / 60, q % 60;
    assert q == 60 * a + b;
    assert d == MicrosPerMinute * a + (MicrosPerSecond * b + r);
    assert 0 <= MicrosPerSecond * b + r < MicrosPerMinute;
  }

  /** More elapsed time never gives fewer whole minutes. */
  lemma {:induction false} WholeMinutesMonotonic(d1: int, d2: int)
    requires 0 <= d1 <= d2 < MicrosPerDay
    ensures WholeMinutes(d1) <= WholeMinutes(d2)
  {
    WholeMinutesOfSubDay(d1);
    WholeMinutesOfSubDay(d2);
  }
}
