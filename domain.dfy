/** Shared vocabulary of the attendance and payroll backend: optional values,
    results, handler replies, calendar dates and their order, times of day. */
module Domain {

  datatype Option<+T> = None | Some(value: T)

  /** A Python-level outcome: a value, or the exception the code raises. */
  datatype Result<+T, +E> = Success(value: T) | Failure(error: E)

  /** Exceptions the modelled code can raise. */
  datatype Fault =
    | IllegalMonth      // calendar.monthrange with a month outside 1..12
    | NoneComparison    // `None > 10`: TypeError in Python 3
    | NoneConversion    // `float(None)`: TypeError
    | DuplicateKey      // INSERT violating the (user_id, date) unique key

  /** What an HTTP handler answers: a 200 body, or an error status with its message. */
  datatype Reply<+T> = Ok(body: T) | Err(status: int, message: string)

  type UserId = int

  /** A calendar date as the store keeps it (the `date` column). */
  datatype Date = Date(year: int, month: int, day: int)

  /** Chronological order on dates: by year, then month, then day. */
  predicate DateLe(a: Date, b: Date) {
    a.year < b.year || (a.year == b.year && (a.month < b.month || (a.month == b.month && a.day <= b.day)))
  }

  predicate DateLt(a: Date, b: Date) {
    DateLe(a, b) && a != b
  }

  /** A (year, month) period, ordered as `ORDER BY year DESC, month DESC` reads it,
      is identified with the first day of the month. */
  function PeriodStart(year: int, month: int): Date {
    Date(year, month, 1)
  }

  const MicrosPerSecond: int := 1_000_000
  const MicrosPerMinute: int := 60 * MicrosPerSecond
  const SecondsPerDay: int := 86_400
  const MicrosPerDay: int := SecondsPerDay * MicrosPerSecond

  /** A `datetime.time`: microseconds since midnight. */
  type TimeOfDay = t: int | 0 <= t < 86_400_000_000

  /** `time(h, m)` as microseconds since midnight. */
  function ClockTime(h: int, m: int): int {
    (h * 60 + m) * MicrosPerMinute
  }

  /** `datetime.now()`: the calendar date and the time of day of the call. */
  datatype Instant = Instant(date: Date, time: TimeOfDay)

  predicate IsLatest(d: Date, ds: set<Date>) {
    d in ds && forall e :: e in ds ==> DateLe(e, d)
  }

  lemma {:induction false} LatestExists(ds: set<Date>)
    requires ds != {}
    ensures exists d :: IsLatest(d, ds)
  {
    var x :| x in ds;
    if ds == {x} {
      assert IsLatest(x, ds);
    } else {
      LatestExists(ds - {x});
      var m :| IsLatest(m, ds - {x});
      if DateLe(x, m) {
        assert IsLatest(m, ds);
      } else {
        forall e | e in ds ensures DateLe(e, x) {
          if e != x {
            assert e in ds - {x} && DateLe(e, m);
          }
        }
        assert IsLatest(x, ds);
      }
    }
  }

  /** The most recent date of a non-empty set. */
  function Latest(ds: set<Date>): (d: Date)
    requires ds != {}
    ensures d in ds
    ensures forall e :: e in ds ==> DateLe(e, d)
  {
    LatestExists(ds);
    var d :| IsLatest(d, ds);
    d
  }

  /** A set of dates listed newest first (`ORDER BY date DESC`). */
  function DatesDescending(ds: set<Date>): (s: seq<Date>)
    ensures |s| == |ds|
    ensures forall d :: d in s <==> d in ds
    ensures forall i, j :: 0 <= i < j < |s| ==> DateLt(s[j], s[i])
    decreases |ds|
  {
    if ds == {} then []
    else
      var d := Latest(ds);
      [d] + DatesDescending(ds - {d})
  }
}
