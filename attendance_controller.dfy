/** controllers/attendance_controller.py: the check-in and check-out handlers
    with their own minute helpers. */
module AttendanceController {
  import opened Domain
  import opened Clock
  import opened AttendanceStore
  import AttendanceModel

  /** `get_minutes_late`: 0 up to 09:30, 0 again in the 09:30-09:40 grace window,
      then the whole minutes since 09:40. */
  function MinutesLate(t: TimeOfDay): (m: int)
    ensures t <= ShiftStart ==> m == 0
    ensures ShiftStart < t <= LateLimit ==> m == 0
    ensures t > LateLimit ==> m == (t - LateLimit) / MicrosPerMinute
    ensures m == AttendanceModel.LateMinutes(t)
  {
    if t <= ShiftStart then 0
    else if t <= LateLimit then 0
    else WholeMinutes(t - LateLimit)
  }

  /** `get_minutes_early`: 0 from 17:50 on, before that the whole minutes until 17:50. */
  function MinutesEarly(t: TimeOfDay): (m: int)
    ensures t >= EarlyLimit ==> m == 0
    ensures t < EarlyLimit ==> m == (EarlyLimit - t) / MicrosPerMinute
    ensures m == AttendanceModel.EarlyMinutes(t)
  {
    if t >= EarlyLimit then 0
    else
      WholeMinutesOfSubDay(EarlyLimit - t);
      WholeMinutes(EarlyLimit - t)
  }

  /** `check_in`: 400 when today's row exists, else inserts it. */
  method CheckIn(table: AttendanceTable, user: UserId, now: Instant) returns (r: Reply<int>)
    modifies table
    ensures PhaseOf(old(table.rows), (user, now.date)) != NotCheckedIn ==>
      r == Err(400, "Already checked in.") && table.rows == old(table.rows)
    ensures PhaseOf(old(table.rows), (user, now.date)) == NotCheckedIn ==>
      && r == Ok(MinutesLate(now.time))
      && table.rows == old(table.rows)[(user, now.date) := CheckInRecord(now.time, MinutesLate(now.time))]
      && PhaseOf(table.rows, (user, now.date)) == CheckedIn
  {
    var today, checkInTime := now.date, now.time;
    if (user, today) in table.rows {
      return Err(400, "Already checked in.");
    }
    var lateMin := MinutesLate(checkInTime);
    table.rows := table.rows[(user, today) := CheckInRecord(checkInTime, lateMin)];
    r := Ok(lateMin);
  }

  /** `check_out`: 400 without today's row, 400 once checked out, else sets
      `check_out` and `early_minutes` of that row. */
  method CheckOut(table: AttendanceTable, user: UserId, now: Instant) returns (r: Reply<int>)
    modifies table
    ensures PhaseOf(old(table.rows), (user, now.date)) == NotCheckedIn ==>
      r == Err(400, "You must check-in first.") && table.rows == old(table.rows)
    ensures PhaseOf(old(table.rows), (user, now.date)) == CheckedOut ==>
      r == Err(400, "Already checked out.") && table.rows == old(table.rows)
    ensures PhaseOf(old(table.rows), (user, now.date)) == CheckedIn ==>
      && r == Ok(MinutesEarly(now.time))
      && table.rows == old(table.rows)[(user, now.date) :=
           CheckOutRecord(old(table.rows)[(user, now.date)], now.time, MinutesEarly(now.time))]
      && PhaseOf(table.rows, (user, now.date)) == CheckedOut
  {
    var today, checkOutTime := now.date, now.time;
    if (user, today) !in table.rows {
      return Err(400, "You must check-in first.");
    }
    var row := table.rows[(user, today)];
    if row.checkOut.Some? {
      return Err(400, "Already checked out.");
    }
    var earlyMin := MinutesEarly(checkOutTime);
    table.rows := table.rows[(user, today) := CheckOutRecord(row, checkOutTime, earlyMin)];
    r := Ok(earlyMin);
  }
}
