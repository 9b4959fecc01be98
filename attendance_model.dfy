/** models/attendance_model.py: lateness and early-leave minutes, the check-in
    insert and the guarded check-out update. Its attendance log is
    AttendanceStore.AttendanceLog. */
module AttendanceModel {
  import opened Domain
  import opened Clock
  import opened AttendanceStore

  /** `calculate_late_minutes`: 0 up to 09:40, then the whole minutes since 09:40. */
  function LateMinutes(t: TimeOfDay): (m: int)
    ensures t <= LateLimit ==> m == 0
    ensures t > LateLimit ==> m == (t - LateLimit) / MicrosPerMinute
    ensures 0 <= m < 860
  {
    if t <= LateLimit then 0
    else
      WholeMinutesOfSubDay(t - LateLimit);
      WholeMinutes(t - LateLimit)
  }

  /** `calculate_early_minutes`: 0 from 17:50 on, before that the whole minutes until 17:50. */
  function EarlyMinutes(t: TimeOfDay): (m: int)
    ensures t >= EarlyLimit ==> m == 0
    ensures t < EarlyLimit ==> m == (EarlyLimit - t) / MicrosPerMinute
    ensures 0 <= m <= 1070
  {
    if t >= EarlyLimit then 0
    else
      WholeMinutesOfSubDay(EarlyLimit - t);
      WholeMinutes(EarlyLimit - t)
  }

  /** Arriving later never lowers the late minutes. */
  lemma {:induction false} LateMinutesMonotonic(t1: TimeOfDay, t2: TimeOfDay)
    requires t1 <= t2
    ensures LateMinutes(t1) <= LateMinutes(t2)
  {
    if t1 > LateLimit {
      WholeMinutesMonotonic(t1 - LateLimit, t2 - LateLimit);
    }
  }

  /** Leaving later never raises the early minutes. */
  lemma {:induction false} EarlyMinutesAntitone(t1: TimeOfDay, t2: TimeOfDay)
    requires t1 <= t2
    ensures EarlyMinutes(t2) <= EarlyMinutes(t1)
  {
    if t2 < EarlyLimit {
      WholeMinutesMonotonic(EarlyLimit - t2, EarlyLimit - t1);
    }
  }

  /** `perform_check_in`: inserts today's row without looking for one first; the
      store's unique key on (user_id, date) makes a second INSERT raise. */
  method PerformCheckIn(table: AttendanceTable, user: UserId, now: Instant) returns (r: Result<int, Fault>)
    modifies table
    ensures (user, now.date) in old(table.rows) ==>
      r == Failure(DuplicateKey) && table.rows == old(table.rows)
    ensures (user, now.date) !in old(table.rows) ==>
      && r == Success(LateMinutes(now.time))
      && table.rows == old(table.rows)[(user, now.date) := CheckInRecord(now.time, LateMinutes(now.time))]
      && PhaseOf(table.rows, (user, now.date)) == CheckedIn
  {
    var today, checkInTime := now.date, now.time;
    var lateMinutes := LateMinutes(checkInTime);
    if (user, today) in table.rows {
      return Failure(DuplicateKey);
    }
    table.rows := table.rows[(user, today) := CheckInRecord(checkInTime, lateMinutes)];
    r := Success(lateMinutes);
  }

  /** `perform_check_out`: 404 without today's row, 400 once checked out, else
      sets `check_out` and `early_minutes` of that row and nothing else. */
  method PerformCheckOut(table: AttendanceTable, user: UserId, now: Instant) returns (r: Reply<int>)
    modifies table
    ensures PhaseOf(old(table.rows), (user, now.date)) == NotCheckedIn ==>
      r == Err(404, "No check-in found for today") && table.rows == old(table.rows)
    ensures PhaseOf(old(table.rows), (user, now.date)) == CheckedOut ==>
      r == Err(400, "Already checked out") && table.rows == old(table.rows)
    ensures PhaseOf(old(table.rows), (user, now.date)) == CheckedIn ==>
      && r == Ok(EarlyMinutes(now.time))
      && table.rows == old(table.rows)[(user, now.date) :=
           CheckOutRecord(old(table.rows)[(user, now.date)], now.time, EarlyMinutes(now.time))]
      && PhaseOf(table.rows, (user, now.date)) == CheckedOut
  {
    var today, checkOutTime := now.date, now.time;
    var earlyMinutes := EarlyMinutes(checkOutTime);
    if (user, today) !in table.rows {
      return Err(404, "No check-in found for today");
    }
    var record := table.rows[(user, today)];
    if record.checkOut.Some? {
      return Err(400, "Already checked out");
    }
    table.rows := table.rows[(user, today) := CheckOutRecord(record, checkOutTime, earlyMinutes)];
    r := Ok(earlyMinutes);
  }
}
