/** controllers/user_controller.py: the employee-facing handlers. The attendance
    log it serves is AttendanceStore.AttendanceLog; login and the profile read
    are not part of this model. */
module UserController {
  import opened Domain
  import opened Clock
  import opened AttendanceStore
  import opened Payroll
  import AttendanceModel

  /** The (year, month) periods for which a user has a salary row. */
  function SalaryPeriods(rows: map<SalaryKey, SalaryRow>, user: UserId): set<Date> {
    set k | k in rows && k.0 == user :: PeriodStart(k.2, k.1)
  }

  /** A period is listed exactly when the user's row for it exists. */
  lemma SalaryPeriodsHaveRows(rows: map<SalaryKey, SalaryRow>, user: UserId)
    ensures forall p :: p in SalaryPeriods(rows, user) ==> (user, p.month, p.year) in rows
    ensures forall k :: k in rows && k.0 == user ==> PeriodStart(k.2, k.1) in SalaryPeriods(rows, user)
  {
    forall p | p in SalaryPeriods(rows, user) ensures (user, p.month, p.year) in rows {
      var k :| k in rows && k.0 == user && PeriodStart(k.2, k.1) == p;
      assert k == (user, p.month, p.year);
    }
  }

  /** `get_salary`: `ORDER BY year DESC, month DESC LIMIT 1` over the user's
      salary rows, or 404 when there is none. */
  function GetSalary(rows: map<SalaryKey, SalaryRow>, user: UserId): (r: Reply<(SalaryKey, SalaryRow)>)
    ensures r.Err? <==> forall k :: k in rows ==> k.0 != user
    ensures r.Err? ==> r == Err(404, "No salary record found")
    ensures r.Ok? ==>
      var (key, row) := r.body;
      && key in rows && key.0 == user && rows[key] == row
      && forall k :: k in rows && k.0 == user && k != key ==>
           DateLt(PeriodStart(k.2, k.1), PeriodStart(key.2, key.1))
  {
    SalaryPeriodsHaveRows(rows, user);
    var periods := SalaryPeriods(rows, user);
    if periods == {} then
      Err(404, "No salary record found")
    else
      var p := Latest(periods);
      var key := (user, p.month, p.year);
      Ok((key, rows[key]))
  }

  /** After a salary computation upserts a period no earlier than any the user
      already has, `get_salary` answers with exactly that row. */
  lemma {:induction false} GetSalaryAfterUpsert(rows: map<SalaryKey, SalaryRow>, user: UserId, month: int, year: int, row: SalaryRow)
    requires forall k :: k in rows && k.0 == user ==> DateLe(PeriodStart(k.2, k.1), PeriodStart(year, month))
    ensures GetSalary(rows[(user, month, year) := row], user) == Ok(((user, month, year), row))
  {
    var rows' := rows[(user, month, year) := row];
    assert (user, month, year) in rows';
  }

  /** `check_in`: 400 when today's row exists; otherwise late minutes computed
      inline from 09:40 and the row inserted. */
  method CheckIn(table: AttendanceTable, user: UserId, now: Instant) returns (r: Reply<int>)
    modifies table
    ensures PhaseOf(old(table.rows), (user, now.date)) != NotCheckedIn ==>
      r == Err(400, "Already checked in") && table.rows == old(table.rows)
    ensures PhaseOf(old(table.rows), (user, now.date)) == NotCheckedIn ==>
      && r == Ok(AttendanceModel.LateMinutes(now.time))
      && table.rows == old(table.rows)[(user, now.date) :=
           CheckInRecord(now.time, AttendanceModel.LateMinutes(now.time))]
      && PhaseOf(table.rows, (user, now.date)) == CheckedIn
  {
    var today, checkInTime := now.date, now.time;
    if (user, today) in table.rows {
      return Err(400, "Already checked in");
    }
    var lateMinutes := 0;
    if checkInTime > LateLimit {
      lateMinutes := WholeMinutes(checkInTime - LateLimit);
    }
    table.rows := table.rows[(user, today) := CheckInRecord(checkInTime, lateMinutes)];
    r := Ok(lateMinutes);
  }

  /** `check_out`: 400 without today's row or once checked out; otherwise early
      minutes computed inline up to 17:50 and the row updated. */
  method CheckOut(table: AttendanceTable, user: UserId, now: Instant) returns (r: Reply<int>)
    modifies table
    ensures PhaseOf(old(table.rows), (user, now.date)) == NotCheckedIn ==>
      r == Err(400, "Check-in first") && table.rows == old(table.rows)
    ensures PhaseOf(old(table.rows), (user, now.date)) == CheckedOut ==>
      r == Err(400, "Already checked out") && table.rows == old(table.rows)
    ensures PhaseOf(old(table.rows), (user, now.date)) == CheckedIn ==>
      && r == Ok(AttendanceModel.EarlyMinutes(now.time))
      && table.rows == old(table.rows)[(user, now.date) :=
           CheckOutRecord(old(table.rows)[(user, now.date)], now.time, AttendanceModel.EarlyMinutes(now.time))]
      && PhaseOf(table.rows, (user, now.date)) == CheckedOut
  {
    var today, checkOutTime := now.date, now.time;
    if (user, today) !in table.rows {
      return Err(400, "Check-in first");
    }
    var record := table.rows[(user, today)];
    if record.checkOut.Some? {
      return Err(400, "Already checked out");
    }
    var earlyMinutes := 0;
    if checkOutTime < EarlyLimit {
      earlyMinutes := WholeMinutes(EarlyLimit - checkOutTime);
    }
    table.rows := table.rows[(user, today) := CheckOutRecord(record, checkOutTime, earlyMinutes)];
    r := Ok(earlyMinutes);
  }
}
