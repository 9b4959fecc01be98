/** models/salary_model.py: `calculate_salary_for_user`, the variant that reads
    the minute columns with `.get(k, 0)`, so a NULL there raises. */
module SalaryModel {
  import opened Domain
  import opened Calendar
  import opened AttendanceStore
  import opened Payroll

  /** `rec.get(k, default)`: the default for an absent key, None for NULL. */
  function Get(c: Cell, default: int): Option<int> {
    match c
    case Missing => Some(default)
    case Null => None
    case Val(v) => Some(v)
  }

  /** A row whose `late_minutes` or `early_minutes` is NULL. */
  predicate NullMinutes(row: Row) {
    row.lateMinutes.Null? || row.earlyMinutes.Null?
  }

  /** Some fetched row holds NULL in a minute column. */
  predicate HasNullMinutes(records: seq<Row>) {
    exists i :: 0 <= i < |records| && NullMinutes(records[i])
  }

  /** The counter loop, where `None > 10` raises TypeError, and the arithmetic after it. */
  method ComputeBreakdown(daysInMonth: int, records: seq<Row>) returns (r: Result<Breakdown, Fault>)
    ensures HasNullMinutes(records) ==> r == Failure(NoneComparison)
    ensures !HasNullMinutes(records) ==> r == Success(Settle(daysInMonth, CountsOf(records), NoLeaveTaken))
  {
    var presentDays, paidLeave, permissionUsed := 0, 0, 0;
    var lateDeduct, earlyDeduct := 0, 0;
    for i := 0 to |records|
      invariant !HasNullMinutes(records[..i])
      invariant presentDays == i
      invariant paidLeave == Tally(records[..i], PaidLeaveTaken)
      invariant permissionUsed == Tally(records[..i], PermissionTaken)
      invariant lateDeduct == Tally(records[..i], LateOver10) * LateCut
      invariant earlyDeduct == Tally(records[..i], EarlyOver10) * EarlyCut
    {
      assert records[..i + 1][..i] == records[..i];
      var rec := records[i];
      presentDays := presentDays + 1;
      if Truthy(rec.isPaidLeave) {
        paidLeave := paidLeave + 1;
      }
      if Truthy(rec.permissionUsed) {
        permissionUsed := permissionUsed + 1;
      }
      var late := Get(rec.lateMinutes, 0);
      if late.None? {
        assert records[i].lateMinutes.Null?;
        return Failure(NoneComparison);
      }
      if late.value > 10 {
        lateDeduct := lateDeduct + LateCut;
      }
      var early := Get(rec.earlyMinutes, 0);
      if early.None? {
        assert records[i].earlyMinutes.Null?;
        return Failure(NoneComparison);
      }
      if early.value > 10 {
        earlyDeduct := earlyDeduct + EarlyCut;
      }
      var seen := records[..i + 1];
      forall j | 0 <= j < |seen|
        ensures !NullMinutes(seen[j])
      {
        if j < i {
          assert seen[j] == records[..i][j];
        }
      }
    }
    assert records[..|records|] == records;
    ghost var c := CountsOf(records);
    assert c == Counts(presentDays, paidLeave, permissionUsed, c.lateIncidents, c.earlyIncidents);
    var totalBaseSalary := presentDays * SalaryPerDay;
    var unpaidLeaves := Max0(paidLeave - PaidLeaveDays);
    var unpaidLeaveDeduct := unpaidLeaves * SalaryPerDay;
    var totalPermissionMinutes := permissionUsed * 60;
    var excessPermission := Max0(totalPermissionMinutes - PermissionMinutesLimit);
    var permissionDeduct := excessPermission / 60 * SalaryPerDay;
    var bonus := 0;
    if presentDays == daysInMonth && paidLeave == 0 && permissionUsed == 0 {
      bonus := SalaryPerDay * BonusDayPay;
    }
    var totalDeductions := lateDeduct + earlyDeduct + unpaidLeaveDeduct + permissionDeduct;
    var finalSalary := totalBaseSalary - totalDeductions + bonus;
    r := Success(Breakdown(daysInMonth, presentDays, paidLeave, permissionUsed, lateDeduct, earlyDeduct,
                           unpaidLeaveDeduct, permissionDeduct, totalDeductions, bonus, finalSalary));
  }

  /** `calculate_salary_for_user(user_id, year, month)`: on success the returned
      breakdown carries the values the upsert wrote; on an exception nothing is written. */
  method CalculateSalaryForUser(attendance: AttendanceTable, salary: SalaryTable, user: UserId, year: int, month: int)
    returns (r: Result<Breakdown, Fault>)
    modifies salary
    ensures !ValidMonth(month) ==> r == Failure(IllegalMonth) && salary.rows == old(salary.rows)
    ensures ValidMonth(month) ==>
      var days := DaysInMonth(year, month);
      var records := MonthRecords(attendance.rows, user, year, month, days);
      && (HasNullMinutes(records) ==> r == Failure(NoneComparison) && salary.rows == old(salary.rows))
      && (!HasNullMinutes(records) ==>
            && r == Success(Settle(days, CountsOf(records), NoLeaveTaken))
            && salary.rows == old(salary.rows)[(user, month, year) := Persisted(r.value)])
    ensures r.Success? ==>
      var written := salary.rows[(user, month, year)];
      && written.totalDeductions == r.value.totalDeductions
      && written.totalAdditions == r.value.bonus
      && written.finalSalary == r.value.finalSalary
  {
    var range := MonthRange(year, month);
    if range.Failure? {
      return Failure(range.error);
    }
    var daysInMonth := range.value;
    var records := MonthRecords(attendance.rows, user, year, month, daysInMonth);
    r := ComputeBreakdown(daysInMonth, records);
    if r.Failure? {
      return;
    }
    salary.Upsert((user, month, year), Persisted(r.value));
  }

  /** A day of the month that was checked in but not yet checked out has NULL
      `early_minutes`, so this variant raises for the whole month. */
  lemma OpenDayRaises(rows: map<Key, Record>, user: UserId, year: int, month: int, d: Date)
    requires ValidMonth(month)
    requires (user, d) in rows && InPeriod(d, year, month, DaysInMonth(year, month))
    requires rows[(user, d)].earlyMinutes.None?
    ensures HasNullMinutes(MonthRecords(rows, user, year, month, DaysInMonth(year, month)))
  {
    var days := DaysInMonth(year, month);
    var records := MonthRecords(rows, user, year, month, days);
    assert d in MonthDates(rows, user, year, month, days);
    var i :| 0 <= i < |records| && records[i] == FetchRow(rows[(user, d)]);
    assert records[i].earlyMinutes.Null?;
  }
}
