/** controllers/salary_controller.py: `calculate_salary`, the PostgreSQL variant
    whose bonus requires no paid leave at all. */
module SalaryController {
  import opened Domain
  import opened Calendar
  import opened AttendanceStore
  import opened Payroll

  /** The counter loop over the fetched rows and the arithmetic after it. */
  method ComputeBreakdown(daysInMonth: int, records: seq<Row>) returns (b: Breakdown)
    ensures b == Settle(daysInMonth, CountsOf(records), NoLeaveTaken)
  {
    var totalPresent, totalLeave, totalPermission := 0, 0, 0;
    var totalLateDeduct, totalEarlyDeduct := 0, 0;
    for i := 0 to |records|
      invariant totalPresent == i
      invariant totalLeave == Tally(records[..i], PaidLeaveTaken)
      invariant totalPermission == Tally(records[..i], PermissionTaken)
      invariant totalLateDeduct == Tally(records[..i], LateOver10) * LateCut
      invariant totalEarlyDeduct == Tally(records[..i], EarlyOver10) * EarlyCut
    {
      assert records[..i + 1][..i] == records[..i];
      var record := records[i];
      totalPresent := totalPresent + 1;
      var late := OrZero(record.lateMinutes);
      var early := OrZero(record.earlyMinutes);
      var permission := record.permissionUsed;
      if late > 10 {
        totalLateDeduct := totalLateDeduct + LateCut;
      }
      if early > 10 {
        totalEarlyDeduct := totalEarlyDeduct + EarlyCut;
      }
      if Truthy(permission) {
        totalPermission := totalPermission + 1;
      }
      if Truthy(record.isPaidLeave) {
        totalLeave := totalLeave + 1;
      }
    }
    assert records[..|records|] == records;
    ghost var c := CountsOf(records);
    assert c == Counts(totalPresent, totalLeave, totalPermission, c.lateIncidents, c.earlyIncidents);
    var totalSalary := totalPresent * SalaryPerDay;
    var unpaidLeaveDays := Max0(totalLeave - PaidLeaveDays);
    var unpaidLeaveDeduct := unpaidLeaveDays * SalaryPerDay;
    var excessPermissionMinutes := Max0(totalPermission * 60 - PermissionMinutesLimit);
    var permissionDeduct := excessPermissionMinutes / 60 * SalaryPerDay;
    var bonus := 0;
    if totalPresent == daysInMonth && totalLeave == 0 && totalPermission == 0 {
      bonus := SalaryPerDay * BonusDayPay;
    }
    var totalDeduct := totalLateDeduct + totalEarlyDeduct + unpaidLeaveDeduct + permissionDeduct;
    var finalSalary := totalSalary - totalDeduct + bonus;
    b := Breakdown(daysInMonth, totalPresent, totalLeave, totalPermission, totalLateDeduct, totalEarlyDeduct,
                   unpaidLeaveDeduct, permissionDeduct, totalDeduct, bonus, finalSalary);
  }

  /** `calculate_salary(user_id, year, month)`: monthrange, the month's rows, the
      breakdown, and the upsert keyed by (user_id, month, year). */
  method CalculateSalary(attendance: AttendanceTable, salary: SalaryTable, user: UserId, year: int, month: int)
    returns (r: Result<Breakdown, Fault>)
    modifies salary
    ensures !ValidMonth(month) ==> r == Failure(IllegalMonth) && salary.rows == old(salary.rows)
    ensures ValidMonth(month) ==>
      var days := DaysInMonth(year, month);
      var b := Settle(days, CountsOf(MonthRecords(attendance.rows, user, year, month, days)), NoLeaveTaken);
      && r == Success(b)
      && b.presentDays == |MonthDates(attendance.rows, user, year, month, days)|
      && salary.rows == old(salary.rows)[(user, month, year) := Persisted(b)]
  {
    var range := MonthRange(year, month);
    if range.Failure? {
      return Failure(range.error);
    }
    var daysInMonth := range.value;
    var records := MonthRecords(attendance.rows, user, year, month, daysInMonth);
    var b := ComputeBreakdown(daysInMonth, records);
    salary.Upsert((user, month, year), Persisted(b));
    r := Success(b);
  }

  /** Recomputing a month from the same attendance leaves the salary table as one
      computation left it: the upsert overwrites instead of accumulating. */
  method RecalculateTwice(attendance: AttendanceTable, salary: SalaryTable, user: UserId, year: int, month: int)
    returns (first: Result<Breakdown, Fault>, second: Result<Breakdown, Fault>)
    modifies salary
    ensures first == second
    ensures first.Failure? ==> salary.rows == old(salary.rows)
    ensures first.Success? ==> salary.rows == old(salary.rows)[(user, month, year) := Persisted(first.value)]
  {
    first := CalculateSalary(attendance, salary, user, year, month);
    ghost var middle := salary.rows;
    second := CalculateSalary(attendance, salary, user, year, month);
    if ValidMonth(month) {
      ghost var key := (user, month, year);
      assert middle == old(salary.rows)[key := Persisted(first.value)];
      assert salary.rows == middle[key := Persisted(second.value)];
    }
  }
}
