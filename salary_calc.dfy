/** utils/salary_calc.py: `calculate_salary_for_user`, the MySQL variant whose
    bonus only requires no unpaid leave. */
module SalaryCalc {
  import opened Domain
  import opened Calendar
  import opened AttendanceStore
  import opened Payroll

  /** The accumulator loop over the fetched logs and the arithmetic after it. */
  method ComputeBreakdown(daysInMonth: int, logs: seq<Row>) returns (b: Breakdown)
    ensures b == Settle(daysInMonth, CountsOf(logs), NoUnpaidLeave)
  {
    var totalPresent, totalPermission, totalLeave := 0, 0, 0;
    var lateDeduction, earlyDeduction := 0, 0;
    for i := 0 to |logs|
      invariant totalPresent == i
      invariant totalPermission == Tally(logs[..i], PermissionTaken)
      invariant totalLeave == Tally(logs[..i], PaidLeaveTaken)
      invariant lateDeduction == Tally(logs[..i], LateOver10) * LateCut
      invariant earlyDeduction == Tally(logs[..i], EarlyOver10) * EarlyCut
    {
      assert logs[..i + 1][..i] == logs[..i];
      var log := logs[i];
      totalPresent := totalPresent + 1;
      var late := OrZero(log.lateMinutes);
      var early := OrZero(log.earlyMinutes);
      var permission := log.permissionUsed;
      var isPaidLeave := log.isPaidLeave;
      if late > 10 {
        lateDeduction := lateDeduction + LateCut;
      }
      if early > 10 {
        earlyDeduction := earlyDeduction + EarlyCut;
      }
      if Truthy(permission) {
        totalPermission := totalPermission + 1;
      }
      if Truthy(isPaidLeave) {
        totalLeave := totalLeave + 1;
      }
    }
    assert logs[..|logs|] == logs;
    ghost var c := CountsOf(logs);
    assert c == Counts(totalPresent, totalLeave, totalPermission, c.lateIncidents, c.earlyIncidents);
    var totalSalary := totalPresent * SalaryPerDay;
    var unpaidLeaveDays := Max0(totalLeave - PaidLeaveDays);
    var unpaidLeaveDeduct := unpaidLeaveDays * SalaryPerDay;
    var totalPermissionMinutes := totalPermission * 60;
    var excessMinutes := Max0(totalPermissionMinutes - PermissionMinutesLimit);
    var permissionDeduct := excessMinutes / 60 * SalaryPerDay;
    var bonus := 0;
    if totalPresent == daysInMonth && totalPermission == 0 && unpaidLeaveDays == 0 {
      bonus := BonusIfNoAbsence;
    }
    var totalDeductions := lateDeduction + earlyDeduction + unpaidLeaveDeduct + permissionDeduct;
    var finalSalary := totalSalary - totalDeductions + bonus;
    b := Breakdown(daysInMonth, totalPresent, totalLeave, totalPermission, lateDeduction, earlyDeduction,
                   unpaidLeaveDeduct, permissionDeduct, totalDeductions, bonus, finalSalary);
  }

  /** `calculate_salary_for_user(user_id, year, month)`: monthrange, the month's
      logs, the breakdown, and the upsert keyed by (user_id, month, year). */
  method CalculateSalaryForUser(attendance: AttendanceTable, salary: SalaryTable, user: UserId, year: int, month: int)
    returns (r: Result<Breakdown, Fault>)
    modifies salary
    ensures !ValidMonth(month) ==> r == Failure(IllegalMonth) && salary.rows == old(salary.rows)
    ensures ValidMonth(month) ==>
      var days := DaysInMonth(year, month);
      var b := Settle(days, CountsOf(MonthRecords(attendance.rows, user, year, month, days)), NoUnpaidLeave);
      && r == Success(b)
      && salary.rows == old(salary.rows)[(user, month, year) := Persisted(b)]
  {
    var range := MonthRange(year, month);
    if range.Failure? {
      return Failure(range.error);
    }
    var daysInMonth := range.value;
    var logs := MonthRecords(attendance.rows, user, year, month, daysInMonth);
    var b := ComputeBreakdown(daysInMonth, logs);
    salary.Upsert((user, month, year), Persisted(b));
    r := Success(b);
  }
}
