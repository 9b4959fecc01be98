/** app.py: the older single-file backend. It keeps its own attendance schema
    with boolean late and early flags, and appends one `salary_logs` row per
    staff user each time the monthly salary is computed. */
module App {
  import opened Domain
  import opened Clock

  // ---------------------------------------------------------------- passwords

  /** `n` consecutive characters starting at `first`. */
  function CharRun(first: char, n: nat): (run: string)
    requires (first as int) + n <= 0xD800
    ensures |run| == n
    ensures forall i :: 0 <= i < n ==> run[i] as int == (first as int) + i
  {
    seq(n, i requires 0 <= i < n => ((first as int) + i) as char)
  }

  /** `string.ascii_letters + string.digits`. */
  const Alphanumerics: string := CharRun('a', 26) + CharRun('A', 26) + CharRun('0', 10)

  predicate IsAlnum(c: char) {
    ('a' <= c <= 'z') || ('A' <= c <= 'Z') || ('0' <= c <= '9')
  }

  /** The pool holds the 62 ASCII letters and digits and nothing else. */
  lemma {:induction false} AlphanumericsAreLettersAndDigits()
    ensures |Alphanumerics| == 62
    ensures forall c :: c in Alphanumerics <==> IsAlnum(c)
  {
    var lower, upper, digits := CharRun('a', 26), CharRun('A', 26), CharRun('0', 10);
    assert Alphanumerics == lower + upper + digits;
    forall c | IsAlnum(c) ensures c in Alphanumerics {
      if 'a' <= c <= 'z' {
        assert Alphanumerics[(c as int) - ('a' as int)] == c;
      } else if 'A' <= c <= 'Z' {
        assert Alphanumerics[26 + (c as int) - ('A' as int)] == c;
      } else {
        assert Alphanumerics[52 + (c as int) - ('0' as int)] == c;
      }
    }
    forall c | c in Alphanumerics ensures IsAlnum(c) {
      var j :| 0 <= j < 62 && Alphanumerics[j] == c;
      if j < 26 {
        assert c == lower[j];
      } else if j < 52 {
        assert c == upper[j - 26];
      } else {
        assert c == digits[j - 52];
      }
    }
  }

  /** `generate_password(length=6)`: `random.choices` draws `length` characters
      from the pool (none when `length` is not positive); each draw is an
      unconstrained choice here. */
  method GeneratePassword(length: int := 6) returns (password: string)
    ensures |password| == if length < 0 then 0 else length
    ensures forall i :: 0 <= i < |password| ==> IsAlnum(password[i])
  {
    AlphanumericsAreLettersAndDigits();
    password := "";
    while |password| < length
      invariant |password| <= if length < 0 then 0 else length
      invariant forall i :: 0 <= i < |password| ==> IsAlnum(password[i])
      decreases length - |password|
    {
      assert Alphanumerics[0] in Alphanumerics;
      var c :| c in Alphanumerics;
      password := password + [c];
    }
  }

  // ------------------------------------------------------- legacy attendance

  /** A row of the legacy `attendance` table; a NULL column is None. */
  datatype LegacyRecord = LegacyRecord(
    checkinTime: Option<TimeOfDay>,
    checkoutTime: Option<TimeOfDay>,
    isLate: Option<bool>,
    isEarlyLeave: Option<bool>)

  /** Late means strictly after 09:30: this handler has no grace window. */
  predicate IsLate(t: TimeOfDay) {
    t > ShiftStart
  }

  /** Early leave means strictly before 18:00. */
  predicate IsEarlyLeave(t: TimeOfDay) {
    t < ShiftEnd
  }

  class LegacyAttendanceTable {
    var rows: map<(UserId, Date), LegacyRecord>

    constructor ()
      ensures rows == map[]
    {
      rows := map[];
    }
  }

  /** `checkin`: 400 when today's row exists, else inserts it with `is_late`. */
  method Checkin(table: LegacyAttendanceTable, user: UserId, now: Instant) returns (r: Reply<bool>)
    modifies table
    ensures (user, now.date) in old(table.rows) ==>
      r == Err(400, "Already checked in today.") && table.rows == old(table.rows)
    ensures (user, now.date) !in old(table.rows) ==>
      && r == Ok(IsLate(now.time))
      && table.rows == old(table.rows)[(user, now.date) :=
           LegacyRecord(Some(now.time), None, Some(IsLate(now.time)), None)]
  {
    var today, timeNow := now.date, now.time;
    if (user, today) in table.rows {
      return Err(400, "Already checked in today.");
    }
    var late := timeNow > ShiftStart;
    table.rows := table.rows[(user, today) := LegacyRecord(Some(timeNow), None, Some(late), None)];
    r := Ok(late);
  }

  /** `checkout`: 404 without today's row, 400 once its checkout time is set,
      else sets `checkout_time` and `is_early_leave` of that row. */
  method Checkout(table: LegacyAttendanceTable, user: UserId, now: Instant) returns (r: Reply<bool>)
    modifies table
    ensures (user, now.date) !in old(table.rows) ==>
      r == Err(404, "Check-in not found.") && table.rows == old(table.rows)
    ensures (user, now.date) in old(table.rows) && old(table.rows)[(user, now.date)].checkoutTime.Some? ==>
      r == Err(400, "Already checked out today.") && table.rows == old(table.rows)
    ensures (user, now.date) in old(table.rows) && old(table.rows)[(user, now.date)].checkoutTime.None? ==>
      && r == Ok(IsEarlyLeave(now.time))
      && table.rows == old(table.rows)[(user, now.date) :=
           old(table.rows)[(user, now.date)].(checkoutTime := Some(now.time), isEarlyLeave := Some(IsEarlyLeave(now.time)))]
  {
    var today, timeNow := now.date, now.time;
    if (user, today) !in table.rows {
      return Err(404, "Check-in not found.");
    }
    var record := table.rows[(user, today)];
    if record.checkoutTime.Some? {
      return Err(400, "Already checked out today.");
    }
    var early := timeNow < ShiftEnd;
    table.rows := table.rows[(user, today) := record.(checkoutTime := Some(timeNow), isEarlyLeave := Some(early))];
    r := Ok(early);
  }

  // ---------------------------------------------------------- legacy payroll

  /** A staff user as `SELECT id, salary AS salary_per_month` returns it; the
      column is nullable, None standing for NULL. */
  datatype Staff = Staff(id: UserId, salaryPerMonth: Option<real>)

  /** Every staff user has a salary, so `float(...)` succeeds for each. */
  predicate SalariesSet(staff: seq<Staff>) {
    forall i :: 0 <= i < |staff| ==> staff[i].salaryPerMonth.Some?
  }

  /** A row of `salary_logs`. */
  datatype SalaryLog = SalaryLog(
    userId: UserId,
    month: int,
    year: int,
    baseSalary: real,
    lateDeductions: real,
    earlyDeductions: real,
    finalSalary: real)

  /** The dates of a user's rows whose month and year are the given ones
      (`EXTRACT(MONTH FROM date)`, `EXTRACT(YEAR FROM date)`). */
  function LegacyMonthDates(rows: map<(UserId, Date), LegacyRecord>, user: UserId, month: int, year: int): set<Date> {
    set k | k in rows && k.0 == user && k.1.month == month && k.1.year == year :: k.1
  }

  /** The fetched rows of that month, one per date, newest first (the store's
      order is unspecified and the sums below do not depend on it). */
  function LegacyMonthLogs(rows: map<(UserId, Date), LegacyRecord>, user: UserId, month: int, year: int): (logs: seq<LegacyRecord>)
    ensures |logs| == |LegacyMonthDates(rows, user, month, year)|
  {
    var dates := LegacyMonthDates(rows, user, month, year);
    var ds := DatesDescending(dates);
    assert forall d :: d in dates ==> (user, d) in rows by {
      forall d | d in dates ensures (user, d) in rows {
        var k :| k in rows && k.0 == user && k.1.month == month && k.1.year == year && k.1 == d;
        assert k == (user, d);
      }
    }
    assert forall i :: 0 <= i < |ds| ==> (user, ds[i]) in rows;
    LogsAt(rows, user, ds)
  }

  /** The rows of the given dates, in that order. */
  function LogsAt(rows: map<(UserId, Date), LegacyRecord>, user: UserId, ds: seq<Date>): (logs: seq<LegacyRecord>)
    requires forall i :: 0 <= i < |ds| ==> (user, ds[i]) in rows
    ensures |logs| == |ds|
    ensures forall i :: 0 <= i < |ds| ==> logs[i] == rows[(user, ds[i])]
  {
    seq(|ds|, i requires 0 <= i < |ds| => rows[(user, ds[i])])
  }

  /** The fetched rows are exactly the rows of the month's dates, newest first:
      the i-th row is the user's row of the i-th latest date of that month. */
  lemma LegacyMonthLogsFollowDates(rows: map<(UserId, Date), LegacyRecord>, user: UserId, month: int, year: int)
    ensures var ds := DatesDescending(LegacyMonthDates(rows, user, month, year));
      var logs := LegacyMonthLogs(rows, user, month, year);
      |logs| == |ds| &&
      forall i :: 0 <= i < |ds| ==> (user, ds[i]) in rows && logs[i] == rows[(user, ds[i])]
  {
    var dates := LegacyMonthDates(rows, user, month, year);
    var ds := DatesDescending(dates);
    forall i | 0 <= i < |ds| ensures (user, ds[i]) in rows {
      assert ds[i] in dates;
      var k :| k in rows && k.0 == user && k.1.month == month && k.1.year == year && k.1 == ds[i];
      assert k == (user, ds[i]);
    }
    assert LegacyMonthLogs(rows, user, month, year) == LogsAt(rows, user, ds);
  }

  /** Which flag of a fetched row a deduction counts. */
  datatype Flag = LateFlag | EarlyLeaveFlag

  /** Python truthiness of `log['is_late']` or `log['is_early_leave']`. */
  predicate Raised(log: LegacyRecord, f: Flag) {
    match f
    case LateFlag => log.isLate == Some(true)
    case EarlyLeaveFlag => log.isEarlyLeave == Some(true)
  }

  /** How many rows carry a raised flag. */
  function FlagCount(logs: seq<LegacyRecord>, f: Flag): (n: nat)
    ensures n <= |logs|
  {
    if logs == [] then 0
    else FlagCount(logs[..|logs| - 1], f) + (if Raised(logs[|logs| - 1], f) then 1 else 0)
  }

  /** One cut: a fifth of a day's pay, a day's pay being a thirtieth of the month. */
  function Cut(monthly: real): real {
    monthly / 30.0 * 0.2
  }

  /** What a deduction accumulates: one `cut` per row with the flag raised. */
  function FlagSum(logs: seq<LegacyRecord>, f: Flag, cut: real): real {
    if logs == [] then 0.0
    else FlagSum(logs[..|logs| - 1], f, cut) + (if Raised(logs[|logs| - 1], f) then cut else 0.0)
  }

  /** The accumulated deduction is the number of raised flags times the cut. */
  lemma {:induction false} FlagSumScales(logs: seq<LegacyRecord>, f: Flag, cut: real)
    ensures FlagSum(logs, f, cut) == FlagCount(logs, f) as real * cut
  {
    if logs != [] {
      var n := FlagCount(logs[..|logs| - 1], f);
      FlagSumScales(logs[..|logs| - 1], f, cut);
      assert (n + 1) as real * cut == n as real * cut + cut;
    }
  }

  /** The `salary_logs` row written for one staff user from that user's
      fetched rows of the month. */
  function PayslipOf(id: UserId, monthly: real, month: int, year: int, logs: seq<LegacyRecord>): (p: SalaryLog)
    ensures p.userId == id && p.month == month && p.year == year && p.baseSalary == monthly
    ensures p.finalSalary == p.baseSalary - (p.lateDeductions + p.earlyDeductions)
  {
    var late := FlagSum(logs, LateFlag, Cut(monthly));
    var early := FlagSum(logs, EarlyLeaveFlag, Cut(monthly));
    SalaryLog(id, month, year, monthly, late, early, monthly - (late + early))
  }

  /** The `salary_logs` row the computation writes for one staff user. */
  function Payslip(rows: map<(UserId, Date), LegacyRecord>, s: Staff, month: int, year: int): SalaryLog
    requires s.salaryPerMonth.Some?
  {
    PayslipOf(s.id, s.salaryPerMonth.value, month, year, LegacyMonthLogs(rows, s.id, month, year))
  }

  /** The rows one run of the computation appends, in staff order. */
  function Payslips(rows: map<(UserId, Date), LegacyRecord>, staff: seq<Staff>, month: int, year: int): (ps: seq<SalaryLog>)
    requires SalariesSet(staff)
    ensures |ps| == |staff|
    ensures forall i :: 0 <= i < |staff| ==> ps[i] == Payslip(rows, staff[i], month, year)
    ensures Balanced(ps)
  {
    seq(|staff|, i requires 0 <= i < |staff| => Payslip(rows, staff[i], month, year))
  }

  /** Two counts of cuts add up to one cut per counted row, and cuts of a
      non-negative salary are non-negative. */
  lemma {:induction false} CutsCombine(m: real, late: nat, early: nat)
    ensures late as real * Cut(m) + early as real * Cut(m) == (late + early) as real * Cut(m)
    ensures m >= 0.0 ==> (late + early) as real * Cut(m) >= 0.0
  {
    if m >= 0.0 {
      assert Cut(m) >= 0.0;
    }
  }

  /** The final salary is the monthly salary less one cut (a fifth of a day's
      pay) per late arrival and per early leave, so it never exceeds a
      non-negative monthly salary. */
  lemma {:induction false} PayslipBounded(id: UserId, m: real, month: int, year: int, logs: seq<LegacyRecord>)
    ensures PayslipOf(id, m, month, year, logs).finalSalary ==
      m - (FlagCount(logs, LateFlag) + FlagCount(logs, EarlyLeaveFlag)) as real * Cut(m)
    ensures m >= 0.0 ==> PayslipOf(id, m, month, year, logs).finalSalary <= m
  {
    FlagSumScales(logs, LateFlag, Cut(m));
    FlagSumScales(logs, EarlyLeaveFlag, Cut(m));
    CutsCombine(m, FlagCount(logs, LateFlag), FlagCount(logs, EarlyLeaveFlag));
  }

  /** The inner loop: one cut per raised flag. */
  method Deductions(perDay: real, logs: seq<LegacyRecord>) returns (lateDeduction: real, earlyDeduction: real)
    ensures lateDeduction == FlagSum(logs, LateFlag, perDay * 0.2)
    ensures earlyDeduction == FlagSum(logs, EarlyLeaveFlag, perDay * 0.2)
  {
    lateDeduction, earlyDeduction := 0.0, 0.0;
    for i := 0 to |logs|
      invariant lateDeduction == FlagSum(logs[..i], LateFlag, perDay * 0.2)
      invariant earlyDeduction == FlagSum(logs[..i], EarlyLeaveFlag, perDay * 0.2)
    {
      assert logs[..i + 1][..i] == logs[..i];
      var log := logs[i];
      if log.isLate == Some(true) {
        lateDeduction := lateDeduction + perDay * 0.2;
      }
      if log.isEarlyLeave == Some(true) {
        earlyDeduction := earlyDeduction + perDay * 0.2;
      }
    }
    assert logs[..|logs|] == logs;
  }

  /** Every row holds final = base - (late + early). */
  predicate Balanced(logs: seq<SalaryLog>) {
    forall i :: 0 <= i < |logs| ==> logs[i].finalSalary == logs[i].baseSalary - (logs[i].lateDeductions + logs[i].earlyDeductions)
  }

  /** Appending balanced rows to a balanced table keeps it balanced. */
  lemma BalancedConcat(a: seq<SalaryLog>, b: seq<SalaryLog>)
    requires Balanced(a) && Balanced(b)
    ensures Balanced(a + b)
  {
    forall i | |a| <= i < |a + b|
      ensures (a + b)[i] == b[i - |a|]
    {
    }
  }

  /** The `salary_logs` table: rows are only ever appended. */
  class SalaryLogTable {
    var logs: seq<SalaryLog>

    constructor ()
      ensures logs == []
    {
      logs := [];
    }
  }

  /** The loop's two deductions, assembled as the source does, form the user's row. */
  lemma DeductionsMakePayslip(rows: map<(UserId, Date), LegacyRecord>, s: Staff, month: int, year: int, late: real, early: real)
    requires s.salaryPerMonth.Some?
    requires late == FlagSum(LegacyMonthLogs(rows, s.id, month, year), LateFlag, s.salaryPerMonth.value / 30.0 * 0.2)
    requires early == FlagSum(LegacyMonthLogs(rows, s.id, month, year), EarlyLeaveFlag, s.salaryPerMonth.value / 30.0 * 0.2)
    ensures Payslip(rows, s, month, year) ==
      SalaryLog(s.id, month, year, s.salaryPerMonth.value, late, early, s.salaryPerMonth.value - (late + early))
  {
  }

  /** One pass of the loop over staff users: the monthly salary, the month's
      rows, the two deductions and the row to insert. */
  method StaffPayslip(attendance: LegacyAttendanceTable, s: Staff, month: int, year: int) returns (row: SalaryLog)
    requires s.salaryPerMonth.Some?
    ensures row == Payslip(attendance.rows, s, month, year)
  {
    var uid := s.id;
    var monthlySalary := s.salaryPerMonth.value;
    var perDay := monthlySalary / 30.0;
    var logs := LegacyMonthLogs(attendance.rows, uid, month, year);
    var lateDeduction, earlyDeduction := Deductions(perDay, logs);
    var totalCut := lateDeduction + earlyDeduction;
    var final := monthlySalary - totalCut;
    DeductionsMakePayslip(attendance.rows, s, month, year, lateDeduction, earlyDeduction);
    row := SalaryLog(uid, month, year, monthlySalary, lateDeduction, earlyDeduction, final);
  }

  /** `calculate_salary`: for each staff user, the month's flags, the two
      deductions and a plain INSERT appending one row. The INSERTs become
      visible at the single commit after the loop; a NULL salary makes
      `float(...)` raise first, and the run's uncommitted rows are dropped. */
  method CalculateSalary(attendance: LegacyAttendanceTable, salaryLogs: SalaryLogTable, staff: seq<Staff>, month: int, year: int)
    returns (r: Result<(), Fault>)
    modifies salaryLogs
    ensures !SalariesSet(staff) ==> r == Failure(NoneConversion) && salaryLogs.logs == old(salaryLogs.logs)
    ensures SalariesSet(staff) ==>
      r == Success(()) && salaryLogs.logs == old(salaryLogs.logs) + Payslips(attendance.rows, staff, month, year)
    ensures Balanced(old(salaryLogs.logs)) ==> Balanced(salaryLogs.logs)
  {
    var pending: seq<SalaryLog> := [];
    for i := 0 to |staff|
      invariant salaryLogs.logs == old(salaryLogs.logs)
      invariant forall j :: 0 <= j < i ==> staff[j].salaryPerMonth.Some?
      invariant |pending| == i
      invariant forall j :: 0 <= j < i ==> pending[j] == Payslip(attendance.rows, staff[j], month, year)
    {
      if staff[i].salaryPerMonth.None? {
        return Failure(NoneConversion);
      }
      var row := StaffPayslip(attendance, staff[i], month, year);
      pending := pending + [row];
    }
    assert pending == Payslips(attendance.rows, staff, month, year);
    if Balanced(salaryLogs.logs) {
      BalancedConcat(salaryLogs.logs, pending);
    }
    salaryLogs.logs := salaryLogs.logs + pending;
    r := Success(());
  }

  /** Running the computation twice for the same month appends every staff
      user's row twice: the plain INSERT makes it not idempotent. */
  method CalculateSalaryTwice(attendance: LegacyAttendanceTable, salaryLogs: SalaryLogTable, staff: seq<Staff>, month: int, year: int)
    returns (first: Result<(), Fault>, second: Result<(), Fault>)
    modifies salaryLogs
    ensures !SalariesSet(staff) ==> first.Failure? && second.Failure? && salaryLogs.logs == old(salaryLogs.logs)
    ensures SalariesSet(staff) ==>
      && first.Success? && second.Success?
      && |salaryLogs.logs| == |old(salaryLogs.logs)| + 2 * |staff|
      && salaryLogs.logs == old(salaryLogs.logs) + Payslips(attendance.rows, staff, month, year) + Payslips(attendance.rows, staff, month, year)
  {
    first := CalculateSalary(attendance, salaryLogs, staff, month, year);
    second := CalculateSalary(attendance, salaryLogs, staff, month, year);
  }

  // ---------------------------------------------------------------- queries

  function Period(l: SalaryLog): Date {
    PeriodStart(l.year, l.month)
  }

  /** A user's row with the greatest (year, month); among rows of that period
      the model keeps the earliest appended, where the store may return any. */
  function LatestLog(logs: seq<SalaryLog>, user: UserId): (i: Option<nat>)
    ensures i.None? <==> forall j :: 0 <= j < |logs| ==> logs[j].userId != user
    ensures i.Some? ==>
      && i.value < |logs| && logs[i.value].userId == user
      && forall j :: 0 <= j < |logs| && logs[j].userId == user ==> DateLe(Period(logs[j]), Period(logs[i.value]))
  {
    if logs == [] then None
    else
      var last := |logs| - 1;
      var best := LatestLog(logs[..last], user);
      assert forall j :: 0 <= j < last ==> logs[..last][j] == logs[j];
      if logs[last].userId != user then best
      else if best.None? || DateLt(Period(logs[best.value]), Period(logs[last])) then Some(last)
      else best
  }

  /** `get_user_salary`: the user's latest row, or 404. */
  function GetUserSalary(logs: seq<SalaryLog>, user: UserId): (r: Reply<SalaryLog>)
    ensures r.Err? <==> forall j :: 0 <= j < |logs| ==> logs[j].userId != user
    ensures r.Err? ==> r == Err(404, "No salary record found")
    ensures r.Ok? ==>
      && r.body in logs && r.body.userId == user
      && forall j :: 0 <= j < |logs| && logs[j].userId == user ==> DateLe(Period(logs[j]), Period(r.body))
  {
    match LatestLog(logs, user)
    case None => Err(404, "No salary record found")
    case Some(i) => Ok(logs[i])
  }

  /** One line of the salary report. */
  datatype ReportLine = ReportLine(name: string, baseSalary: real, totalDeductions: real, finalSalary: real)

  datatype Report = Report(report: seq<ReportLine>, totalSpent: real)

  /** The join with `users` restricted to the current month and year. */
  predicate Reported(l: SalaryLog, names: map<UserId, string>, today: Date) {
    l.userId in names && l.month == today.month && l.year == today.year
  }

  /** The report line of a reported row: the user's name, the base salary,
      `late_deductions + early_deductions` and the final salary. */
  function LineOf(l: SalaryLog, name: string): ReportLine {
    ReportLine(name, l.baseSalary, l.lateDeductions + l.earlyDeductions, l.finalSalary)
  }

  /** The positions of the rows the query selects. */
  function ReportedIndices(logs: seq<SalaryLog>, names: map<UserId, string>, today: Date): set<nat> {
    set i: nat | i < |logs| && Reported(logs[i], names, today)
  }

  /** The joined and filtered rows, one line each, in the table's order. */
  function ReportLines(logs: seq<SalaryLog>, names: map<UserId, string>, today: Date): (lines: seq<ReportLine>)
    ensures |lines| <= |logs|
    ensures Balanced(logs) ==> forall i :: 0 <= i < |lines| ==>
      lines[i].finalSalary == lines[i].baseSalary - lines[i].totalDeductions
  {
    if logs == [] then []
    else
      var n := |logs| - 1;
      var l := logs[n];
      assert Balanced(logs) ==> Balanced(logs[..n]) by {
        if Balanced(logs) {
          forall i | 0 <= i < n
            ensures logs[..n][i] == logs[i]
          {
          }
        }
      }
      ReportLines(logs[..n], names, today)
        + (if Reported(l, names, today) then [LineOf(l, names[l.userId])] else [])
  }

  /** `line` is the line of some row the query selects. */
  predicate LineOfSelected(logs: seq<SalaryLog>, names: map<UserId, string>, today: Date, line: ReportLine) {
    exists i :: 0 <= i < |logs| && Reported(logs[i], names, today) && line == LineOf(logs[i], names[logs[i].userId])
  }

  /** The report holds exactly the lines of the selected rows: every line comes
      from a row of the current month whose user exists, and every such row
      has its line. */
  lemma {:induction false} ReportLinesSelect(logs: seq<SalaryLog>, names: map<UserId, string>, today: Date)
    ensures forall line :: line in ReportLines(logs, names, today) <==> LineOfSelected(logs, names, today, line)
  {
    if logs != [] {
      var n := |logs| - 1;
      var prefix := logs[..n];
      ReportLinesSelect(prefix, names, today);
      var l := logs[n];
      var tail := if Reported(l, names, today) then [LineOf(l, names[l.userId])] else [];
      assert ReportLines(logs, names, today) == ReportLines(prefix, names, today) + tail;
      forall line
        ensures line in ReportLines(logs, names, today) <==> LineOfSelected(logs, names, today, line)
      {
        if LineOfSelected(logs, names, today, line) {
          var i :| 0 <= i < |logs| && Reported(logs[i], names, today) && line == LineOf(logs[i], names[logs[i].userId]);
          if i < n {
            assert prefix[i] == logs[i];
            assert LineOfSelected(prefix, names, today, line);
          }
        }
        if line in ReportLines(prefix, names, today) {
          var i :| 0 <= i < n && Reported(prefix[i], names, today) && line == LineOf(prefix[i], names[prefix[i].userId]);
          assert prefix[i] == logs[i];
        }
      }
    }
  }

  /** The report is a homomorphism over appended rows: the lines of `a + b`
      are the lines of `a` followed by those of `b`. */
  lemma {:induction false} ReportLinesAppend(a: seq<SalaryLog>, b: seq<SalaryLog>, names: map<UserId, string>, today: Date)
    ensures ReportLines(a + b, names, today) == ReportLines(a, names, today) + ReportLines(b, names, today)
    decreases |b|
  {
    if b == [] {
      assert a + b == a;
    } else {
      var n := |b| - 1;
      assert (a + b)[..|a + b| - 1] == a + b[..n];
      ReportLinesAppend(a, b[..n], names, today);
    }
  }

  /** There is one line per selected row. */
  lemma {:induction false} ReportLinesCount(logs: seq<SalaryLog>, names: map<UserId, string>, today: Date)
    ensures |ReportLines(logs, names, today)| == |ReportedIndices(logs, names, today)|
  {
    if logs != [] {
      var n := |logs| - 1;
      var prefix := logs[..n];
      ReportLinesCount(prefix, names, today);
      var before := ReportedIndices(prefix, names, today);
      assert before == set i: nat | i < n && Reported(logs[i], names, today);
      if Reported(logs[n], names, today) {
        assert ReportedIndices(logs, names, today) == before + {n};
        assert n !in before;
      } else {
        assert ReportedIndices(logs, names, today) == before;
      }
    }
  }

  function SumFinal(lines: seq<ReportLine>): real {
    if lines == [] then 0.0 else SumFinal(lines[..|lines| - 1]) + lines[|lines| - 1].finalSalary
  }

  function SumBase(lines: seq<ReportLine>): real {
    if lines == [] then 0.0 else SumBase(lines[..|lines| - 1]) + lines[|lines| - 1].baseSalary
  }

  function SumDeductions(lines: seq<ReportLine>): real {
    if lines == [] then 0.0 else SumDeductions(lines[..|lines| - 1]) + lines[|lines| - 1].totalDeductions
  }

  /** When every line's final is its base less its deductions, so are the totals. */
  lemma {:induction false} SumFinalIsBaseLessDeductions(lines: seq<ReportLine>)
    requires forall i :: 0 <= i < |lines| ==> lines[i].finalSalary == lines[i].baseSalary - lines[i].totalDeductions
    ensures SumFinal(lines) == SumBase(lines) - SumDeductions(lines)
  {
    if lines != [] {
      SumFinalIsBaseLessDeductions(lines[..|lines| - 1]);
    }
  }

  /** `salary_report`: this month's lines and `total_spent`, the sum of their
      final salaries; over balanced logs that total is what the base salaries
      add up to less all deductions. */
  function SalaryReport(logs: seq<SalaryLog>, names: map<UserId, string>, today: Date): (r: Report)
    ensures r.report == ReportLines(logs, names, today)
    ensures r.totalSpent == SumFinal(r.report)
    ensures Balanced(logs) ==> r.totalSpent == SumBase(r.report) - SumDeductions(r.report)
  {
    var lines := ReportLines(logs, names, today);
    assert Balanced(logs) ==> SumFinal(lines) == SumBase(lines) - SumDeductions(lines) by {
      if Balanced(logs) {
        SumFinalIsBaseLessDeductions(lines);
      }
    }
    Report(lines, SumFinal(lines))
  }
}
