/** What the three monthly salary computations share: the rows they fetch, the
    per-row tallies, the closed-form settlement of a month, and the `salary`
    table they upsert into. */
module Payroll {
  import opened Domain
  import opened Calendar
  import opened AttendanceStore

  const SalaryPerDay: int := 1000
  const PaidLeaveDays: int := 1
  const PermissionMinutesLimit: int := 120
  /** `SALARY_PER_DAY * BONUS_DAY_PAY` with `BONUS_DAY_PAY = 1`. */
  const BonusDayPay: int := 1
  /** `BONUS_IF_NO_ABSENCE`. */
  const BonusIfNoAbsence: int := 1000

  /** `SALARY_PER_DAY * (LATE_CUT_PERCENT / 100)` with a 20 percent cut:
      1000 * 0.2, exactly 200.0 in binary floating point; sums of such amounts
      stay exact. */
  const LateCut: int := 200
  /** `SALARY_PER_DAY * (EARLY_CUT_PERCENT / 100)`, likewise 200. */
  const EarlyCut: int := 200

  /** One column of the dictionary a cursor returns for a row: the key may be
      absent, may hold NULL, or may hold a value (a boolean as 0 or 1). */
  datatype Cell = Missing | Null | Val(v: int)

  /** The columns of a fetched attendance row that the salary code reads. */
  datatype Row = Row(lateMinutes: Cell, earlyMinutes: Cell, permissionUsed: Cell, isPaidLeave: Cell)

  /** `row.get(k) or 0`. */
  function OrZero(c: Cell): int {
    if c.Val? then c.v else 0
  }

  /** Python truthiness of `row.get(k)`. */
  predicate Truthy(c: Cell) {
    c.Val? && c.v != 0
  }

  /** What a row may be counted for. */
  datatype Criterion = LateOver10 | EarlyOver10 | PermissionTaken | PaidLeaveTaken

  predicate Hit(r: Row, k: Criterion) {
    match k
    case LateOver10 => OrZero(r.lateMinutes) > 10
    case EarlyOver10 => OrZero(r.earlyMinutes) > 10
    case PermissionTaken => Truthy(r.permissionUsed)
    case PaidLeaveTaken => Truthy(r.isPaidLeave)
  }

  /** How many rows a counter of the loop has counted. */
  function Tally(rows: seq<Row>, k: Criterion): (n: nat)
    ensures n <= |rows|
  {
    if rows == [] then 0
    else Tally(rows[..|rows| - 1], k) + (if Hit(rows[|rows| - 1], k) then 1 else 0)
  }

  /** The indices of the rows that meet a criterion. */
  function HitIndices(rows: seq<Row>, k: Criterion): set<int> {
    set i | 0 <= i < |rows| && Hit(rows[i], k)
  }

  /** The tally is the number of rows meeting the criterion. */
  lemma {:induction false} TallyIsHitCount(rows: seq<Row>, k: Criterion)
    ensures Tally(rows, k) == |HitIndices(rows, k)|
  {
    if rows != [] {
      var n := |rows| - 1;
      var prefix := rows[..n];
      TallyIsHitCount(prefix, k);
      HitIndicesSnoc(rows, k);
    }
  }

  /** The last row adds its own index, or nothing, to the prefix's indices. */
  lemma HitIndicesSnoc(rows: seq<Row>, k: Criterion)
    requires rows != []
    ensures var n := |rows| - 1;
      && n !in HitIndices(rows[..n], k)
      && HitIndices(rows, k) == HitIndices(rows[..n], k) + (if Hit(rows[n], k) then {n} else {})
  {
    var n := |rows| - 1;
    assert HitIndices(rows[..n], k) == set i | 0 <= i < n && Hit(rows[i], k);
  }

  lemma {:induction false} TallyAppend(a: seq<Row>, b: seq<Row>, k: Criterion)
    ensures Tally(a + b, k) == Tally(a, k) + Tally(b, k)
    decreases |b|
  {
    if b != [] {
      var n := |b| - 1;
      assert (a + b)[..|a + b| - 1] == a + b[..n];
      TallyAppend(a, b[..n], k);
    } else {
      assert a + b == a;
    }
  }

  /** The counts do not depend on the order in which the store returns the rows
      (the month query has no ORDER BY). */
  lemma {:induction false} TallyPermutation(a: seq<Row>, b: seq<Row>, k: Criterion)
    requires multiset(a) == multiset(b)
    ensures Tally(a, k) == Tally(b, k)
    decreases |a|
  {
    if a == [] {
      assert |b| == |multiset(b)| == 0;
    } else {
      var n := |a| - 1;
      var x := a[n];
      assert a == a[..n] + [x];
      assert x in multiset(b);
      var j :| 0 <= j < |b| && b[j] == x;
      assert b == b[..j] + [x] + b[j + 1..];
      var rest := b[..j] + b[j + 1..];
      assert multiset(a[..n]) == multiset(a) - multiset{x};
      assert multiset(rest) == multiset(b) - multiset{x};
      TallyPermutation(a[..n], rest, k);
      TallyAppend(a[..n], [x], k);
      TallyAppend(b[..j] + [x], b[j + 1..], k);
      TallyAppend(b[..j], [x], k);
      TallyAppend(b[..j], b[j + 1..], k);
    }
  }

  /** The five counters of one pass over a month's rows. */
  datatype Counts = Counts(present: nat, paidLeave: nat, permissions: nat, lateIncidents: nat, earlyIncidents: nat)

  function CountsOf(rows: seq<Row>): Counts {
    Counts(|rows|, Tally(rows, PaidLeaveTaken), Tally(rows, PermissionTaken),
           Tally(rows, LateOver10), Tally(rows, EarlyOver10))
  }

  /** Reordering the fetched rows changes none of the counters. */
  lemma CountsIgnoreOrder(a: seq<Row>, b: seq<Row>)
    requires multiset(a) == multiset(b)
    ensures CountsOf(a) == CountsOf(b)
  {
    TallyPermutation(a, b, PaidLeaveTaken);
    TallyPermutation(a, b, PermissionTaken);
    TallyPermutation(a, b, LateOver10);
    TallyPermutation(a, b, EarlyOver10);
    assert |a| == |multiset(a)| == |multiset(b)| == |b|;
  }

  /** The salary breakdown of one user and month. */
  datatype Breakdown = Breakdown(
    daysInMonth: int,
    presentDays: int,
    paidLeaveUsed: int,
    permissionsUsed: int,
    lateDeductions: int,
    earlyDeductions: int,
    unpaidLeaveDeduct: int,
    permissionDeduct: int,
    totalDeductions: int,
    bonus: int,
    finalSalary: int)

  /** The two perfect-attendance rules found in the source: no paid leave at all,
      or no paid leave beyond the free day. */
  datatype BonusRule = NoLeaveTaken | NoUnpaidLeave

  function Max0(x: int): int {
    if x > 0 then x else 0
  }

  function BonusAmount(rule: BonusRule): int {
    match rule
    case NoLeaveTaken => SalaryPerDay * BonusDayPay
    case NoUnpaidLeave => BonusIfNoAbsence
  }

  predicate EarnsBonus(days: int, c: Counts, rule: BonusRule) {
    && c.present == days
    && c.permissions == 0
    && match rule
       case NoLeaveTaken => c.paidLeave == 0
       case NoUnpaidLeave => Max0(c.paidLeave - PaidLeaveDays) == 0
  }

  /** The closed-form part of a month's salary, after the counting pass. */
  function Settle(days: int, c: Counts, rule: BonusRule): (b: Breakdown)
    ensures b.daysInMonth == days && b.presentDays == c.present
    ensures b.paidLeaveUsed == c.paidLeave && b.permissionsUsed == c.permissions
    ensures b.lateDeductions == 200 * c.lateIncidents && b.earlyDeductions == 200 * c.earlyIncidents
    ensures b.unpaidLeaveDeduct == SalaryPerDay * Max0(c.paidLeave - 1)
    ensures b.permissionDeduct == SalaryPerDay * Max0(c.permissions - 2)
    ensures b.bonus == (if EarnsBonus(days, c, rule) then 1000 else 0)
    ensures b.totalDeductions == b.lateDeductions + b.earlyDeductions + b.unpaidLeaveDeduct + b.permissionDeduct
    ensures 0 <= b.totalDeductions
    ensures b.finalSalary == c.present * SalaryPerDay - b.totalDeductions + b.bonus
    ensures b.finalSalary <= c.present * SalaryPerDay + b.bonus
    ensures b.finalSalary % 200 == 0
  {
    var totalSalary := c.present * SalaryPerDay;
    var lateDeduct := c.lateIncidents * LateCut;
    var earlyDeduct := c.earlyIncidents * EarlyCut;
    var unpaidLeaveDays := Max0(c.paidLeave - PaidLeaveDays);
    var unpaidLeaveDeduct := unpaidLeaveDays * SalaryPerDay;
    var excessPermissionMinutes := Max0(c.permissions * 60 - PermissionMinutesLimit);
    var permissionDeduct := excessPermissionMinutes / 60 * SalaryPerDay;
    assert excessPermissionMinutes == 60 * Max0(c.permissions - 2);
    assert permissionDeduct == SalaryPerDay * Max0(c.permissions - 2);
    var bonus := if EarnsBonus(days, c, rule) then BonusAmount(rule) else 0;
    var totalDeduct := lateDeduct + earlyDeduct + unpaidLeaveDeduct + permissionDeduct;
    var finalSalary := totalSalary - totalDeduct + bonus;
    var units := 5 * c.present - c.lateIncidents - c.earlyIncidents - 5 * unpaidLeaveDays
      - 5 * Max0(c.permissions - 2) + (if EarnsBonus(days, c, rule) then 5 else 0);
    assert finalSalary == 200 * units;
    assert finalSalary % 200 == 0;
    Breakdown(days, c.present, c.paidLeave, c.permissions, lateDeduct, earlyDeduct,
              unpaidLeaveDeduct, permissionDeduct, totalDeduct, bonus, finalSalary)
  }

  /** The two bonus rules disagree exactly on a full month without permissions
      and with a single paid-leave day, which only the unpaid-leave rule rewards. */
  lemma BonusRulesDiffer(days: int, c: Counts)
    ensures Settle(days, c, NoLeaveTaken).bonus != Settle(days, c, NoUnpaidLeave).bonus
        <==> c.present == days && c.permissions == 0 && c.paidLeave == 1
    ensures Settle(days, c, NoLeaveTaken).bonus <= Settle(days, c, NoUnpaidLeave).bonus
  {
  }

  /** A fetched row: `SELECT *` returns every column, NULL as None. */
  function FetchRow(rec: Record): Row {
    Row(IntCell(rec.lateMinutes), IntCell(rec.earlyMinutes), FlagCell(rec.permissionUsed), FlagCell(rec.isPaidLeave))
  }

  function IntCell(x: Option<int>): Cell {
    if x.Some? then Val(x.value) else Null
  }

  function FlagCell(x: Option<bool>): Cell {
    if x.None? then Null else if x.value then Val(1) else Val(0)
  }

  /** The dates of the user's rows that `date BETWEEN month_start AND month_end` selects. */
  function MonthDates(rows: map<Key, Record>, user: UserId, year: int, month: int, days: int): set<Date> {
    set k | k in rows && k.0 == user && InPeriod(k.1, year, month, days) :: k.1
  }

  /** The fetched rows of the given dates, in that order. */
  function RowsAt(rows: map<Key, Record>, user: UserId, ds: seq<Date>): (records: seq<Row>)
    requires forall i :: 0 <= i < |ds| ==> (user, ds[i]) in rows
    ensures |records| == |ds|
    ensures forall i :: 0 <= i < |ds| ==> records[i] == FetchRow(rows[(user, ds[i])])
  {
    seq(|ds|, i requires 0 <= i < |ds| => FetchRow(rows[(user, ds[i])]))
  }

  /** `SELECT * FROM attendance WHERE user_id = %s AND date BETWEEN %s AND %s`: one
      fetched row per selected date. The store's order is unspecified; the model
      lists them newest first, and CountsIgnoreOrder shows that any order gives
      the same counters. */
  function MonthRecords(rows: map<Key, Record>, user: UserId, year: int, month: int, days: int): (records: seq<Row>)
    ensures |records| == |MonthDates(rows, user, year, month, days)|
    ensures forall d :: d in MonthDates(rows, user, year, month, days) ==>
      (user, d) in rows && exists i :: 0 <= i < |records| && records[i] == FetchRow(rows[(user, d)])
  {
    var dates := MonthDates(rows, user, year, month, days);
    var ds := DatesDescending(dates);
    assert forall d :: d in dates ==> (user, d) in rows by {
      forall d | d in dates ensures (user, d) in rows {
        var k :| k in rows && k.0 == user && InPeriod(k.1, year, month, days) && k.1 == d;
        assert k == (user, d);
      }
    }
    assert forall i :: 0 <= i < |ds| ==> (user, ds[i]) in rows;
    var records := RowsAt(rows, user, ds);
    assert forall d :: d in dates ==> exists i :: 0 <= i < |records| && records[i] == FetchRow(rows[(user, d)]) by {
      forall d | d in dates
        ensures exists i :: 0 <= i < |records| && records[i] == FetchRow(rows[(user, d)])
      {
        assert d in ds;
        var i :| 0 <= i < |ds| && ds[i] == d;
        assert records[i] == FetchRow(rows[(user, d)]);
      }
    }
    records
  }

  /** The fetched rows are exactly the rows of the selected dates, newest first. */
  lemma MonthRecordsFollowDates(rows: map<Key, Record>, user: UserId, year: int, month: int, days: int)
    ensures var ds := DatesDescending(MonthDates(rows, user, year, month, days));
      var records := MonthRecords(rows, user, year, month, days);
      |records| == |ds| &&
      forall i :: 0 <= i < |ds| ==> (user, ds[i]) in rows && records[i] == FetchRow(rows[(user, ds[i])])
  {
    var dates := MonthDates(rows, user, year, month, days);
    var ds := DatesDescending(dates);
    forall i | 0 <= i < |ds| ensures (user, ds[i]) in rows {
      assert ds[i] in dates;
      var k :| k in rows && k.0 == user && InPeriod(k.1, year, month, days) && k.1 == ds[i];
      assert k == (user, ds[i]);
    }
    assert MonthRecords(rows, user, year, month, days) == RowsAt(rows, user, ds);
  }

  type SalaryKey = (UserId, int, int)  // (user_id, month, year)

  /** A row of the `salary` table, apart from its key. */
  datatype SalaryRow = SalaryRow(
    totalDays: int,
    totalPresent: int,
    paidLeave: int,
    permissionsUsed: int,
    lateDeductions: int,
    earlyDeductions: int,
    totalDeductions: int,
    totalAdditions: int,
    finalSalary: int)

  /** The values the upsert writes for a breakdown. */
  function Persisted(b: Breakdown): SalaryRow {
    SalaryRow(b.daysInMonth, b.presentDays, b.paidLeaveUsed, b.permissionsUsed, b.lateDeductions,
              b.earlyDeductions, b.totalDeductions, b.bonus, b.finalSalary)
  }

  /** The `salary` table, keyed by (user_id, month, year). */
  class SalaryTable {
    var rows: map<SalaryKey, SalaryRow>

    constructor ()
      ensures rows == map[]
    {
      rows := map[];
    }

    /** `INSERT ... ON CONFLICT (user_id, month, year) DO UPDATE SET ...` and
        `INSERT ... ON DUPLICATE KEY UPDATE ...`: the row for the key is
        replaced or created, every other row stays. */
    method Upsert(key: SalaryKey, row: SalaryRow)
      modifies this
      ensures rows == old(rows)[key := row]
      ensures forall k :: k in old(rows) && k != key ==> k in rows && rows[k] == old(rows)[k]
    {
      rows := rows[key := row];
    }
  }
}
