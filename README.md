# Attendance and payroll backend — a Dafny model

This project models the business logic of a Flask attendance and payroll
backend. It covers two parts.

- **The attendance lifecycle.** Each (user, date) moves from no row, to
  checked in, to checked out. Check-in records the minutes late after
  09:40, and check-out records the minutes early before 17:50. The legacy
  handlers in `app.py` record boolean flags instead: late after 09:30, early
  before 18:00.
- **The monthly salary.** One pass over a user's attendance rows for a month
  counts several things: present days, paid leave, permissions, and the
  late and early incidents over ten minutes. A closed-form settlement then
  computes the cuts, the unpaid-leave and excess-permission deductions, the
  perfect-attendance bonus and the final salary. The result is upserted
  under (user, month, year).
  - Three variants differ in their bonus rule and in how they treat NULL
    minutes.
  - The legacy `app.py` variant pays monthly/30 per day and appends
    `salary_logs` rows.

The modules follow the source files:

| module | file |
|---|---|
| `Domain` | shared vocabulary: results, handler replies, dates and their order, times of day |
| `Clock` | `timedelta.seconds // 60` and the time thresholds |
| `Calendar` | `calendar.monthrange` and the month filter |
| `AttendanceStore` | the attendance table (a class over a map keyed by (user, date)) and its newest-first log |
| `Payroll` | the fetched rows, the per-criterion tallies, the settlement specification and the salary table (a class with an upsert) |
| `AttendanceModel` | `models/attendance_model.py` |
| `AttendanceController` | `controllers/attendance_controller.py` |
| `UserController` | `controllers/user_controller.py` |
| `SalaryController` | `controllers/salary_controller.py` |
| `SalaryCalc` | `utils/salary_calc.py` |
| `SalaryModel` | `models/salary_model.py` |
| `App` | `app.py` |

Each salary loop is a method over a `for` loop. Its postcondition equates the
result with `Settle(days, CountsOf(rows), rule)`. The properties of the
salary are proved about `Settle` and the tallies.

Each table is a class whose field the handlers reassign. The handlers that
change a table are module-level methods that take the table object and name
it in their `modifies` clause; only the salary upsert is a method of its
class. Their postconditions give the whole new table for every branch,
including the error replies, which leave it unchanged.

The wall clock (`datetime.now()`) is a parameter `now`, and `CURRENT_DATE`
is a parameter `today`. The random draw of a password character is a
nondeterministic choice.

## Model

| member | source | states |
|---|---|---|
| Clock.WholeMinutes | models/attendance_model.py:11-12 | `delta.seconds // 60` is always a minute count within one day, 0..1439 |
| Clock.WholeMinutesOfSubDay | models/attendance_model.py:11-12 | for a non-negative delta shorter than a day, `delta.seconds // 60` is the floor of the elapsed minutes |
| Clock.WholeMinutesMonotonic | models/attendance_model.py:11-12 | more elapsed time never gives fewer whole minutes |
| Calendar.DaysInMonth | controllers/salary_controller.py:23 | February has 29 days in a leap year and 28 otherwise; April, June, September and November have 30; every other month has 31 |
| Calendar.MonthRange | controllers/salary_controller.py:23 | `monthrange` fails with IllegalMonth exactly for a month outside 1..12; otherwise it yields exactly the month's number of days |
| Calendar.InPeriodIsSameMonth | controllers/salary_controller.py:24-31 | for a real date, `BETWEEN` first and last day of the month selects exactly the dates of that year and month |
| AttendanceStore.AttendanceLog | models/attendance_model.py:93-104 | the log has one entry per date on which the user has a row, each entry projects that row, every such row appears, and dates strictly descend; `get_attendance` in controllers/user_controller.py runs the same query |
| AttendanceModel.LateMinutes | models/attendance_model.py:7-12 | 0 up to 09:40; after it, the floor of the minutes since 09:40; always below 860 |
| AttendanceModel.EarlyMinutes | models/attendance_model.py:16-21 | 0 from 17:50 on; before it, the floor of the minutes until 17:50; at most 1070 |
| AttendanceModel.LateMinutesMonotonic | models/attendance_model.py:7-12 | a later check-in never gives fewer late minutes |
| AttendanceModel.EarlyMinutesAntitone | models/attendance_model.py:16-21 | a later check-out never gives more early minutes |
| AttendanceModel.PerformCheckIn | models/attendance_model.py:35-53 | with no row for today, it inserts one row (check-in time, late minutes, present) and nothing else changes, leaving the day checked in; there is no duplicate check of its own, so an existing row makes the insert fail and the table is unchanged |
| AttendanceModel.PerformCheckOut | models/attendance_model.py:57-89 | no row gives 404, an already checked-out row gives 400, and the table is unchanged in both; otherwise only `check_out` and `early_minutes` of that row change, and the day is checked out |
| AttendanceController.MinutesLate | controllers/attendance_controller.py:9-19 | 0 before 09:30 and in the 09:30-09:40 grace window; after it, the floor of the minutes since 09:40; equal to `calculate_late_minutes` for every time |
| AttendanceController.MinutesEarly | controllers/attendance_controller.py:21-26 | 0 from 17:50 on, else the floor of the minutes until 17:50; equal to `calculate_early_minutes` for every time |
| AttendanceController.CheckIn | controllers/attendance_controller.py:30-56 | an existing row gives 400 and no change; otherwise one row is inserted with the computed late minutes and `is_present`, and no other row changes |
| AttendanceController.CheckOut | controllers/attendance_controller.py:60-90 | no row gives 400, an already checked-out row gives 400, with no change; otherwise only `check_out` and `early_minutes` of that row are set |
| UserController.GetSalary | controllers/user_controller.py:75-90 | 404 exactly when the user has no salary row; otherwise the user's row whose (year, month) is strictly later than every other of the user's rows |
| UserController.GetSalaryAfterUpsert | controllers/user_controller.py:75-90 | after a salary upsert for a period no earlier than the user's other rows, `get_salary` returns exactly the upserted row |
| UserController.CheckIn | controllers/user_controller.py:96-123 | an existing row gives 400 and no change; otherwise it inserts the row, and its inline late-minute arithmetic agrees with `calculate_late_minutes` |
| UserController.CheckOut | controllers/user_controller.py:129-161 | no row gives 400 "Check-in first", and an already checked-out row gives 400; both leave the table unchanged. Otherwise only that row's `check_out` and `early_minutes` change, and the inline early-minute arithmetic agrees with `calculate_early_minutes` |
| Payroll.Tally | controllers/salary_controller.py:43-60 | a counter never exceeds the number of rows; its exact value is given by TallyIsHitCount |
| Payroll.TallyIsHitCount | controllers/salary_controller.py:43-60 | each counter equals the number of rows meeting its test: late or early minutes over 10 (NULL as 0), or a truthy permission or paid-leave flag |
| Payroll.TallyPermutation | controllers/salary_controller.py:28-32 | a counter does not depend on the order of the rows |
| Payroll.CountsIgnoreOrder | controllers/salary_controller.py:28-32 | the month query has no ORDER BY, and any order of the same rows gives the same five counters |
| Payroll.Settle | controllers/salary_controller.py:62-77 | late and early cuts are 200 per incident; unpaid leave costs 1000 per leave day beyond the first; permissions cost 1000 per permission beyond the second; the bonus is 1000 exactly when the rule's perfect-attendance test holds; deductions are their sum and never negative; final = present·1000 − deductions + bonus, so final ≤ present·1000 + bonus and is a multiple of 200 |
| Payroll.BonusRulesDiffer | utils/salary_calc.py:73-75 | the unpaid-leave bonus rule and the no-leave rule disagree exactly for a full month without permissions and with exactly one paid-leave day, and the no-leave rule never pays more |
| Payroll.MonthRecords | controllers/salary_controller.py:28-32 | one fetched row per date of the user in the month, and every such row is fetched |
| Payroll.MonthRecordsFollowDates | controllers/salary_controller.py:28-32 | the fetched rows are exactly the stored rows of the user's dates in the month: the i-th is the row of the i-th latest such date |
| Payroll.SalaryTable.Upsert | controllers/salary_controller.py:80-100 | the key gets the new row, overwriting any earlier one, and every other key keeps its row |
| SalaryController.ComputeBreakdown | controllers/salary_controller.py:43-77 | the counter loop and the arithmetic after it give the settlement of the rows' counts under the no-leave bonus rule |
| SalaryController.CalculateSalary | controllers/salary_controller.py:18-100 | an invalid month fails before any write. Otherwise present days equal the number of the user's rows in the month, the result is the settlement of those rows, and the salary table changes only at (user, month, year), which now holds the result |
| SalaryController.RecalculateTwice | controllers/salary_controller.py:80-100 | computing the same month twice gives the same result and leaves the table as one computation does |
| SalaryCalc.ComputeBreakdown | utils/salary_calc.py:38-79 | the accumulator loop and the arithmetic after it give the settlement under the rule that a single paid-leave day still earns the bonus; the breakdown also carries the days in the month and the total deductions, which the upsert writes but the returned dict omits |
| SalaryCalc.CalculateSalaryForUser | utils/salary_calc.py:15-100 | an invalid month fails with no write; otherwise the result is the settlement of the month's rows under that rule, upserted at (user, month, year) with other rows untouched |
| SalaryModel.ComputeBreakdown | models/salary_model.py:38-69 | a NULL in `late_minutes` or `early_minutes` of any row makes the comparison raise; otherwise the result is the settlement under the no-leave rule |
| SalaryModel.CalculateSalaryForUser | models/salary_model.py:14-113 | an invalid month or a NULL minute column raises and leaves the salary table unchanged. Otherwise the settlement is upserted, and the returned total deductions, bonus and final salary equal the values written |
| SalaryModel.OpenDayRaises | models/salary_model.py:47-51 | a day of the month that is checked in but not yet checked out makes the computation raise for the whole month |
| App.AlphanumericsAreLettersAndDigits | app.py:17-18 | the pool is 62 characters, exactly the ASCII letters and digits |
| App.GeneratePassword | app.py:17-18 | the password has `length` characters (none when `length` is not positive), each an ASCII letter or digit |
| App.Checkin | app.py:88-107 | an existing row gives 400 and no insert; otherwise a row is inserted whose `is_late` holds exactly when the time is after 09:30 |
| App.Checkout | app.py:109-130 | no row gives 404 and a set checkout time gives 400, both with no change; otherwise only the checkout time and `is_early_leave` (exactly when before 18:00) of that row change |
| App.LegacyMonthLogs | app.py:145-147 | one fetched row per date of the user in that calendar month |
| App.LegacyMonthLogsFollowDates | app.py:145-147 | the fetched rows are exactly the stored rows of the user's dates in that calendar month: the i-th is the row of the i-th latest such date |
| App.FlagCount | app.py:149-153 | a flag count never exceeds the number of rows; FlagSumScales ties it to the deduction |
| App.FlagSumScales | app.py:149-153 | the accumulated deduction is the number of rows with the flag raised times one cut |
| App.PayslipOf | app.py:141-159 | the written row carries the user, period and monthly salary, and final = base − (late + early) |
| App.Payslips | app.py:141-159 | one row per staff user, in the order the users are fetched, each with final = base − (late + early) |
| App.StaffPayslip | app.py:142-155 | one pass of the staff loop yields that user's row: the monthly salary, the two flag deductions and their difference |
| App.PayslipBounded | app.py:143-155 | final = monthly − (late count + early count) · (0.2 · monthly/30), so final ≤ monthly for a non-negative monthly salary |
| App.Deductions | app.py:148-153 | the inner loop adds one cut per raised `is_late` and one per raised `is_early_leave` |
| App.CalculateSalary | app.py:132-163 | a staff user with a NULL salary makes `float(...)` raise before the commit, and no row is added; otherwise exactly one computed row per staff user is appended after the existing rows. Every row keeps final = base − deductions |
| App.CalculateSalaryTwice | app.py:132-163 | running it twice appends every user's row twice: the plain INSERT is not idempotent; with a NULL salary both runs raise and nothing is added |
| App.LatestLog | app.py:194-201 | no index exactly when the user has no row; otherwise an index of the user's row with the greatest (year, month) |
| App.GetUserSalary | app.py:190-213 | 404 exactly when the user has no row; otherwise one of the user's rows, none of whose other rows has a later (year, month) |
| App.ReportLines | app.py:237-253 | at most one line per salary log; over logs whose final is base less deductions, every line's final is its base less its deductions |
| App.ReportLinesSelect | app.py:237-253 | a line is in the report exactly when it is the (name, base, late + early, final) line of a row of the current month and year whose user exists |
| App.ReportLinesCount | app.py:237-253 | the report has one line per selected row |
| App.ReportLinesAppend | app.py:237-253 | the lines of two runs of rows are the lines of the first followed by those of the second, so the report keeps the rows' order |
| App.SumFinalIsBaseLessDeductions | app.py:244 | when each line's final is its base less its deductions, the sum of finals is the sum of bases less the sum of deductions |
| App.SalaryReport | app.py:233-256 | the report is the current month's joined lines, and `total_spent` is the sum of their final salaries; when every row's final is its base less its deductions, `total_spent` is also the total base salary less the total deductions |

## Left out

- Flask routing, blueprints, request parsing, JSON responses and CORS are not modelled. Handler outcomes are `Reply` values: a body, or an error status with its message.
- SQL text, connections and cursors are not modelled. Tables are maps in classes. Connections left open on early returns are not modelled. Commits are modelled only in `calculate_salary` of `app.py`, whose rows become visible together at its single commit.
- Login, bcrypt hashing, `models/auth.py`, `controllers/auth_controller.py` and `models/user_model.py` are not part of this model. They wrap a foreign crypto library and plain SELECTs.
- The listing endpoints have no logic and are left out: `all_staff`, `get_staff`, `/test` and `get_user_attendance` in `app.py`, and `get_profile` in `controllers/user_controller.py`.
- The `add_staff` INSERT is left out. Only the password it generates is modelled.
- The `total_salary` endpoint of `app.py`, a single SQL SUM, is left out.
- The broken `auth_bp` import in `app.py` is a module-loading defect and is not modelled.
- Floating point is not modelled. The amounts of the three salary variants are integers. Each cut is exactly 200.0, and every sum of such amounts is exact. The `app.py` arithmetic (monthly/30 · 0.2) uses exact `real`, so binary rounding is not captured.
- App.PayslipBounded: the bound final ≤ monthly relies on exact `real` arithmetic. Float rounding of monthly/30 · 0.2 is not captured.
- Concurrency is not modelled. Each request is atomic, so the race between the duplicate check and the INSERT of two simultaneous check-ins is not captured.
- AttendanceModel.PerformCheckIn: the model assumes a unique key on (user_id, date), so a second insert raises. Without that key the store would hold two rows for the day, and a map cannot represent that.
- Columns that an INSERT does not name are modelled as NULL. The schema and its defaults are not part of this model.
- App.Checkout: the fourth column of `SELECT *` is taken to be `checkout_time`. The legacy schema is not part of this model.
- App.LegacyMonthLogs: like Payroll.MonthRecords, the model lists the rows newest first, where the store's order is unspecified.
- App.LatestLog: when several rows share the latest (year, month), the model returns the earliest appended. The store may return any of them, so the contract promises only some latest row.
- App.CalculateSalary: when `float(None)` raises, the rows already inserted by that run are never committed. The model takes them as discarded when the connection is dropped, so the table is unchanged.
- App.SalaryReport: the query has no ORDER BY, so the store may return the lines in any order. The model keeps the order of the `salary_logs` rows. ReportLinesSelect and ReportLinesCount state what holds in any order.
- SalaryCalc.CalculateSalaryForUser: the returned dict omits `days_in_month` and `total_deductions`. The model returns the whole breakdown, of which that dict is a projection.
- Payroll.MonthRecords: the store returns the month's rows in an unspecified order. The model lists them newest first, and CountsIgnoreOrder shows that the counters do not depend on the order.
- The date strings `f"{year}-{month:02d}-..."` are modelled as structural dates. A year the database cannot parse is not captured.
- Payroll.Settle: the permission deduction uses Python's true division `excess / 60`. It is modelled as integer division, which is exact because the excess is always a multiple of 60.
