/** `calendar.monthrange(year, month)[1]`: the number of days in a month of the
    proleptic Gregorian calendar. */
module Calendar {
  import opened Domain

  /** `calendar.isleap`; Python's `%` floors, as Dafny's does for a positive divisor. */
  predicate IsLeap(year: int) {
    year % 4 == 0 && (year % 100 != 0 || year % 400 == 0)
  }

  predicate ValidMonth(month: int) {
    1 <= month <= 12
  }

  function DaysInMonth(year: int, month: int): (days: int)
    requires ValidMonth(month)
    ensures 28 <= days <= 31
    ensures month == 2 ==> (days == 29 <==> IsLeap(year))
    ensures month == 2 && !IsLeap(year) ==> days == 28
    ensures month != 2 ==> (days == 30 <==> month in {4, 6, 9, 11})
    ensures month !in {2, 4, 6, 9, 11} ==> days == 31
  {
    if month == 2 then (if IsLeap(year) then 29 else 28)
    else if month == 4 || month == 6 || month == 9 || month == 11 then 30
    else 31
  }

  /** `monthrange(year, month)[1]`, which raises IllegalMonthError for a month
      outside 1..12 and accepts every year. */
  function MonthRange(year: int, month: int): (r: Result<int, Fault>)
    ensures r.Failure? <==> !ValidMonth(month)
    ensures r.Failure? ==> r.error == IllegalMonth
    ensures r.Success? ==> r.value == DaysInMonth(year, month)
  {
    if !ValidMonth(month) then Failure(IllegalMonth) else Success(DaysInMonth(year, month))
  }

  predicate ValidDate(d: Date) {
    ValidMonth(d.month) && 1 <= d.day <= DaysInMonth(d.year, d.month)
  }

  /** `date BETWEEN 'YYYY-MM-01' AND 'YYYY-MM-<days>'`, inclusive at both ends. */
  predicate InPeriod(d: Date, year: int, month: int, days: int) {
    DateLe(Date(year, month, 1), d) && DateLe(d, Date(year, month, days))
  }

  /** For a real date, the BETWEEN filter of a month selects exactly the dates of that month. */
  lemma InPeriodIsSameMonth(d: Date, year: int, month: int)
    requires ValidDate(d) && ValidMonth(month)
    ensures InPeriod(d, year, month, DaysInMonth(year, month)) <==> d.year == year && d.month == month
  {
  }
}
