/** Proleptic Gregorian calendar helpers standing in for the date utilities
    the depreciation engine imports (add_months, add_days, get_last_day,
    get_first_day, date_diff, month_diff, is_last_day_of_the_month).
    A date is a (year, month, day) triple; `DayNumber` is the ordinal of a
    date (1 for 0001-01-01), so `DateDiff(a, b)` is `a - b` in days. */
module Calendar {

  datatype Ymd = Ymd(year: int, month: int, day: int)

  predicate IsLeapYear(year: int) {
    year % 4 == 0 && (year % 100 != 0 || year % 400 == 0)
  }

  function DaysInMonth(year: int, month: int): (n: int)
    ensures 28 <= n <= 31
    ensures month == 2 ==> (n == 29 <==> IsLeapYear(year))
  {
    if month == 2 then (if IsLeapYear(year) then 29 else 28)
    else if month == 4 || month == 6 || month == 9 || month == 11 then 30
    else 31
  }

  predicate ValidYmd(d: Ymd) {
    1 <= d.month <= 12 && 1 <= d.day <= DaysInMonth(d.year, d.month)
  }

  /** A calendar date. */
  type Date = d: Ymd | ValidYmd(d) witness Ymd(2000, 1, 1)

  /** Months since year 0, January; the month a date falls in. */
  function MonthIndex(d: Date): int {
    d.year * 12 + d.month - 1
  }

  /** The length of the month with the given month index. */
  function DaysInMonthAt(mi: int): (n: int)
    ensures 28 <= n <= 31
  {
    DaysInMonth(mi / 12, mi % 12 + 1)
  }

  /** Days from 0001-01-01 (month index 12) to the first day of the month
      with index `mi`: the lengths of the months in between, negated for
      months before year 1. */
  function DaysBeforeMonthIndex(mi: int): int
    decreases if mi >= 12 then mi - 12 else 12 - mi
  {
    if mi == 12 then 0
    else if mi > 12 then DaysBeforeMonthIndex(mi - 1) + DaysInMonthAt(mi - 1)
    else DaysBeforeMonthIndex(mi + 1) - DaysInMonthAt(mi)
  }

  /** The ordinal of a date: 1 for 0001-01-01, one more for each later day. */
  function DayNumber(d: Date): int {
    DaysBeforeMonthIndex(MonthIndex(d)) + d.day
  }

  /** `date_diff(a, b)`: the number of days from `b` to `a`. */
  function DateDiff(a: Date, b: Date): int {
    DayNumber(a) - DayNumber(b)
  }

  /** `add_months(d, k)`: the same day `k` months later (earlier when `k`
      is negative), clamped to the length of the target month. */
  function AddMonths(d: Date, k: int): (r: Date)
    ensures MonthIndex(r) == MonthIndex(d) + k
    ensures r.day == if d.day <= DaysInMonth(r.year, r.month) then d.day else DaysInMonth(r.year, r.month)
  {
    var mi := MonthIndex(d) + k;
    var y, m := mi / 12, mi % 12 + 1;
    var dim := DaysInMonth(y, m);
    Ymd(y, m, if d.day <= dim then d.day else dim)
  }

  /** `get_last_day(d)`: the last day of the month of `d`. */
  function GetLastDay(d: Date): (r: Date)
    ensures MonthIndex(r) == MonthIndex(d)
    ensures r.day == DaysInMonth(d.year, d.month) && r.day >= d.day
  {
    Ymd(d.year, d.month, DaysInMonth(d.year, d.month))
  }

  /** `get_first_day(d)`: the first day of the month of `d`. */
  function GetFirstDay(d: Date): (r: Date)
    ensures MonthIndex(r) == MonthIndex(d) && r.day == 1
  {
    Ymd(d.year, d.month, 1)
  }

  predicate IsLastDayOfTheMonth(d: Date) {
    GetLastDay(d) == d
  }

  /** `month_diff(a, b)`: months from `b` to `a`, counting both ends. */
  function MonthDiff(a: Date, b: Date): (n: int)
    ensures n == MonthIndex(a) - MonthIndex(b) + 1
  {
    (a.year - b.year) * 12 + a.month - b.month + 1
  }

  function NextDay(d: Date): (r: Date) {
    if d.day < DaysInMonth(d.year, d.month) then Ymd(d.year, d.month, d.day + 1)
    else if d.month < 12 then Ymd(d.year, d.month + 1, 1)
    else Ymd(d.year + 1, 1, 1)
  }

  function PrevDay(d: Date): (r: Date) {
    if d.day > 1 then Ymd(d.year, d.month, d.day - 1)
    else if d.month > 1 then Ymd(d.year, d.month - 1, DaysInMonth(d.year, d.month - 1))
    else Ymd(d.year - 1, 12, 31)
  }

  /** `add_days(d, n)`: the date `n` days after `d` (before, when negative). */
  function AddDays(d: Date, n: int): (r: Date)
    ensures DayNumber(r) == DayNumber(d) + n
    decreases if n < 0 then -n else n
  {
    if n == 0 then d
    else if n > 0 then
      NextDayNumber(d);
      AddDays(NextDay(d), n - 1)
    else
      PrevDayNumber(d);
      AddDays(PrevDay(d), n + 1)
  }

  // ---------------------------------------------------------------------
  // Facts about the day count

  /** The first day of a month follows the last day of the month before. */
  lemma MonthStep(mi: int)
    ensures DaysBeforeMonthIndex(mi + 1) == DaysBeforeMonthIndex(mi) + DaysInMonthAt(mi)
  {}

  /** The month index of a date names its year and month. */
  lemma MonthIndexParts(d: Date)
    ensures MonthIndex(d) / 12 == d.year && MonthIndex(d) % 12 + 1 == d.month
    ensures DaysInMonthAt(MonthIndex(d)) == DaysInMonth(d.year, d.month)
  {}

  /** The last day of a month is the day before the next month starts. */
  lemma LastDayNumber(d: Date)
    ensures DayNumber(GetLastDay(d)) == DaysBeforeMonthIndex(MonthIndex(d) + 1)
  {
    MonthIndexParts(d);
    MonthStep(MonthIndex(d));
  }

  lemma NextDayNumber(d: Date)
    ensures DayNumber(NextDay(d)) == DayNumber(d) + 1
  {
    MonthIndexParts(d);
    MonthStep(MonthIndex(d));
  }

  lemma PrevDayNumber(d: Date)
    ensures DayNumber(PrevDay(d)) == DayNumber(d) - 1
  {
    MonthIndexParts(d);
    MonthStep(MonthIndex(d) - 1);
    if d.day == 1 && d.month > 1 {
      MonthIndexParts(PrevDay(d));
    }
  }

  lemma MonthOfYear(year: int, k: int)
    requires 0 <= k < 12
    ensures DaysInMonthAt(year * 12 + k) == DaysInMonth(year, k + 1)
  {
    assert (year * 12 + k) / 12 == year;
  }

  /** The days of the twelve months of `year`. */
  lemma YearLength(year: int)
    ensures DaysBeforeMonthIndex(year * 12 + 12) - DaysBeforeMonthIndex(year * 12)
      == if IsLeapYear(year) then 366 else 365
  {
    var mi := year * 12;
    var k := 0;
    while k < 12
      invariant 0 <= k <= 12
      invariant DaysBeforeMonthIndex(mi + k) - DaysBeforeMonthIndex(mi)
        == DaysBeforeMonth(year, k + 1)
    {
      MonthStep(mi + k);
      MonthOfYear(year, k);
      MonthTableStep(year, k + 1);
      k := k + 1;
    }
  }

  lemma MonthTableStep(year: int, month: int)
    requires 1 <= month <= 12
    ensures DaysBeforeMonth(year, month + 1) == DaysBeforeMonth(year, month) + DaysInMonth(year, month)
  {}

  /** Days in the months of `year` before `month`. */
  function DaysBeforeMonth(year: int, month: int): int
    requires 1 <= month <= 13
  {
    var table := [0, 31, 59, 90, 120, 151, 181, 212, 243, 273, 304, 334, 365];
    table[month - 1] + (if month > 2 && IsLeapYear(year) then 1 else 0)
  }

  /** A count that grows by a positive step at every index grows over any
      span by at least the first step. */
  lemma {:induction false} StepsAccumulate(f: int -> int, g: int -> int, i: int, j: int)
    requires i < j
    requires forall k :: i <= k < j ==> g(k) > 0 && f(k + 1) == f(k) + g(k)
    ensures f(i) + g(i) <= f(j)
    decreases j - i
  {
    if i + 1 < j {
      StepsAccumulate(f, g, i + 1, j);
    }
  }

  lemma MonthStartsIncrease(mi: int, mj: int)
    requires mi < mj
    ensures DaysBeforeMonthIndex(mi) + DaysInMonthAt(mi) <= DaysBeforeMonthIndex(mj)
  {
    var f := k => DaysBeforeMonthIndex(k);
    var g := k => DaysInMonthAt(k);
    forall k | mi <= k < mj
      ensures g(k) > 0 && f(k + 1) == f(k) + g(k)
    {
      MonthStep(k);
    }
    StepsAccumulate(f, g, mi, mj);
  }

  /** A date in an earlier month has a smaller day number. */
  lemma EarlierMonthEarlierDay(a: Date, b: Date)
    requires MonthIndex(a) < MonthIndex(b)
    ensures DayNumber(a) < DayNumber(b)
  {
    MonthStartsIncrease(MonthIndex(a), MonthIndex(b));
    MonthIndexParts(a);
  }

  /** Day numbers identify dates. */
  lemma DayNumberInjective(a: Date, b: Date)
    requires DayNumber(a) == DayNumber(b)
    ensures a == b
  {
    if MonthIndex(a) < MonthIndex(b) {
      EarlierMonthEarlierDay(a, b);
    } else if MonthIndex(b) < MonthIndex(a) {
      EarlierMonthEarlierDay(b, a);
    } else {
      MonthIndexParts(a);
      MonthIndexParts(b);
    }
  }
}
