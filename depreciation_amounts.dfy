/** The pure part of the asset depreciation schedule engine: period lengths,
    pro-rata shares, the pro-rata test, and the per-period amount of each
    depreciation method. Amounts are exact reals; a Python exception raised
    by a formula (a division by zero) is a `Failure`. */
module DepreciationAmounts {
  import opened Wrappers
  import opened Calendar
  import opened Rounding

  datatype DepreciationMethod = StraightLine | DoubleDecliningBalance | WrittenDownValue | Manual

  /** Exceptions the engine can raise while building a schedule. */
  datatype DeprError =
    | ZeroDivision          // a formula divided by zero
    | ScheduleDateUnbound   // `schedule_date` read before any assignment
    | NoFirstRow            // the first schedule row was read from an empty schedule

  /** The fields of the Asset document the engine reads, and the flags that
      say why a schedule is being regenerated. */
  datatype Asset = Asset(
    name: string,
    docstatus: int,
    grossPurchaseAmount: real,
    openingAccumulatedDepreciation: real,
    numberOfDepreciationsBooked: int,
    availableForUseDate: Option<Date>,
    toDate: Date,
    precision: nat,
    increaseInAssetLife: bool,
    increaseInAssetValueDueToRepair: bool,
    decreaseInAssetValueDueToValueAdjustment: bool)

  /** One Asset Finance Book row: the depreciation policy of one book. */
  datatype FinanceBookRow = FinanceBookRow(
    financeBook: string,
    depreciationMethod: DepreciationMethod,
    totalNumberOfDepreciations: int,
    frequencyOfDepreciation: int,
    rateOfDepreciation: real,
    expectedValueAfterUsefulLife: real,
    dailyProrataBased: bool,
    depreciationStartDate: Date,
    valueAfterDepreciation: real,
    idx: int)

  /** The result of `_get_pro_rata_amt`: the share and the raw counts. */
  datatype ProRata = ProRata(amount: real, days: int, months: int)

  predicate IsStraightLineOrManual(m: DepreciationMethod) {
    m == StraightLine || m == Manual
  }

  // ---------------------------------------------------------------------
  // Pro-rata calculator

  /** The first day counted back `frequency` months from `date`, moved to a
      month end when `date` is a month end. */
  function PeriodStart(date: Date, frequency: int): (s: Date)
    ensures MonthIndex(s) == MonthIndex(date) - frequency
    ensures IsLastDayOfTheMonth(date) ==> s.day == DaysInMonth(s.year, s.month)
    ensures !IsLastDayOfTheMonth(date) ==>
              s.day == if date.day <= DaysInMonth(s.year, s.month) then date.day else DaysInMonth(s.year, s.month)
  {
    var start := AddMonths(date, -frequency);
    if IsLastDayOfTheMonth(date) then GetLastDay(start) else start
  }

  /** `get_total_days`: the length in days of the period of `frequency`
      months that ends on `date`; positive whenever the frequency is. */
  function TotalDays(date: Date, frequency: int): (n: int)
    ensures n == DayNumber(date) - DayNumber(PeriodStart(date, frequency))
    ensures frequency > 0 ==> n > 0
  {
    PeriodStartBefore(date, frequency);
    DateDiff(date, PeriodStart(date, frequency))
  }

  lemma PeriodStartBefore(date: Date, frequency: int)
    ensures frequency > 0 ==> DayNumber(PeriodStart(date, frequency)) < DayNumber(date)
  {
    if frequency > 0 {
      EarlierMonthEarlierDay(PeriodStart(date, frequency), date);
    }
  }

  /** The period length a pro-rata share is measured against: the book's
      frequency, or a year for non-yearly WDV/DDB pro-rata. */
  function ProRataFrequency(row: FinanceBookRow, wdvOrDdNonYearly: bool): int {
    if wdvOrDdNonYearly then 12 else row.frequencyOfDepreciation
  }

  /** `amount * days / total`: the part of `amount` that `days` out of
      `total` earn. */
  function Share(amount: real, days: int, total: int): (r: real)
    requires total != 0
    ensures r * (total as real) == amount * (days as real)
  {
    DivThenMul(amount * (days as real), total as real);
    amount * (days as real) / (total as real)
  }

  lemma DivThenMul(x: real, t: real)
    requires t != 0.0
    ensures x / t * t == x
  {}

  /** All the days of the period earn the whole amount. */
  lemma ShareWhole(amount: real, total: int)
    requires total != 0
    ensures Share(amount, total, total) == amount
  {
    var t := total as real;
    assert amount * t / t == amount;
  }

  /** Part of a period earns a part of a non-negative amount. */
  lemma ShareBounds(amount: real, days: int, total: int)
    requires amount >= 0.0 && 0 <= days <= total && total > 0
    ensures 0.0 <= Share(amount, days, total) <= amount
  {
    var ratio := (days as real) / (total as real);
    assert 0.0 <= ratio <= 1.0;
    assert Share(amount, days, total) == amount * ratio;
    ScaleBelow(amount, ratio);
  }

  lemma ScaleBelow(amount: real, ratio: real)
    requires amount >= 0.0 && 0.0 <= ratio <= 1.0
    ensures 0.0 <= amount * ratio <= amount
  {}

  /** `_get_pro_rata_amt`: the share of `amount` owed from `fromDate` to
      `toDate`, measured against the period ending on `toDate`, with the raw
      day and month counts. */
  function GetProRataAmt(row: FinanceBookRow, amount: real, fromDate: Date, toDate: Date, wdvOrDdNonYearly: bool)
    : (r: Result<ProRata, DeprError>)
    ensures var total := TotalDays(toDate, ProRataFrequency(row, wdvOrDdNonYearly));
      && (r.Failure? <==> total == 0)
      && (r.Success? ==>
           && r.value.days == DayNumber(toDate) - DayNumber(fromDate)
           && r.value.months == MonthIndex(toDate) - MonthIndex(fromDate) + 1
           && r.value.amount == Share(amount, r.value.days, total))
  {
    var days := DateDiff(toDate, fromDate);
    var months := MonthDiff(toDate, fromDate);
    var totalDays := TotalDays(toDate, ProRataFrequency(row, wdvOrDdNonYearly));
    if totalDays == 0 then Failure(ZeroDivision)
    else Success(ProRata(Share(amount, days, totalDays), days, months))
  }

  /** A share taken over a whole period, from its start to its end, is the
      whole amount. */
  lemma FullPeriodProRata(row: FinanceBookRow, amount: real, toDate: Date, wdvOrDdNonYearly: bool)
    requires ProRataFrequency(row, wdvOrDdNonYearly) > 0
    ensures var f := ProRataFrequency(row, wdvOrDdNonYearly);
      var r := GetProRataAmt(row, amount, PeriodStart(toDate, f), toDate, wdvOrDdNonYearly);
      r.Success? && r.value.amount == amount && r.value.days == TotalDays(toDate, f)
  {
    ShareWhole(amount, TotalDays(toDate, ProRataFrequency(row, wdvOrDdNonYearly)));
  }

  /** A share of at most one period of a non-negative amount lies between
      zero and the amount. */
  lemma ProRataWithinAmount(row: FinanceBookRow, amount: real, fromDate: Date, toDate: Date, wdvOrDdNonYearly: bool)
    requires ProRataFrequency(row, wdvOrDdNonYearly) > 0 && amount >= 0.0
    requires DayNumber(PeriodStart(toDate, ProRataFrequency(row, wdvOrDdNonYearly))) <= DayNumber(fromDate) <= DayNumber(toDate)
    ensures var r := GetProRataAmt(row, amount, fromDate, toDate, wdvOrDdNonYearly);
      r.Success? && 0.0 <= r.value.amount <= amount
  {
    var t := TotalDays(toDate, ProRataFrequency(row, wdvOrDdNonYearly));
    ShareBounds(amount, DayNumber(toDate) - DayNumber(fromDate), t);
  }

  /** `_get_modified_available_for_use_date`: the available-for-use date
      moved past the periods already booked before this schedule. */
  function ModifiedAvailableForUseDate(asset: Asset, row: FinanceBookRow, wdvOrDdNonYearly: bool): (d: Date)
    requires asset.availableForUseDate.Some?
    ensures MonthIndex(d) == MonthIndex(asset.availableForUseDate.value)
      + asset.numberOfDepreciationsBooked * ProRataFrequency(row, wdvOrDdNonYearly)
  {
    AddMonths(asset.availableForUseDate.value, asset.numberOfDepreciationsBooked * ProRataFrequency(row, wdvOrDdNonYearly))
  }

  /** `_check_is_pro_rata`: whether the first period is shorter than a full
      period, counting the available-for-use day itself. That is the case
      exactly when the asset became available after the first day of the
      full period ending on the start date. */
  predicate CheckIsProRata(asset: Asset, row: FinanceBookRow, wdvOrDdNonYearly: bool): (r: bool)
    requires asset.availableForUseDate.Some?
    ensures r <==>
      DayNumber(ModifiedAvailableForUseDate(asset, row, wdvOrDdNonYearly))
        > DayNumber(PeriodStart(row.depreciationStartDate, ProRataFrequency(row, wdvOrDdNonYearly))) + 1
  {
    var fromDate := ModifiedAvailableForUseDate(asset, row, wdvOrDdNonYearly);
    var days := DateDiff(row.depreciationStartDate, fromDate) + 1;
    var totalDays := TotalDays(row.depreciationStartDate, ProRataFrequency(row, wdvOrDdNonYearly));
    days < totalDays
  }

  // ---------------------------------------------------------------------
  // Period amount calculator: Written Down Value / Double Declining Balance

  /** `get_wdv_or_dd_depr_amount`. */
  function GetWdvOrDdDeprAmount(
    depreciableValue: real, rateOfDepreciation: real, frequency: int,
    scheduleIdx: int, prevDepreciationAmount: real, hasWdvOrDdNonYearlyProRata: bool)
    : (r: Result<real, DeprError>)
    ensures frequency == 12 ==> r == Success(depreciableValue * (rateOfDepreciation / 100.0))
    ensures frequency != 12 && hasWdvOrDdNonYearlyProRata && scheduleIdx == 0 ==>
      r == Success(depreciableValue * (rateOfDepreciation / 100.0))
    ensures r.Failure? <==> frequency == 0 && !(hasWdvOrDdNonYearlyProRata && scheduleIdx == 0)
    ensures r.Success? ==>
      r.value == prevDepreciationAmount
      || r.value == depreciableValue * (rateOfDepreciation / 100.0)
      || r.value == depreciableValue * (frequency as real) * (rateOfDepreciation / 1200.0)
  {
    if frequency == 12 then Success(depreciableValue * (rateOfDepreciation / 100.0))
    else if hasWdvOrDdNonYearlyProRata && scheduleIdx == 0 then
      Success(depreciableValue * (rateOfDepreciation / 100.0))
    else if frequency == 0 then Failure(ZeroDivision)
    else
      var position := RealMod(scheduleIdx as real, 12.0 / (frequency as real));
      var recompute := if hasWdvOrDdNonYearlyProRata then position == 1.0 else position == 0.0;
      if recompute then Success(depreciableValue * (frequency as real) * (rateOfDepreciation / 1200.0))
      else Success(prevDepreciationAmount)
  }

  /** The periods per year of a frequency that divides twelve months. */
  lemma PeriodsPerYear(frequency: int)
    requires 0 < frequency && 12 % frequency == 0
    ensures 12.0 / (frequency as real) == (12 / frequency) as real
  {
    var q := 12 / frequency;
    assert 12 == frequency * q;
    assert (frequency as real) * (q as real) == 12.0;
  }

  /** For a frequency dividing the year, WDV/DDB re-bases the amount once a
      year: on every index that is a multiple of the periods per year (one
      past a multiple, in the pro-rata variant), and repeats the previous
      amount on every other index. */
  lemma WdvRebasingCadence(
    depreciableValue: real, rate: real, frequency: int, idx: int, prev: real, proRata: bool)
    requires 0 < frequency < 12 && 12 % frequency == 0 && idx >= 0
    requires !(proRata && idx == 0)
    ensures var periodsPerYear := 12 / frequency;
      var rebases := if proRata then idx % periodsPerYear == 1 else idx % periodsPerYear == 0;
      GetWdvOrDdDeprAmount(depreciableValue, rate, frequency, idx, prev, proRata)
      == Success(if rebases then depreciableValue * (frequency as real) * (rate / 1200.0) else prev)
  {
    PeriodsPerYear(frequency);
    RealModOfIntegers(idx, 12 / frequency);
    var position := RealMod(idx as real, 12.0 / (frequency as real));
    assert position == (idx % (12 / frequency)) as real;
    WdvBranch(depreciableValue, rate, frequency, idx, prev, proRata, position);
  }

  lemma WdvBranch(
    depreciableValue: real, rate: real, frequency: int, idx: int, prev: real, proRata: bool, position: real)
    requires 0 < frequency < 12 && !(proRata && idx == 0)
    requires position == RealMod(idx as real, 12.0 / (frequency as real))
    ensures GetWdvOrDdDeprAmount(depreciableValue, rate, frequency, idx, prev, proRata)
      == Success(if (if proRata then position == 1.0 else position == 0.0)
                 then depreciableValue * (frequency as real) * (rate / 1200.0) else prev)
  {}

  /** A re-based period amount, booked once per period of the year, adds up
      to the annual amount `value × rate / 100`. */
  lemma RebasedAmountIsAnnualShare(depreciableValue: real, rate: real, frequency: int)
    requires 0 < frequency && 12 % frequency == 0
    ensures depreciableValue * (frequency as real) * (rate / 1200.0) * ((12 / frequency) as real)
      == depreciableValue * (rate / 100.0)
  {
    PeriodsPerYear(frequency);
    assert (frequency as real) * ((12 / frequency) as real) == 12.0;
  }

  // ---------------------------------------------------------------------
  // Period amount calculator: Straight Line / Manual

  /** `value / n`: an amount spread evenly over `n` periods or days; Python
      raises on `n == 0`. */
  function Spread(value: real, n: int): (r: Result<real, DeprError>)
    ensures r.Failure? <==> n == 0
    ensures r.Success? ==> r.value * (n as real) == value
  {
    if n == 0 then Failure(ZeroDivision)
    else
      DivThenMul(value, n as real);
      Success(value / (n as real))
  }

  /** The month end that closes schedule period `i`. */
  function PeriodEnd(row: FinanceBookRow, i: int): Date {
    GetLastDay(AddMonths(row.depreciationStartDate, i * row.frequencyOfDepreciation))
  }

  /** The month index of the month end that closes schedule period `i`. */
  function EndMonth(row: FinanceBookRow, i: int): int {
    MonthIndex(row.depreciationStartDate) + i * row.frequencyOfDepreciation
  }

  /** The day number of the month end that closes schedule period `i`: the
      day before the following month starts. */
  function EndDay(row: FinanceBookRow, i: int): int {
    DaysBeforeMonthIndex(EndMonth(row, i) + 1)
  }

  lemma PeriodEndDay(row: FinanceBookRow, i: int)
    ensures MonthIndex(PeriodEnd(row, i)) == EndMonth(row, i)
    ensures DayNumber(PeriodEnd(row, i)) == EndDay(row, i)
  {
    LastDayNumber(AddMonths(row.depreciationStartDate, i * row.frequencyOfDepreciation));
  }

  /** Days of period `i`: from the day after period `i - 1`'s month end to
      period `i`'s month end, both included. */
  function DaysInPeriod(row: FinanceBookRow, i: int): int {
    EndDay(row, i) - EndDay(row, i - 1)
  }

  /** Days of periods `first` to `last`, both included. */
  function DaysInPeriods(row: FinanceBookRow, first: int, last: int): int {
    EndDay(row, last) - EndDay(row, first - 1)
  }

  /** The source counts both as `date_diff(to_date, from_date) + 1`, with
      `from_date` the day after the earlier month end. */
  lemma DaysCountedFromNextDay(row: FinanceBookRow, first: int, last: int)
    ensures DaysInPeriods(row, first, last) == DateDiff(PeriodEnd(row, last), AddDays(PeriodEnd(row, first - 1), 1)) + 1
    ensures DaysInPeriod(row, last) == DateDiff(PeriodEnd(row, last), AddDays(PeriodEnd(row, last - 1), 1)) + 1
  {
    PeriodEndDay(row, last);
    PeriodEndDay(row, last - 1);
    PeriodEndDay(row, first - 1);
  }

  /** The daily rate as the source writes it: `value` over the `date_diff`
      from the first period's first day to the last period's month end,
      which leaves out one day of the span. */
  function DailyRateAsWritten(row: FinanceBookRow, value: real, first: int, last: int): Result<real, DeprError> {
    Spread(value, DaysInPeriods(row, first, last) - 1)
  }

  /** The daily rate that spreads `value` over every day of periods `first`
      to `last`. */
  function DailyRate(row: FinanceBookRow, value: real, first: int, last: int): Result<real, DeprError> {
    Spread(value, DaysInPeriods(row, first, last))
  }

  /** The amount of period `idx` at a daily rate: the rate times the days
      of the period. */
  function DailyProRataAmount(row: FinanceBookRow, dailyRate: real, idx: int): real {
    dailyRate * (DaysInPeriod(row, idx) as real)
  }

  /** `get_straight_line_or_manual_depr_amount`, in the order the source
      tests the regeneration flags. */
  function GetStraightLineOrManualDeprAmount(asset: Asset, row: FinanceBookRow, scheduleIdx: int, pendingDepreciations: int)
    : (r: Result<real, DeprError>)
    requires asset.availableForUseDate.Some?
    ensures asset.increaseInAssetLife ==>
      (r.Failure? <==> DateDiff(asset.toDate, asset.availableForUseDate.value) == 0)
    ensures asset.increaseInAssetLife && r.Success? ==>
      r.value * ((DateDiff(asset.toDate, asset.availableForUseDate.value) as real) / 365.0)
        == row.valueAfterDepreciation - row.expectedValueAfterUsefulLife
    ensures !asset.increaseInAssetLife && asset.increaseInAssetValueDueToRepair ==>
      r == Spread(row.valueAfterDepreciation - row.expectedValueAfterUsefulLife, row.totalNumberOfDepreciations)
    ensures (!asset.increaseInAssetLife && !asset.increaseInAssetValueDueToRepair
      && asset.decreaseInAssetValueDueToValueAdjustment && !row.dailyProrataBased) ==>
      r == Spread(row.valueAfterDepreciation - row.expectedValueAfterUsefulLife, pendingDepreciations)
    ensures (!asset.increaseInAssetLife && !asset.increaseInAssetValueDueToRepair
      && !asset.decreaseInAssetValueDueToValueAdjustment && !row.dailyProrataBased) ==>
      r == Spread(asset.grossPurchaseAmount - asset.openingAccumulatedDepreciation - row.expectedValueAfterUsefulLife,
                  row.totalNumberOfDepreciations - asset.numberOfDepreciationsBooked)
    ensures (!asset.increaseInAssetLife && !asset.increaseInAssetValueDueToRepair && row.dailyProrataBased) ==>
      var remaining := row.totalNumberOfDepreciations - asset.numberOfDepreciationsBooked;
      var adjusted := asset.decreaseInAssetValueDueToValueAdjustment;
      var value := if adjusted then row.valueAfterDepreciation - row.expectedValueAfterUsefulLife
        else asset.grossPurchaseAmount - asset.openingAccumulatedDepreciation - row.expectedValueAfterUsefulLife;
      var rate := DailyRate(row, value, if adjusted then remaining - pendingDepreciations else 0, remaining - 1);
      r == if rate.Failure? then Failure(ZeroDivision) else Success(DailyProRataAmount(row, rate.value, scheduleIdx))
  {
    var residualValue := row.valueAfterDepreciation - row.expectedValueAfterUsefulLife;
    var remaining := row.totalNumberOfDepreciations - asset.numberOfDepreciationsBooked;
    if asset.increaseInAssetLife then
      var years := (DateDiff(asset.toDate, asset.availableForUseDate.value) as real) / 365.0;
      if years == 0.0 then Failure(ZeroDivision) else Success(residualValue / years)
    else if asset.increaseInAssetValueDueToRepair then
      Spread(residualValue, row.totalNumberOfDepreciations)
    else if asset.decreaseInAssetValueDueToValueAdjustment then
      if row.dailyProrataBased then
        var rate :- DailyRate(row, residualValue, remaining - pendingDepreciations, remaining - 1);
        Success(DailyProRataAmount(row, rate, scheduleIdx))
      else Spread(residualValue, pendingDepreciations)
    else
      var depreciableValue := asset.grossPurchaseAmount - asset.openingAccumulatedDepreciation
        - row.expectedValueAfterUsefulLife;
      if row.dailyProrataBased then
        var rate :- DailyRate(row, depreciableValue, 0, remaining - 1);
        Success(DailyProRataAmount(row, rate, scheduleIdx))
      else Spread(depreciableValue, remaining)
  }

  /** First-time Straight Line without the daily flag books the same amount
      in every period, and that amount times the periods left is the
      depreciable value. */
  lemma StraightLineIsLevel(asset: Asset, row: FinanceBookRow, i: int, j: int, pendingI: int, pendingJ: int)
    requires asset.availableForUseDate.Some?
    requires !asset.increaseInAssetLife && !asset.increaseInAssetValueDueToRepair
    requires !asset.decreaseInAssetValueDueToValueAdjustment && !row.dailyProrataBased
    requires row.totalNumberOfDepreciations != asset.numberOfDepreciationsBooked
    ensures var r := GetStraightLineOrManualDeprAmount(asset, row, i, pendingI);
      && r == GetStraightLineOrManualDeprAmount(asset, row, j, pendingJ)
      && r.Success?
      && r.value * ((row.totalNumberOfDepreciations - asset.numberOfDepreciationsBooked) as real)
         == asset.grossPurchaseAmount - asset.openingAccumulatedDepreciation - row.expectedValueAfterUsefulLife
  {}

  /** `f(first) + ... + f(last)`, added term by term. */
  function SumOf(f: int -> int, first: int, last: int): int
    decreases last - first
  {
    if last < first then 0 else SumOf(f, first, last - 1) + f(last)
  }

  /** `rate * f(first) + ... + rate * f(last)`, added term by term. */
  function RateSumOf(f: int -> int, rate: real, first: int, last: int): real
    decreases last - first
  {
    if last < first then 0.0 else RateSumOf(f, rate, first, last - 1) + rate * (f(last) as real)
  }

  lemma MulAdd(rate: real, a: int, b: int, c: int)
    requires c == a + b
    ensures rate * (a as real) + rate * (b as real) == rate * (c as real)
  {}

  /** The rate factors out of the sum. */
  lemma {:induction false} RateSumFactors(f: int -> int, rate: real, first: int, last: int)
    ensures RateSumOf(f, rate, first, last) == rate * (SumOf(f, first, last) as real)
    decreases last - first
  {
    if first <= last {
      RateSumFactors(f, rate, first, last - 1);
      MulAdd(rate, SumOf(f, first, last - 1), f(last), SumOf(f, first, last));
    }
  }

  lemma RateSumIs(f: int -> int, rate: real, first: int, last: int, n: int)
    requires SumOf(f, first, last) == n
    ensures RateSumOf(f, rate, first, last) == rate * (n as real)
  {
    RateSumFactors(f, rate, first, last);
  }

  /** The days of each schedule period, by index. */
  function PeriodDays(row: FinanceBookRow): int -> int {
    i => DaysInPeriod(row, i)
  }

  /** The daily pro-rata amounts of periods `first` to `last`, added up. */
  function SumDailyAmounts(row: FinanceBookRow, rate: real, first: int, last: int): real {
    RateSumOf(PeriodDays(row), rate, first, last)
  }

  /** Each period adds its own daily pro-rata amount to the sum. */
  lemma SumDailyAmountsStep(row: FinanceBookRow, rate: real, first: int, last: int)
    requires first <= last
    ensures SumDailyAmounts(row, rate, first, last)
      == SumDailyAmounts(row, rate, first, last - 1) + DailyProRataAmount(row, rate, last)
  {}

  /** The days of consecutive periods add up to the days of their span. */
  lemma {:induction false} DaysInPeriodsTelescope(row: FinanceBookRow, first: int, last: int)
    requires first <= last + 1
    ensures SumOf(PeriodDays(row), first, last) == DaysInPeriods(row, first, last)
    decreases last - first
  {
    if first <= last {
      DaysInPeriodsTelescope(row, first, last - 1);
    }
  }

  /** At any rate, the daily amounts of periods `first` to `last` add up to
      the rate times the days of their span. */
  lemma SumAtRate(row: FinanceBookRow, rate: real, first: int, last: int, n: int)
    requires first <= last + 1
    requires n == DaysInPeriods(row, first, last)
    ensures SumDailyAmounts(row, rate, first, last) == rate * (n as real)
  {
    DaysInPeriodsTelescope(row, first, last);
    RateSumIs(PeriodDays(row), rate, first, last, n);
  }

  /** The daily pro-rata amounts of all periods add up exactly to the value
      spread over them. */
  lemma DailyAmountsSumToValue(row: FinanceBookRow, value: real, first: int, last: int)
    requires first <= last + 1
    requires DailyRate(row, value, first, last).Success?
    ensures SumDailyAmounts(row, DailyRate(row, value, first, last).value, first, last) == value
  {
    var n := DaysInPeriods(row, first, last);
    var r := Spread(value, n);
    assert DailyRate(row, value, first, last) == r;
    SumAtRate(row, r.value, first, last, n);
  }

  /** With the divisor as written, the amounts add up to one day's worth more
      than the value whenever the rate is defined. */
  lemma DailyAmountsAsWrittenOvershoot(row: FinanceBookRow, value: real, first: int, last: int)
    requires first <= last + 1
    requires DailyRateAsWritten(row, value, first, last).Success?
    ensures var rate := DailyRateAsWritten(row, value, first, last).value;
      SumDailyAmounts(row, rate, first, last) == value + rate
  {
    var n := DaysInPeriods(row, first, last);
    var r := Spread(value, n - 1);
    assert DailyRateAsWritten(row, value, first, last) == r;
    OvershootAtRate(row, r.value, value, first, last, n);
  }

  /** A rate that spreads `value` over one day fewer than the periods hold
      books one rate more than `value`. */
  lemma OvershootAtRate(row: FinanceBookRow, rate: real, value: real, first: int, last: int, n: int)
    requires first <= last + 1
    requires n == DaysInPeriods(row, first, last)
    requires rate * ((n - 1) as real) == value
    ensures SumDailyAmounts(row, rate, first, last) == value + rate
  {
    SumAtRate(row, rate, first, last, n);
    OneRateMore(SumDailyAmounts(row, rate, first, last), rate, value, n);
  }

  lemma OneRateMore(s: real, rate: real, value: real, n: int)
    requires s == rate * (n as real)
    requires rate * ((n - 1) as real) == value
    ensures s == value + rate
  {
    MulAdd(rate, n - 1, 1, n);
  }

  /** The schedule of the counterexample: monthly Straight Line with daily
      pro-rata, twelve periods, the first ending on January 31 of `year`. */
  function YearRow(year: int): FinanceBookRow {
    FinanceBookRow("", StraightLine, 12, 1, 0.0, 0.0, true, Ymd(year, 1, 31), 0.0, 1)
  }

  /** Its twelve periods run from January 1 to December 31 of `year`. */
  lemma YearRowDays(year: int)
    ensures DaysInPeriods(YearRow(year), 0, 11) == if IsLeapYear(year) then 366 else 365
  {
    YearLength(year);
  }

  /** In a leap year such as 2024 the divisor as written counts 365 days for
      the 366 the periods hold, and the periods book 366 + 366/365 in total
      instead of the 366 spread. */
  lemma DailyRateAsWrittenCounterexample(year: int)
    requires IsLeapYear(year)
    ensures DailyRateAsWritten(YearRow(year), 366.0, 0, 11) == Success(366.0 / 365.0)
    ensures SumDailyAmounts(YearRow(year), 366.0 / 365.0, 0, 11) == 366.0 + 366.0 / 365.0
  {
    var row := YearRow(year);
    YearRowDays(year);
    assert DailyRateAsWritten(row, 366.0, 0, 11) == Spread(366.0, 365);
    assert Spread(366.0, 365) == Success(366.0 / 365.0);
    DailyAmountsAsWrittenOvershoot(row, 366.0, 0, 11);
  }

  // ---------------------------------------------------------------------
  // Dispatch

  /** `get_depreciation_amount`: the undiscounted amount of one period. The
      regional rate hook is the identity, so WDV/DDB use the book's rate. */
  function GetDepreciationAmount(
    asset: Asset, depreciableValue: real, row: FinanceBookRow, scheduleIdx: int,
    prevDepreciationAmount: real, hasWdvOrDdNonYearlyProRata: bool, pendingDepreciations: int)
    : (r: Result<real, DeprError>)
    requires asset.availableForUseDate.Some?
    ensures IsStraightLineOrManual(row.depreciationMethod) ==>
      r == GetStraightLineOrManualDeprAmount(asset, row, scheduleIdx, pendingDepreciations)
    ensures !IsStraightLineOrManual(row.depreciationMethod) ==>
      r == GetWdvOrDdDeprAmount(depreciableValue, row.rateOfDepreciation, row.frequencyOfDepreciation,
                                scheduleIdx, prevDepreciationAmount, hasWdvOrDdNonYearlyProRata)
  {
    if IsStraightLineOrManual(row.depreciationMethod) then
      GetStraightLineOrManualDeprAmount(asset, row, scheduleIdx, pendingDepreciations)
    else
      GetWdvOrDdDeprAmount(depreciableValue, row.rateOfDepreciation, row.frequencyOfDepreciation,
                           scheduleIdx, prevDepreciationAmount, hasWdvOrDdNonYearlyProRata)
  }

  /** `_get_value_after_depreciation_for_making_schedule`. */
  function ValueAfterDepreciationForMakingSchedule(asset: Asset, row: FinanceBookRow): (v: real)
    ensures asset.docstatus != 1 || row.valueAfterDepreciation == 0.0 ==>
      v == asset.grossPurchaseAmount - asset.openingAccumulatedDepreciation
    ensures asset.docstatus == 1 && row.valueAfterDepreciation != 0.0 ==> v == row.valueAfterDepreciation
  {
    if asset.docstatus == 1 && row.valueAfterDepreciation != 0.0 then row.valueAfterDepreciation
    else asset.grossPurchaseAmount - asset.openingAccumulatedDepreciation
  }
}
