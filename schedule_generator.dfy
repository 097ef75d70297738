/** The period loop of `_make_depr_schedule`: starting after the booked
    rows, each period index computes the period's amount, pro-rates the
    first and last periods (or the disposal period), settles the amount
    against the expected value after useful life, and appends a row when
    the rounded amount is positive. `RunLoop` is the loop as a function of
    its state; the schedule document's method runs it in place. */
module ScheduleGenerator {
  import opened Wrappers
  import opened Calendar
  import opened Rounding
  import opened DepreciationAmounts
  import opened DepreciationSchedule

  /** `get_adjusted_depreciation_amount`: without opening accumulated
      depreciation, the last pro-rated row takes what the first row left of
      a full period's amount; reading the first row of an empty schedule is
      an error. */
  function GetAdjustedDepreciationAmount(
    openingAccumulatedDepreciation: real, rows: seq<ScheduleRow>, withoutProRata: real, forLastRow: real)
    : (r: Result<real, DeprError>)
    ensures openingAccumulatedDepreciation != 0.0 ==> r == Success(forLastRow)
    ensures openingAccumulatedDepreciation == 0.0 ==> (r.Failure? <==> |rows| == 0)
    ensures openingAccumulatedDepreciation == 0.0 && r.Success? ==>
      rows[0].depreciationAmount + r.value == withoutProRata
  {
    if openingAccumulatedDepreciation != 0.0 then Success(forLastRow)
    else if |rows| == 0 then Failure(NoFirstRow)
    else
      var first := rows[0].depreciationAmount;
      if first + forLastRow != withoutProRata then Success(withoutProRata - first)
      else Success(forLastRow)
  }

  /** What the loop reads and never changes: the asset, the finance book
      row (its value after depreciation already written), the schedule's
      own opening depreciation and booked count, and the figures computed
      before the loop starts. */
  datatype MakeContext = MakeContext(
    asset: Asset,
    row: FinanceBookRow,
    openingAccumulatedDepreciation: real,
    numberOfDepreciationsBooked: int,
    finalNumberOfDepreciations: int,
    hasProRata: bool,
    hasWdvOrDdNonYearlyProRata: bool,
    shouldGetLastDay: bool,
    numberOfPendingDepreciations: int,
    dateOfDisposal: Option<Date>)

  /** The value the loop starts from: the one passed in, unless it is
      missing or zero. */
  function StartingValue(asset: Asset, row: FinanceBookRow, valueAfterDepreciation: Option<real>): real {
    if valueAfterDepreciation.None? || valueAfterDepreciation.value == 0.0
    then ValueAfterDepreciationForMakingSchedule(asset, row)
    else valueAfterDepreciation.value
  }

  /** The figures `_make_depr_schedule` computes before its loop. */
  function MakeContextOf(
    asset: Asset, row: FinanceBookRow, openingAccumulatedDepreciation: real, numberOfDepreciationsBooked: int,
    start: int, dateOfDisposal: Option<Date>, valueAfterDepreciation: Option<real>)
    : (ctx: MakeContext)
    requires asset.availableForUseDate.Some?
    ensures ctx.row == row.(valueAfterDepreciation := StartingValue(asset, row, valueAfterDepreciation))
    ensures ctx.finalNumberOfDepreciations
      == row.totalNumberOfDepreciations - numberOfDepreciationsBooked + (if ctx.hasProRata then 1 else 0)
    ensures ctx.numberOfPendingDepreciations == ctx.finalNumberOfDepreciations - start
    ensures ctx.hasWdvOrDdNonYearlyProRata ==>
      !IsStraightLineOrManual(row.depreciationMethod) && row.frequencyOfDepreciation != 12
  {
    var row' := row.(valueAfterDepreciation := StartingValue(asset, row, valueAfterDepreciation));
    var hasProRata := CheckIsProRata(asset, row', false);
    var finalNumber := row.totalNumberOfDepreciations - numberOfDepreciationsBooked + (if hasProRata then 1 else 0);
    var wdvNonYearly := !IsStraightLineOrManual(row.depreciationMethod) && row.frequencyOfDepreciation != 12
      && CheckIsProRata(asset, row', true);
    MakeContext(asset, row', openingAccumulatedDepreciation, numberOfDepreciationsBooked, finalNumber,
                hasProRata, wdvNonYearly, IsLastDayOfTheMonth(row.depreciationStartDate),
                finalNumber - start, dateOfDisposal)
  }

  /** The state the loop carries from one period index to the next:
      the rows, the value still to depreciate, whether the residual value
      has been reached, and the last schedule date assigned (none before
      the first assignment). */
  datatype LoopState = LoopState(
    rows: seq<ScheduleRow>,
    valueAfterDepreciation: real,
    skipRow: bool,
    scheduleDate: Option<Date>)

  /** One pass of the loop body either goes on to the next index or, for a
      disposal, ends the loop with the final rows. */
  datatype Step = Next(state: LoopState) | Stop(rows: seq<ScheduleRow>)

  /** The nominal date of period `n`: `n` periods after the start date,
      moved to the month end when the start date is a month end. */
  function ScheduleDateAt(row: FinanceBookRow, n: int, shouldGetLastDay: bool): (d: Date)
    ensures MonthIndex(d) == MonthIndex(row.depreciationStartDate) + n * row.frequencyOfDepreciation
    ensures shouldGetLastDay ==> IsLastDayOfTheMonth(d)
  {
    var d := AddMonths(row.depreciationStartDate, n * row.frequencyOfDepreciation);
    if shouldGetLastDay then GetLastDay(d) else d
  }

  /** A row the loop appends: no journal entry, a positive amount, dated the
      disposal date when there is one, and positive after rounding
      otherwise. */
  predicate NewRow(ctx: MakeContext, d: ScheduleRow) {
    && d.journalEntry.None?
    && d.depreciationAmount > 0.0
    && (ctx.dateOfDisposal.Some? ==> d.scheduleDate == ctx.dateOfDisposal.value)
    && (ctx.dateOfDisposal.None? ==> Flt(d.depreciationAmount, ctx.asset.precision) > 0.0)
  }

  /** `rows'` is `rows`, or `rows` and one new row. */
  predicate AtMostOneNewRow(ctx: MakeContext, rows: seq<ScheduleRow>, rows': seq<ScheduleRow>) {
    && rows <= rows'
    && |rows'| <= |rows| + 1
    && (|rows'| == |rows| + 1 ==> NewRow(ctx, rows'[|rows|]))
  }

  /** The disposal branch: the period's amount pro-rated from the last row's
      date (or the available-for-use date moved past the booked periods) to
      the disposal date, appended only when positive. */
  function DisposalRows(ctx: MakeContext, rows: seq<ScheduleRow>, amount: real)
    : (r: Result<seq<ScheduleRow>, DeprError>)
    requires ctx.asset.availableForUseDate.Some? && ctx.dateOfDisposal.Some?
    ensures r.Success? ==> AtMostOneNewRow(ctx, rows, r.value)
  {
    var fromDate :=
      if |rows| > 0 then rows[|rows| - 1].scheduleDate
      else AddMonths(ctx.asset.availableForUseDate.value,
                     ctx.asset.numberOfDepreciationsBooked * ctx.row.frequencyOfDepreciation);
    var pr :- GetProRataAmt(ctx.row, amount, fromDate, ctx.dateOfDisposal.value, false);
    if pr.amount > 0.0 then
      Success(rows + [ScheduleRow(ctx.dateOfDisposal.value, pr.amount, 0.0, None)])
    else Success(rows)
  }

  /** The first and last rows: the first period pro-rated from the day the
      asset became available (or, with opening depreciation under non-yearly
      WDV/DDB, from the end of the booked periods), the last one pro-rated up
      to the asset's end date, adjusted against the first row, and moved to
      the day its share ends. Other periods keep their amount and date. */
  function BoundaryAmount(ctx: MakeContext, n: int, amount: real, scheduleDate: Option<Date>, rows: seq<ScheduleRow>)
    : (r: Result<(real, Option<Date>), DeprError>)
    requires ctx.asset.availableForUseDate.Some?
    ensures r.Success? && r.value.1.None? ==> scheduleDate.None?
  {
    var available := ctx.asset.availableForUseDate.value;
    var frequency := ctx.row.frequencyOfDepreciation;
    var wdv := ctx.hasWdvOrDdNonYearlyProRata;
    if n == 0 && (ctx.hasProRata || wdv) && ctx.openingAccumulatedDepreciation == 0.0 then
      var pr :- GetProRataAmt(ctx.row, amount, AddDays(available, -1), ctx.row.depreciationStartDate, wdv);
      Success((pr.amount, scheduleDate))
    else if n == 0 && wdv && ctx.openingAccumulatedDepreciation != 0.0 then
      var fromDate :=
        if !IsFirstDayOfTheMonth(available)
        then GetLastDay(AddMonths(available, (ctx.numberOfDepreciationsBooked - 1) * frequency))
        else AddMonths(AddDays(available, -1), ctx.numberOfDepreciationsBooked * frequency);
      var pr :- GetProRataAmt(ctx.row, amount, fromDate, ctx.row.depreciationStartDate, wdv);
      Success((pr.amount, scheduleDate))
    else if ctx.hasProRata && n == ctx.finalNumberOfDepreciations - 1 then
      var toDate :=
        if ctx.asset.increaseInAssetLife then ctx.asset.toDate
        else AddMonths(available, (n + ctx.numberOfDepreciationsBooked) * frequency);
      if scheduleDate.None? then Failure(ScheduleDateUnbound)
      else
        var pr :- GetProRataAmt(ctx.row, amount, scheduleDate.value, toDate, wdv);
        var adjusted :- GetAdjustedDepreciationAmount(ctx.openingAccumulatedDepreciation, rows, amount, pr.amount);
        Success((adjusted, Some(AddDays(scheduleDate.value, pr.days))))
    else Success((amount, scheduleDate))
  }

  /** Whether a period's amount is settled against the expected value after
      useful life: at the last index when the value misses it, or at any
      index where the value has dropped below it. */
  predicate ReachesResidual(ctx: MakeContext, n: int, valueAfterDepreciation: real) {
    var e := ctx.row.expectedValueAfterUsefulLife;
    e != 0.0
    && ((n == ctx.finalNumberOfDepreciations - 1 && valueAfterDepreciation != e) || valueAfterDepreciation < e)
  }

  /** The end of the loop body for a nonzero amount: deduct the rounded
      amount, settle against the residual value (which ends the schedule),
      and append the row when its rounded amount is positive. */
  function Settle(ctx: MakeContext, n: int, st: LoopState, amount: real, scheduleDate: Option<Date>)
    : (r: Result<Step, DeprError>)
    requires ctx.dateOfDisposal.None?
    ensures r.Success? ==> r.value.Next? && AtMostOneNewRow(ctx, st.rows, r.value.state.rows)
    ensures r.Success? ==>
      r.value.state.valueAfterDepreciation == st.valueAfterDepreciation - Flt(amount, ctx.asset.precision)
    ensures r.Failure? ==> scheduleDate.None?
  {
    var p := ctx.asset.precision;
    var e := ctx.row.expectedValueAfterUsefulLife;
    var value := st.valueAfterDepreciation - Flt(amount, p);
    var skip := ReachesResidual(ctx, n, value);
    var amount' := if skip then amount + (value - e) else amount;
    if Flt(amount', p) > 0.0 then
      if scheduleDate.None? then Failure(ScheduleDateUnbound)
      else
        FltPositive(amount', p);
        Success(Next(LoopState(st.rows + [ScheduleRow(scheduleDate.value, amount', 0.0, None)], value, skip, scheduleDate)))
    else Success(Next(LoopState(st.rows, value, skip, scheduleDate)))
  }

  /** A row settled against the residual value brings the value still to
      depreciate onto the expected value after useful life, up to the
      rounding of the deducted amount. */
  lemma SettleLandsOnResidual(ctx: MakeContext, n: int, st: LoopState, amount: real, scheduleDate: Option<Date>)
    requires ctx.dateOfDisposal.None?
    requires Settle(ctx, n, st, amount, scheduleDate).Success?
    ensures var st' := Settle(ctx, n, st, amount, scheduleDate).value.state;
      st'.skipRow && |st'.rows| == |st.rows| + 1 ==>
        var landed := st.valueAfterDepreciation - st'.rows[|st.rows|].depreciationAmount;
        -HalfUnit(ctx.asset.precision) <= landed - ctx.row.expectedValueAfterUsefulLife <= HalfUnit(ctx.asset.precision)
  {
    var p := ctx.asset.precision;
    var value := st.valueAfterDepreciation - Flt(amount, p);
    var st' := Settle(ctx, n, st, amount, scheduleDate).value.state;
    if st'.skipRow && |st'.rows| == |st.rows| + 1 {
      var e := ctx.row.expectedValueAfterUsefulLife;
      assert st'.rows[|st.rows|].depreciationAmount == amount + (value - e);
      assert st.valueAfterDepreciation - st'.rows[|st.rows|].depreciationAmount - e == Flt(amount, p) - amount;
    }
  }

  /** The previous period's amount that WDV/DDB repeats: row `n - 1` when
      there is one, and zero otherwise. */
  function PrevAmount(rows: seq<ScheduleRow>, n: int): real {
    if n > 0 && |rows| > n - 1 then rows[n - 1].depreciationAmount else 0.0
  }

  /** The schedule date the loop body binds for period `n`: the period's
      nominal date, except on the last index of a pro-rata schedule of more
      than two periods, which keeps the date bound before. */
  function BoundScheduleDate(ctx: MakeContext, n: int, previous: Option<Date>): Option<Date> {
    if !ctx.hasProRata || n < ctx.finalNumberOfDepreciations - 1 || ctx.finalNumberOfDepreciations == 2
    then Some(ScheduleDateAt(ctx.row, n, ctx.shouldGetLastDay))
    else previous
  }

  /** One pass of the loop body for period index `n`. */
  function Iterate(ctx: MakeContext, n: int, st: LoopState): (r: Result<Step, DeprError>)
    requires ctx.asset.availableForUseDate.Some?
    ensures st.skipRow ==> r == Success(Next(st))
    ensures r.Success? && r.value.Next? ==>
      && (st.skipRow ==> r.value.state.skipRow)
      && (ctx.dateOfDisposal.Some? ==> st.skipRow)
      && AtMostOneNewRow(ctx, st.rows, r.value.state.rows)
    ensures r.Success? && r.value.Stop? ==>
      !st.skipRow && ctx.dateOfDisposal.Some? && AtMostOneNewRow(ctx, st.rows, r.value.rows)
  {
    if st.skipRow then Success(Next(st))
    else
      var amount :- GetDepreciationAmount(ctx.asset, st.valueAfterDepreciation, ctx.row, n, PrevAmount(st.rows, n),
                                          ctx.hasWdvOrDdNonYearlyProRata, ctx.numberOfPendingDepreciations);
      var scheduleDate := BoundScheduleDate(ctx, n, st.scheduleDate);
      if ctx.dateOfDisposal.Some? then
        var rows :- DisposalRows(ctx, st.rows, amount);
        Success(Stop(rows))
      else
        var b :- BoundaryAmount(ctx, n, amount, scheduleDate, st.rows);
        if b.0 == 0.0 then Success(Next(st.(scheduleDate := b.1)))
        else Settle(ctx, n, st, b.0, b.1)
  }

  /** The loop body of `_make_depr_schedule` for period index `n`, step by
      step as the source writes it. */
  method Period(ctx: MakeContext, n: int, st: LoopState) returns (r: Result<Step, DeprError>)
    requires ctx.asset.availableForUseDate.Some?
    ensures r == Iterate(ctx, n, st)
  {
    if st.skipRow {
      return Success(Next(st));
    }
    var prev := 0.0;
    if n > 0 && |st.rows| > n - 1 {
      prev := st.rows[n - 1].depreciationAmount;
    }
    var amountOrError := GetDepreciationAmount(ctx.asset, st.valueAfterDepreciation, ctx.row, n, prev,
                                               ctx.hasWdvOrDdNonYearlyProRata, ctx.numberOfPendingDepreciations);
    if amountOrError.Failure? {
      return Failure(amountOrError.error);
    }
    var amount := amountOrError.value;
    var scheduleDate := st.scheduleDate;
    if !ctx.hasProRata || n < ctx.finalNumberOfDepreciations - 1 || ctx.finalNumberOfDepreciations == 2 {
      scheduleDate := Some(ScheduleDateAt(ctx.row, n, ctx.shouldGetLastDay));
    }

    // an asset being sold or scrapped
    if ctx.dateOfDisposal.Some? {
      var rows := DisposalStep(ctx, st.rows, amount);
      if rows.Failure? {
        return Failure(rows.error);
      }
      return Success(Stop(rows.value));
    }

    var boundary := BoundaryAmount(ctx, n, amount, scheduleDate, st.rows);
    if boundary.Failure? {
      return Failure(boundary.error);
    }
    amount, scheduleDate := boundary.value.0, boundary.value.1;
    if amount == 0.0 {
      return Success(Next(st.(scheduleDate := scheduleDate)));
    }
    r := SettleStep(ctx, n, st, amount, scheduleDate);
  }

  /** The disposal branch of the loop body. */
  method DisposalStep(ctx: MakeContext, rows: seq<ScheduleRow>, amount: real)
    returns (r: Result<seq<ScheduleRow>, DeprError>)
    requires ctx.asset.availableForUseDate.Some? && ctx.dateOfDisposal.Some?
    ensures r == DisposalRows(ctx, rows, amount)
  {
    var fromDate := AddMonths(ctx.asset.availableForUseDate.value,
                              ctx.asset.numberOfDepreciationsBooked * ctx.row.frequencyOfDepreciation);
    if |rows| > 0 {
      fromDate := rows[|rows| - 1].scheduleDate;
    }
    var proRata := GetProRataAmt(ctx.row, amount, fromDate, ctx.dateOfDisposal.value, false);
    if proRata.Failure? {
      return Failure(proRata.error);
    }
    r := Success(rows);
    if proRata.value.amount > 0.0 {
      r := Success(rows + [ScheduleRow(ctx.dateOfDisposal.value, proRata.value.amount, 0.0, None)]);
    }
  }

  /** The end of the loop body for a nonzero amount. */
  method SettleStep(ctx: MakeContext, n: int, st: LoopState, amount: real, scheduleDate: Option<Date>)
    returns (r: Result<Step, DeprError>)
    requires ctx.dateOfDisposal.None?
    ensures r == Settle(ctx, n, st, amount, scheduleDate)
  {
    var p := ctx.asset.precision;
    var value := st.valueAfterDepreciation - Flt(amount, p);

    // settle the last period against the expected value after useful life
    var amount := amount;
    var skipRow := false;
    var expected := ctx.row.expectedValueAfterUsefulLife;
    if expected != 0.0 && ((n == ctx.finalNumberOfDepreciations - 1 && value != expected) || value < expected) {
      amount := amount + (value - expected);
      skipRow := true;
    }
    var rows := st.rows;
    if Flt(amount, p) > 0.0 {
      if scheduleDate.None? {
        return Failure(ScheduleDateUnbound);
      }
      rows := rows + [ScheduleRow(scheduleDate.value, amount, 0.0, None)];
    }
    return Success(Next(LoopState(rows, value, skipRow, scheduleDate)));
  }

  /** The loop `for n in range(n, final)`, from state `st`. */
  function RunLoop(ctx: MakeContext, n: int, st: LoopState): Result<seq<ScheduleRow>, DeprError>
    requires ctx.asset.availableForUseDate.Some?
    decreases ctx.finalNumberOfDepreciations - n
  {
    if n >= ctx.finalNumberOfDepreciations then Success(st.rows)
    else
      var s :- Iterate(ctx, n, st);
      match s
      case Stop(rows) => Success(rows)
      case Next(st') => RunLoop(ctx, n + 1, st')
  }

  /** `make_depr_schedule` as a function of the old rows: nothing happens
      without an available-for-use date; otherwise the booked prefix is kept
      and the loop runs from the index `clear_depr_schedule` returns. The
      result also holds the finance book row with its value after
      depreciation written. */
  function MakeSchedule(
    asset: Asset, row: FinanceBookRow, rows: seq<ScheduleRow>, openingAccumulatedDepreciation: real,
    numberOfDepreciationsBooked: int, dateOfDisposal: Option<Date>, valueAfterDepreciation: Option<real>)
    : Result<(seq<ScheduleRow>, FinanceBookRow), DeprError>
  {
    if asset.availableForUseDate.None? then Success((rows, row))
    else
      var ctx := MakeContextOf(asset, row, openingAccumulatedDepreciation, numberOfDepreciationsBooked,
                               ClearStart(rows), dateOfDisposal, valueAfterDepreciation);
      var r :- RunLoop(ctx, ClearStart(rows), LoopState(BookedPrefix(rows), ctx.row.valueAfterDepreciation, false, None));
      Success((r, ctx.row))
  }

  // ---------------------------------------------------------------------
  // Properties of the loop

  /** What a period without disposal appends. The period's amount is the
      method's amount for index `n`, passed through the first/last-row
      pro-rating; a zero amount only rebinds the date. Otherwise the value
      drops by the rounded amount, the residual test sets the skip flag and
      settles the amount, and a row dated the bound schedule date is
      appended exactly when the settled amount rounds to a positive one.
      A period strictly between the first and the last keeps the method's
      amount and its nominal date. */
  lemma PeriodRowContent(ctx: MakeContext, n: int, st: LoopState)
    requires ctx.asset.availableForUseDate.Some? && ctx.dateOfDisposal.None? && !st.skipRow
    requires Iterate(ctx, n, st).Success?
    ensures Iterate(ctx, n, st).value.Next?
    ensures var amount := GetDepreciationAmount(ctx.asset, st.valueAfterDepreciation, ctx.row, n, PrevAmount(st.rows, n),
                                                ctx.hasWdvOrDdNonYearlyProRata, ctx.numberOfPendingDepreciations);
      amount.Success? && BoundaryAmount(ctx, n, amount.value, BoundScheduleDate(ctx, n, st.scheduleDate), st.rows).Success?
    ensures var amount := GetDepreciationAmount(ctx.asset, st.valueAfterDepreciation, ctx.row, n, PrevAmount(st.rows, n),
                                                ctx.hasWdvOrDdNonYearlyProRata, ctx.numberOfPendingDepreciations).value;
      var b := BoundaryAmount(ctx, n, amount, BoundScheduleDate(ctx, n, st.scheduleDate), st.rows).value;
      var st' := Iterate(ctx, n, st).value.state;
      var p := ctx.asset.precision;
      var value := st.valueAfterDepreciation - Flt(b.0, p);
      var settled := if ReachesResidual(ctx, n, value) then b.0 + (value - ctx.row.expectedValueAfterUsefulLife) else b.0;
      && (0 < n < ctx.finalNumberOfDepreciations - 1 ==> b == (amount, Some(ScheduleDateAt(ctx.row, n, ctx.shouldGetLastDay))))
      && (b.0 == 0.0 ==> st' == st.(scheduleDate := b.1))
      && (b.0 != 0.0 ==>
            && st'.valueAfterDepreciation == value
            && st'.skipRow == ReachesResidual(ctx, n, value)
            && (Flt(settled, p) > 0.0 ==> b.1.Some? && st'.rows == st.rows + [ScheduleRow(b.1.value, settled, 0.0, None)])
            && (Flt(settled, p) <= 0.0 ==> st'.rows == st.rows))
  {
    var amount := GetDepreciationAmount(ctx.asset, st.valueAfterDepreciation, ctx.row, n, PrevAmount(st.rows, n),
                                        ctx.hasWdvOrDdNonYearlyProRata, ctx.numberOfPendingDepreciations);
    var b := IterateWithoutDisposal(ctx, n, st);
    if 0 < n < ctx.finalNumberOfDepreciations - 1 {
      InteriorPeriodIsNominal(ctx, n, amount.value, st.scheduleDate, st.rows);
    }
    if b.0 != 0.0 {
      SettleContent(ctx, n, st, b.0, b.1);
    }
  }

  /** Without disposal, a pass that does not skip computes the amount, runs
      it through the boundary pro-rating and then settles it. */
  lemma IterateWithoutDisposal(ctx: MakeContext, n: int, st: LoopState) returns (b: (real, Option<Date>))
    requires ctx.asset.availableForUseDate.Some? && ctx.dateOfDisposal.None? && !st.skipRow
    requires Iterate(ctx, n, st).Success?
    ensures var amount := GetDepreciationAmount(ctx.asset, st.valueAfterDepreciation, ctx.row, n, PrevAmount(st.rows, n),
                                                ctx.hasWdvOrDdNonYearlyProRata, ctx.numberOfPendingDepreciations);
      && amount.Success?
      && BoundaryAmount(ctx, n, amount.value, BoundScheduleDate(ctx, n, st.scheduleDate), st.rows) == Success(b)
    ensures Iterate(ctx, n, st) == if b.0 == 0.0 then Success(Next(st.(scheduleDate := b.1))) else Settle(ctx, n, st, b.0, b.1)
  {
    var amount := GetDepreciationAmount(ctx.asset, st.valueAfterDepreciation, ctx.row, n, PrevAmount(st.rows, n),
                                        ctx.hasWdvOrDdNonYearlyProRata, ctx.numberOfPendingDepreciations);
    b := BoundaryAmount(ctx, n, amount.value, BoundScheduleDate(ctx, n, st.scheduleDate), st.rows).value;
  }

  /** A period strictly between the first and the last binds its nominal
      date and is not pro-rated. */
  lemma InteriorPeriodIsNominal(ctx: MakeContext, n: int, amount: real, previous: Option<Date>, rows: seq<ScheduleRow>)
    requires ctx.asset.availableForUseDate.Some? && 0 < n < ctx.finalNumberOfDepreciations - 1
    ensures BoundScheduleDate(ctx, n, previous) == Some(ScheduleDateAt(ctx.row, n, ctx.shouldGetLastDay))
    ensures BoundaryAmount(ctx, n, amount, BoundScheduleDate(ctx, n, previous), rows)
            == Success((amount, Some(ScheduleDateAt(ctx.row, n, ctx.shouldGetLastDay))))
  {}

  /** What settling a nonzero amount does to the loop state. */
  lemma SettleContent(ctx: MakeContext, n: int, st: LoopState, amount: real, scheduleDate: Option<Date>)
    requires ctx.dateOfDisposal.None? && Settle(ctx, n, st, amount, scheduleDate).Success?
    ensures var st' := Settle(ctx, n, st, amount, scheduleDate).value.state;
      var p := ctx.asset.precision;
      var value := st.valueAfterDepreciation - Flt(amount, p);
      var settled := if ReachesResidual(ctx, n, value) then amount + (value - ctx.row.expectedValueAfterUsefulLife) else amount;
      && st'.valueAfterDepreciation == value
      && st'.skipRow == ReachesResidual(ctx, n, value)
      && (Flt(settled, p) > 0.0 ==> scheduleDate.Some? && st'.rows == st.rows + [ScheduleRow(scheduleDate.value, settled, 0.0, None)])
      && (Flt(settled, p) <= 0.0 ==> st'.rows == st.rows)
  {}

  /** Once the residual value is reached, the loop appends nothing more. */
  lemma {:induction false} SkipRowEndsSchedule(ctx: MakeContext, n: int, st: LoopState)
    requires ctx.asset.availableForUseDate.Some? && st.skipRow
    ensures RunLoop(ctx, n, st) == Success(st.rows)
    decreases ctx.finalNumberOfDepreciations - n
  {
    if n < ctx.finalNumberOfDepreciations {
      SkipRowEndsSchedule(ctx, n + 1, st);
    }
  }

  /** The loop keeps the rows it starts with, in order, and every row it adds
      has no journal entry and a positive amount (positive after rounding
      when there is no disposal). */
  lemma {:induction false} RunLoopExtends(ctx: MakeContext, n: int, st: LoopState)
    requires ctx.asset.availableForUseDate.Some?
    requires RunLoop(ctx, n, st).Success?
    ensures var r := RunLoop(ctx, n, st).value;
      st.rows <= r && forall j :: |st.rows| <= j < |r| ==> NewRow(ctx, r[j])
    decreases ctx.finalNumberOfDepreciations - n
  {
    if n < ctx.finalNumberOfDepreciations {
      var s := Iterate(ctx, n, st).value;
      if s.Next? {
        var mid := s.state.rows;
        assert AtMostOneNewRow(ctx, st.rows, mid);
        assert RunLoop(ctx, n, st) == RunLoop(ctx, n + 1, s.state);
        RunLoopExtends(ctx, n + 1, s.state);
        var r := RunLoop(ctx, n + 1, s.state).value;
        forall j | |st.rows| <= j < |r| ensures NewRow(ctx, r[j]) {
          if j < |mid| {
            assert j == |st.rows| && r[j] == mid[j];
          }
        }
      } else {
        assert RunLoop(ctx, n, st) == Success(s.rows);
        assert AtMostOneNewRow(ctx, st.rows, s.rows);
      }
    }
  }

  /** With a disposal date the loop adds at most one row, dated the disposal
      date. */
  lemma {:induction false} DisposalAddsAtMostOneRow(ctx: MakeContext, n: int, st: LoopState)
    requires ctx.asset.availableForUseDate.Some? && ctx.dateOfDisposal.Some?
    requires RunLoop(ctx, n, st).Success?
    ensures var r := RunLoop(ctx, n, st).value;
      AtMostOneNewRow(ctx, st.rows, r)
    decreases ctx.finalNumberOfDepreciations - n
  {
    if n < ctx.finalNumberOfDepreciations {
      var s := Iterate(ctx, n, st).value;
      if s.Next? {
        SkipRowEndsSchedule(ctx, n + 1, s.state);
      }
    }
  }

  /** Regenerating a schedule keeps every booked row of its leading run, in
      order and unchanged, and adds only new unbooked rows with positive
      amounts after them. */
  lemma MakeScheduleKeepsBookedRows(
    asset: Asset, row: FinanceBookRow, rows: seq<ScheduleRow>, opening: real, booked: int,
    dateOfDisposal: Option<Date>, valueAfterDepreciation: Option<real>)
    requires asset.availableForUseDate.Some?
    requires MakeSchedule(asset, row, rows, opening, booked, dateOfDisposal, valueAfterDepreciation).Success?
    ensures var r := MakeSchedule(asset, row, rows, opening, booked, dateOfDisposal, valueAfterDepreciation).value.0;
      && BookedPrefix(rows) <= r
      && (forall j :: |BookedPrefix(rows)| <= j < |r| ==> r[j].journalEntry.None? && r[j].depreciationAmount > 0.0)
      && (dateOfDisposal.Some? ==>
            |r| <= |BookedPrefix(rows)| + 1
            && forall j :: |BookedPrefix(rows)| <= j < |r| ==> r[j].scheduleDate == dateOfDisposal.value)
  {
    var ctx := MakeContextOf(asset, row, opening, booked, ClearStart(rows), dateOfDisposal, valueAfterDepreciation);
    var st := LoopState(BookedPrefix(rows), ctx.row.valueAfterDepreciation, false, None);
    RunLoopExtends(ctx, ClearStart(rows), st);
    if dateOfDisposal.Some? {
      DisposalAddsAtMostOneRow(ctx, ClearStart(rows), st);
    }
  }
}
