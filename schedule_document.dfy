/** The Asset Depreciation Schedule document: the figures it copies from
    the asset and its finance book row, its rows, its status, and the
    methods that rebuild the rows in place. */
module ScheduleDocument {
  import opened Wrappers
  import opened Calendar
  import opened Rounding
  import opened DepreciationAmounts
  import opened DepreciationSchedule
  import opened ScheduleGenerator

  class AssetDepreciationSchedule {
    var docstatus: int
    var status: ScheduleStatus
    var assetName: string      // the `asset` link
    var financeBook: string
    var financeBookId: int     // the book row's position among the asset's books
    var grossPurchaseAmount: real
    var openingAccumulatedDepreciation: real
    var numberOfDepreciationsBooked: int
    var depreciationMethod: DepreciationMethod
    var totalNumberOfDepreciations: int
    var frequencyOfDepreciation: int
    var rateOfDepreciation: real
    var expectedValueAfterUsefulLife: real
    var dailyProrataBased: bool
    var rows: seq<ScheduleRow>

    constructor (rows: seq<ScheduleRow>)
      ensures this.rows == rows && docstatus == 0 && status == Draft
    {
      this.rows := rows;
      docstatus := 0;
      status := Draft;
      assetName := "";
      financeBook := "";
      financeBookId := 0;
      grossPurchaseAmount := 0.0;
      openingAccumulatedDepreciation := 0.0;
      numberOfDepreciationsBooked := 0;
      depreciationMethod := StraightLine;
      totalNumberOfDepreciations := 0;
      frequencyOfDepreciation := 0;
      rateOfDepreciation := 0.0;
      expectedValueAfterUsefulLife := 0.0;
      dailyProrataBased := false;
    }

    /** The figures `set_draft_asset_depr_schedule_details` copies from the
        asset and the finance book row are in place, and the schedule is a
        draft. */
    predicate DetailsCopied(asset: Asset, row: FinanceBookRow)
      reads this
    {
      && assetName == asset.name && financeBook == row.financeBook && financeBookId == row.idx
      && openingAccumulatedDepreciation == asset.openingAccumulatedDepreciation
      && numberOfDepreciationsBooked == asset.numberOfDepreciationsBooked
      && grossPurchaseAmount == asset.grossPurchaseAmount
      && depreciationMethod == row.depreciationMethod
      && totalNumberOfDepreciations == row.totalNumberOfDepreciations
      && frequencyOfDepreciation == row.frequencyOfDepreciation
      && rateOfDepreciation == row.rateOfDepreciation
      && expectedValueAfterUsefulLife == row.expectedValueAfterUsefulLife
      && dailyProrataBased == row.dailyProrataBased
      && status == Draft
    }

    /** `set_draft_asset_depr_schedule_details`: copy the asset's and the
        finance book row's figures onto the schedule and make it a draft. */
    method SetDraftAssetDeprScheduleDetails(asset: Asset, row: FinanceBookRow)
      modifies this`assetName, this`financeBook, this`financeBookId, this`grossPurchaseAmount,
        this`openingAccumulatedDepreciation, this`numberOfDepreciationsBooked, this`depreciationMethod,
        this`totalNumberOfDepreciations, this`frequencyOfDepreciation, this`rateOfDepreciation,
        this`expectedValueAfterUsefulLife, this`dailyProrataBased, this`status
      ensures DetailsCopied(asset, row)
    {
      assetName := asset.name;
      financeBook := row.financeBook;
      financeBookId := row.idx;
      openingAccumulatedDepreciation := asset.openingAccumulatedDepreciation;
      numberOfDepreciationsBooked := asset.numberOfDepreciationsBooked;
      grossPurchaseAmount := asset.grossPurchaseAmount;
      depreciationMethod := row.depreciationMethod;
      totalNumberOfDepreciations := row.totalNumberOfDepreciations;
      frequencyOfDepreciation := row.frequencyOfDepreciation;
      rateOfDepreciation := row.rateOfDepreciation;
      expectedValueAfterUsefulLife := row.expectedValueAfterUsefulLife;
      dailyProrataBased := row.dailyProrataBased;
      status := Draft;
    }

    /** `on_submit`. */
    method OnSubmit()
      modifies this`status
      ensures status == Active
    {
      status := Active;
    }

    /** `on_cancel`. */
    method OnCancel()
      modifies this`status
      ensures status == Cancelled
    {
      status := Cancelled;
    }

    /** `have_asset_details_been_modified`. */
    predicate HaveAssetDetailsBeenModified(asset: Asset)
      reads this
    {
      || asset.grossPurchaseAmount != grossPurchaseAmount
      || asset.openingAccumulatedDepreciation != openingAccumulatedDepreciation
      || asset.numberOfDepreciationsBooked != numberOfDepreciationsBooked
    }

    /** `not_manual_depr_or_have_manual_depr_details_been_modified`; reading
        the first row of an empty schedule is an error. */
    function NotManualDeprOrHaveManualDeprDetailsBeenModified(row: FinanceBookRow): (r: Result<bool, DeprError>)
      reads this
      ensures r.Failure? <==>
        && depreciationMethod == Manual
        && row.totalNumberOfDepreciations == totalNumberOfDepreciations
        && row.frequencyOfDepreciation == frequencyOfDepreciation
        && |rows| == 0
      ensures depreciationMethod != Manual ==> r == Success(true)
    {
      if depreciationMethod != Manual
        || row.totalNumberOfDepreciations != totalNumberOfDepreciations
        || row.frequencyOfDepreciation != frequencyOfDepreciation
      then Success(true)
      else if |rows| == 0 then Failure(NoFirstRow)
      else Success(row.depreciationStartDate != rows[0].scheduleDate
                   || row.expectedValueAfterUsefulLife != expectedValueAfterUsefulLife)
    }

    /** `should_prepare_depreciation_schedule`; `hasDocBeforeSave` says
        whether a saved version of the document exists. */
    predicate ShouldPrepareDepreciationSchedule(
      hasDocBeforeSave: bool, assetDetailsModified: bool, manualDetailsModified: bool)
      reads this
    {
      if |rows| == 0 then true
      else if docstatus != 0 && !hasDocBeforeSave then true
      else assetDetailsModified || manualDetailsModified
    }

    /** Only a Manual schedule whose details are all unchanged can be left
        as it is: every other schedule is rebuilt. */
    lemma OnlyUnchangedManualScheduleIsKept(asset: Asset, row: FinanceBookRow, hasDocBeforeSave: bool)
      requires NotManualDeprOrHaveManualDeprDetailsBeenModified(row).Success?
      ensures var manual := NotManualDeprOrHaveManualDeprDetailsBeenModified(row).value;
        !ShouldPrepareDepreciationSchedule(hasDocBeforeSave, HaveAssetDetailsBeenModified(asset), manual) ==>
          && |rows| > 0 && depreciationMethod == Manual
          && row.depreciationStartDate == rows[0].scheduleDate
          && row.totalNumberOfDepreciations == totalNumberOfDepreciations
          && row.frequencyOfDepreciation == frequencyOfDepreciation
          && row.expectedValueAfterUsefulLife == expectedValueAfterUsefulLife
          && asset.grossPurchaseAmount == grossPurchaseAmount
    {}

    /** `clear_depr_schedule`: keep the leading booked rows and return the
        index the schedule is rebuilt from. */
    method ClearDeprSchedule() returns (start: int)
      modifies this`rows
      ensures rows == BookedPrefix(old(rows))
      ensures start == ClearStart(old(rows))
    {
      start := 0;
      var completed := 0;
      var kept: seq<ScheduleRow> := [];
      var i := 0;
      while i < |rows|
        invariant 0 <= i <= |rows| && completed == i && kept == rows[..i] && start == 0
        invariant forall j :: 0 <= j < i ==> rows[j].journalEntry.Some?
      {
        if rows[i].journalEntry.Some? {
          completed := completed + 1;
          kept := kept + [rows[i]];
        } else {
          start := completed;
          break;
        }
        i := i + 1;
      }
      BookedPrefixUnique(rows, i);
      rows := kept;
    }

    /** `make_depr_schedule` with `_make_depr_schedule`: keep the booked
        prefix and append the remaining periods' rows. Returns the finance
        book row with its value after depreciation written. */
    method MakeDeprSchedule(asset: Asset, row: FinanceBookRow, dateOfDisposal: Option<Date>, valueAfterDepreciation: Option<real>)
      returns (r: Result<FinanceBookRow, DeprError>)
      modifies this`rows
      ensures var spec := MakeSchedule(asset, row, old(rows), openingAccumulatedDepreciation,
                                       numberOfDepreciationsBooked, dateOfDisposal, valueAfterDepreciation);
        && (r.Success? <==> spec.Success?)
        && (r.Success? ==> rows == spec.value.0 && r.value == spec.value.1)
    {
      if asset.availableForUseDate.None? {
        return Success(row);
      }
      var start := ClearDeprSchedule();

      var ctx := MakeContextOf(asset, row, openingAccumulatedDepreciation, numberOfDepreciationsBooked,
                               start, dateOfDisposal, valueAfterDepreciation);
      var done := RunPeriods(ctx, start);
      if done.Failure? {
        return Failure(done.error);
      }
      return Success(ctx.row);
    }

    /** The loop over period indices `start` to the final one, appending to
        the rows in place; a disposal ends it early. */
    method RunPeriods(ctx: MakeContext, start: int) returns (r: Result<(), DeprError>)
      requires ctx.asset.availableForUseDate.Some?
      modifies this`rows
      ensures var spec := RunLoop(ctx, start, LoopState(old(rows), ctx.row.valueAfterDepreciation, false, None));
        && (r.Success? <==> spec.Success?)
        && (r.Success? ==> rows == spec.value)
    {
      ghost var st0 := LoopState(rows, ctx.row.valueAfterDepreciation, false, None);
      var value := ctx.row.valueAfterDepreciation;
      var skipRow := false;
      var scheduleDate: Option<Date> := None;
      var n := start;
      while n < ctx.finalNumberOfDepreciations
        invariant RunLoop(ctx, n, LoopState(rows, value, skipRow, scheduleDate)) == RunLoop(ctx, start, st0)
        decreases ctx.finalNumberOfDepreciations - n
      {
        var step := Period(ctx, n, LoopState(rows, value, skipRow, scheduleDate));
        if step.Failure? {
          return Failure(step.error);
        }
        match step.value
        case Stop(rows') =>
          rows := rows';
          return Success(());
        case Next(st) =>
          rows, value, skipRow, scheduleDate := st.rows, st.valueAfterDepreciation, st.skipRow, st.scheduleDate;
        n := n + 1;
      }
      return Success(());
    }

    /** `set_accumulated_depreciation`: round each row's amount, give the
        last Straight Line / Manual row the residue, and write the running
        totals. */
    method SetAccumulatedDepreciation(valueAfterDepreciation: real, c: AccConfig)
      modifies this`rows
      ensures rows == AccPass(old(rows), 0, 0.0, valueAfterDepreciation, c)
    {
      var acc := 0.0;
      var vad := valueAfterDepreciation;
      var i := 0;
      while i < |rows|
        invariant 0 <= i <= |rows| && |rows| == |old(rows)|
        invariant AccPass(rows, i, acc, vad, c) == AccPass(old(rows), 0, 0.0, valueAfterDepreciation, c)
        decreases |rows| - i
      {
        var d := rows[i];
        if c.ignoreBookedEntry && d.journalEntry.Some? {
          i := i + 1;
          continue;
        }
        if acc == 0.0 {
          if i > 0 && c.decreaseInAssetValueDueToValueAdjustment {
            acc := rows[i - 1].accumulatedDepreciationAmount;
          } else {
            acc := c.openingAccumulatedDepreciation;
          }
        }
        var amount := Flt(d.depreciationAmount, c.amountPrecision);
        vad := vad - amount;
        if c.straightLineOrManual && |rows| > 0 && i == |rows| - 1 && !c.hasDisposalOrReturnDate {
          amount := amount + Flt(vad - c.expectedValueAfterUsefulLife, c.amountPrecision);
        }
        acc := acc + amount;
        rows := rows[i := d.(depreciationAmount := amount,
                             accumulatedDepreciationAmount := Flt(acc, c.accumulatedPrecision))];
        i := i + 1;
      }
    }

    /** `prepare_draft_asset_depr_schedule_data`: copy the asset's and the
        finance book row's figures, and when the schedule needs preparing,
        rebuild its rows and fill in their running totals. `hasDocBeforeSave`
        says whether a saved version of the document exists. */
    method PrepareDraftAssetDeprScheduleData(
      asset: Asset, row: FinanceBookRow, dateOfDisposal: Option<Date>, dateOfReturn: Option<Date>,
      hasDocBeforeSave: bool)
      returns (r: Result<(), DeprError>)
      modifies this`assetName, this`financeBook, this`financeBookId, this`grossPurchaseAmount,
        this`openingAccumulatedDepreciation, this`numberOfDepreciationsBooked, this`depreciationMethod,
        this`totalNumberOfDepreciations, this`frequencyOfDepreciation, this`rateOfDepreciation,
        this`expectedValueAfterUsefulLife, this`dailyProrataBased, this`status, this`rows
      ensures old(NotManualDeprOrHaveManualDeprDetailsBeenModified(row)).Failure? ==> r.Failure? && unchanged(this)
      ensures old(NotManualDeprOrHaveManualDeprDetailsBeenModified(row)).Success? ==> DetailsCopied(asset, row)
      ensures r.Success? ==>
        var prepare := old(ShouldPrepareDepreciationSchedule(hasDocBeforeSave, HaveAssetDetailsBeenModified(asset),
                                                              NotManualDeprOrHaveManualDeprDetailsBeenModified(row).value));
        var made := MakeSchedule(asset, row, old(rows), asset.openingAccumulatedDepreciation,
                                 asset.numberOfDepreciationsBooked, dateOfDisposal, None);
        && (!prepare ==> rows == old(rows))
        && (prepare ==>
              && made.Success?
              && rows == AccPass(made.value.0, 0, 0.0, made.value.1.valueAfterDepreciation,
                                 AccConfigOf(asset, row, dateOfDisposal, dateOfReturn)))
    {
      var assetDetailsModified := HaveAssetDetailsBeenModified(asset);
      var manualDetailsModified := NotManualDeprOrHaveManualDeprDetailsBeenModified(row);
      if manualDetailsModified.Failure? {
        return Failure(manualDetailsModified.error);
      }
      var prepare := ShouldPrepareDepreciationSchedule(hasDocBeforeSave, assetDetailsModified, manualDetailsModified.value);
      SetDraftAssetDeprScheduleDetails(asset, row);
      if prepare {
        var made := MakeDeprSchedule(asset, row, dateOfDisposal, None);
        if made.Failure? {
          return Failure(made.error);
        }
        SetAccumulatedDepreciation(made.value.valueAfterDepreciation, AccConfigOf(asset, row, dateOfDisposal, dateOfReturn));
      }
      return Success(());
    }
  }

  /** What `set_accumulated_depreciation` reads when it runs right after the
      schedule is rebuilt: the method of the finance book row, the asset's
      opening depreciation, precision and value-adjustment flag, and whether
      a disposal or return date is given. */
  function AccConfigOf(asset: Asset, row: FinanceBookRow, dateOfDisposal: Option<Date>, dateOfReturn: Option<Date>)
    : (c: AccConfig)
    ensures c.hasDisposalOrReturnDate <==> dateOfDisposal.Some? || dateOfReturn.Some?
    ensures c.straightLineOrManual <==> IsStraightLineOrManual(row.depreciationMethod)
    ensures !c.ignoreBookedEntry
  {
    AccConfig(IsStraightLineOrManual(row.depreciationMethod), asset.openingAccumulatedDepreciation,
              asset.decreaseInAssetValueDueToValueAdjustment, dateOfDisposal.Some? || dateOfReturn.Some?,
              false, row.expectedValueAfterUsefulLife, asset.precision, asset.precision)
  }
}
