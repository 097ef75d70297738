# Asset depreciation schedules and related document rules, in Dafny

This project models the rule logic of several ERPNext, HRMS and Frappe documents and proves properties of it. Every entity is modelled in the form its Python source has.

The centre is the **Asset Depreciation Schedule** engine. Given an asset and one of its finance book rows, it does four things:
- It keeps the leading rows that already carry a journal entry (`clear_depr_schedule`).
- It appends one row per remaining period (`_make_depr_schedule`):
  - Each period's amount follows the Straight Line, Manual, Written Down Value or Double Declining Balance formula.
  - The first period, the last period and a disposal period are pro-rated.
  - A disposal, or reaching the expected value after useful life, stops the schedule.
- It fills in running totals (`set_accumulated_depreciation`). A Straight Line or Manual schedule puts its rounding residue into the last row.
- It moves a schedule from Draft to Active to Cancelled, with at most one live schedule per asset and finance book.

The pure formulas are functions (`depreciation_amounts.dfy`, `schedule_generator.dfy`). The document is a class whose methods rebuild its rows in place (`schedule_document.dfy`). Each method is proved equal to the function that specifies it, and the properties are proved about those functions (`depreciation_schedule.dfy`, `schedule_generator.dfy`).

The smaller rule sets are:
- shift timings, the overlap test and the choice of the shift a timestamp falls in (`shift_assignment.dfy`);
- the Subcontracting Receipt cost roll-up and row checks (`subcontracting_receipt.dfy`);
- the BOM Creator tree: sub-assembly marking, parent links and the recursive raw-material cost (`bom_creator.dfy`);
- Workflow transition checks and document-status bookkeeping (`workflow.dfy`);
- Role guards and desk settings (`role.dfy`);
- two string helpers of the database layer (`database_utils.dfy`).

These conventions hold throughout:
- A Python exception becomes a `Failure`/`Fail` value (`wrappers.dfy`).
- Amounts are exact reals.
- `flt(x, p)` is decimal rounding with halves to even (`rounding.dfy`).
- Dates are proleptic Gregorian dates with a day ordinal (`calendar.dfy`).
- Shift times are whole minutes.

## Model

| member | source | states |
|---|---|---|
| DepreciationSchedule.BookedPrefix | erpnext/erpnext/assets/doctype/asset_depreciation_schedule/asset_depreciation_schedule.py:179-192 | the kept rows are a prefix of the schedule, all of them booked, and the first row after them (if any) is unbooked |
| DepreciationSchedule.BookedPrefixUnique | erpnext/erpnext/assets/doctype/asset_depreciation_schedule/asset_depreciation_schedule.py:184-190 | any booked prefix that ends the list or stops at an unbooked row is exactly the kept prefix |
| ScheduleDocument.AssetDepreciationSchedule.ClearDeprSchedule | erpnext/erpnext/assets/doctype/asset_depreciation_schedule/asset_depreciation_schedule.py:179-194 | the rows become the booked prefix; the result is its length when an unbooked row follows, and 0 when all rows are booked or there are none |
| DepreciationAmounts.PeriodStart | erpnext/erpnext/assets/doctype/asset_depreciation_schedule/asset_depreciation_schedule.py:520-524 | the period start lies exactly `frequency` months before the date; when the date is a month end, the start is its month's last day, and otherwise it keeps the date's day, clamped to the length of its month |
| DepreciationAmounts.TotalDays | erpnext/erpnext/assets/doctype/asset_depreciation_schedule/asset_depreciation_schedule.py:520-526 | the day count from the period start to the date, positive for a positive frequency |
| DepreciationAmounts.PeriodStartBefore | erpnext/erpnext/assets/doctype/asset_depreciation_schedule/asset_depreciation_schedule.py:520-526 | for a positive frequency the period start is strictly before the date |
| DepreciationAmounts.Share | erpnext/erpnext/assets/doctype/asset_depreciation_schedule/asset_depreciation_schedule.py:517 | the share times the total days equals the amount times the days |
| DepreciationAmounts.ShareWhole | erpnext/erpnext/assets/doctype/asset_depreciation_schedule/asset_depreciation_schedule.py:517 | all the days of a period earn the whole amount |
| DepreciationAmounts.ShareBounds | erpnext/erpnext/assets/doctype/asset_depreciation_schedule/asset_depreciation_schedule.py:517 | part of a period earns between zero and the whole of a non-negative amount |
| DepreciationAmounts.GetProRataAmt | erpnext/erpnext/assets/doctype/asset_depreciation_schedule/asset_depreciation_schedule.py:507-517 | fails exactly when the period has no days; otherwise days = date_diff(to, from), months = month_diff(to, from), and amount × total days = amount × days, with the period 12 months long in the non-yearly WDV/DDB case |
| DepreciationAmounts.FullPeriodProRata | erpnext/erpnext/assets/doctype/asset_depreciation_schedule/asset_depreciation_schedule.py:507-526 | a share from the period start to its end is the whole amount |
| DepreciationAmounts.ProRataWithinAmount | erpnext/erpnext/assets/doctype/asset_depreciation_schedule/asset_depreciation_schedule.py:507-526 | a share of at most one period of a non-negative amount lies between zero and the amount |
| DepreciationAmounts.ModifiedAvailableForUseDate | erpnext/erpnext/assets/doctype/asset_depreciation_schedule/asset_depreciation_schedule.py:494-504 | the available-for-use date moved forward by booked × frequency months (booked × 12 in the non-yearly WDV/DDB case) |
| DepreciationAmounts.CheckIsProRata | erpnext/erpnext/assets/doctype/asset_depreciation_schedule/asset_depreciation_schedule.py:473-491 | the first period is pro-rated iff the modified available-for-use date is more than one day after the start of the full period ending on the depreciation start date |
| DepreciationAmounts.GetWdvOrDdDeprAmount | erpnext/erpnext/assets/doctype/asset_depreciation_schedule/asset_depreciation_schedule.py:658-684 | a yearly frequency gives value × rate / 100, and so does index 0 of the pro-rata variant; a zero frequency otherwise fails (division by zero); every result is the previous amount or one of the two formulas |
| DepreciationAmounts.WdvRebasingCadence | erpnext/erpnext/assets/doctype/asset_depreciation_schedule/asset_depreciation_schedule.py:666-684 | for a frequency dividing 12, the amount is value × freq × rate / 1200 exactly at indices ≡ 0 mod 12/freq (≡ 1 in the pro-rata variant), and the previous amount at every other index |
| DepreciationAmounts.RebasedAmountIsAnnualShare | erpnext/erpnext/assets/doctype/asset_depreciation_schedule/asset_depreciation_schedule.py:679-682 | the re-based period amount, once for every period of the year, adds up to value × rate / 100 |
| DepreciationAmounts.Spread | erpnext/erpnext/assets/doctype/asset_depreciation_schedule/asset_depreciation_schedule.py:615-618 | fails iff dividing by zero; otherwise the result times the divisor is the value |
| DepreciationAmounts.DaysCountedFromNextDay | erpnext/erpnext/assets/doctype/asset_depreciation_schedule/asset_depreciation_schedule.py:639-649 | the days of a period, and of a span of periods, are date_diff(to_date, from_date) + 1 with from_date the day after the previous period's month end |
| DepreciationAmounts.GetStraightLineOrManualDeprAmount | erpnext/erpnext/assets/doctype/asset_depreciation_schedule/asset_depreciation_schedule.py:561-655 | the branch taken follows the source's flag order: an asset-life increase fails only for a zero-day life, and otherwise its amount times the remaining life in years (days / 365) is the residual value; a repair splits over the total; a value-adjustment decrease splits over the pending periods; a first-time schedule splits over total − booked; the daily variants pay the daily rate times the period's inclusive days, at the corrected daily rate (see Left out and Findings) |
| DepreciationAmounts.StraightLineIsLevel | erpnext/erpnext/assets/doctype/asset_depreciation_schedule/asset_depreciation_schedule.py:650-655 | first-time Straight Line without the daily flag pays the same amount at every index, and that amount times (total − booked) is gross − opening − residual |
| DepreciationAmounts.DaysInPeriodsTelescope | erpnext/erpnext/assets/doctype/asset_depreciation_schedule/asset_depreciation_schedule.py:639-649 | the inclusive day counts of consecutive periods add up to the days of their span |
| DepreciationAmounts.SumAtRate | erpnext/erpnext/assets/doctype/asset_depreciation_schedule/asset_depreciation_schedule.py:649 | at any daily rate, the period amounts of a span add up to the rate times the days of the span |
| DepreciationAmounts.DailyAmountsSumToValue | erpnext/erpnext/assets/doctype/asset_depreciation_schedule/asset_depreciation_schedule.py:621-649 | with the divisor counting every day of the span, the daily pro-rata amounts of all periods add up exactly to the depreciable value |
| DepreciationAmounts.DailyAmountsAsWrittenOvershoot | erpnext/erpnext/assets/doctype/asset_depreciation_schedule/asset_depreciation_schedule.py:622-637 | with the divisor as written (date_diff without + 1), the amounts add up to the value plus one more day's amount |
| DepreciationAmounts.YearRowDays | erpnext/erpnext/assets/doctype/asset_depreciation_schedule/asset_depreciation_schedule.py:639-649 | twelve monthly periods starting at January 31 cover the 365 or 366 days of the year |
| DepreciationAmounts.DailyRateAsWrittenCounterexample | erpnext/erpnext/assets/doctype/asset_depreciation_schedule/asset_depreciation_schedule.py:622-637 | in a leap year, a value of 366 gets a daily rate of 366/365 and the twelve amounts add up to 366 + 366/365 |
| DepreciationAmounts.GetDepreciationAmount | erpnext/erpnext/assets/doctype/asset_depreciation_schedule/asset_depreciation_schedule.py:529-558 | Straight Line and Manual use their formula; the other methods use the WDV/DDB formula with the book's own rate (the regional hook returns it unchanged) |
| DepreciationAmounts.ValueAfterDepreciationForMakingSchedule | erpnext/erpnext/assets/doctype/asset_depreciation_schedule/asset_depreciation_schedule.py:461-469 | a submitted asset with a value on its book row uses that value; otherwise gross − opening accumulated depreciation |
| ScheduleGenerator.GetAdjustedDepreciationAmount | erpnext/erpnext/assets/doctype/asset_depreciation_schedule/asset_depreciation_schedule.py:378-395 | with opening depreciation the pro-rated amount is returned unchanged; without it the first row plus the result is the un-pro-rated amount, and an empty schedule fails (reading row 0) |
| ScheduleGenerator.MakeContextOf | erpnext/erpnext/assets/doctype/asset_depreciation_schedule/asset_depreciation_schedule.py:205-236 | the loop bound is total − booked, plus one when pro-rated; the pending count is bound − start; the non-yearly WDV/DDB flag only arises for WDV/DDB with a frequency other than 12 |
| ScheduleGenerator.ScheduleDateAt | erpnext/erpnext/assets/doctype/asset_depreciation_schedule/asset_depreciation_schedule.py:258-266 | the date of period n lies n × frequency months after the start date, and is a month end when the start date is |
| ScheduleGenerator.DisposalRows | erpnext/erpnext/assets/doctype/asset_depreciation_schedule/asset_depreciation_schedule.py:268-290 | the disposal branch appends at most one row, dated the disposal date, unbooked, with a positive amount |
| ScheduleGenerator.BoundaryAmount | erpnext/erpnext/assets/doctype/asset_depreciation_schedule/asset_depreciation_schedule.py:292-352 | the last period can only lack a schedule date when none was ever set, which is an error (the source's unbound local) |
| ScheduleGenerator.Settle | erpnext/erpnext/assets/doctype/asset_depreciation_schedule/asset_depreciation_schedule.py:354-375 | the value drops by the rounded amount, and at most one unbooked row is appended, whose rounded amount is positive |
| ScheduleGenerator.SettleLandsOnResidual | erpnext/erpnext/assets/doctype/asset_depreciation_schedule/asset_depreciation_schedule.py:360-369 | a row settled against the expected value after useful life leaves the value within half a rounding unit of it |
| ScheduleGenerator.PeriodRowContent | erpnext/erpnext/assets/doctype/asset_depreciation_schedule/asset_depreciation_schedule.py:238-375 | without disposal, a period that does not skip takes the method's amount for its index (with the previous row's amount), pro-rated on the first and last index; a zero amount only rebinds the date; otherwise the value drops by the rounded amount, the residual test sets the skip flag and settles the amount, and one row dated the bound schedule date with the settled amount is appended exactly when that amount rounds to a positive one; a period strictly between the first and the last keeps the method's amount and its nominal date |
| ScheduleGenerator.Iterate | erpnext/erpnext/assets/doctype/asset_depreciation_schedule/asset_depreciation_schedule.py:238-375 | a skipped state stays skipped and appends nothing; a disposal stops the loop after at most one new row; every other step appends at most one valid row; the content of the appended row is stated by PeriodRowContent |
| ScheduleGenerator.SkipRowEndsSchedule | erpnext/erpnext/assets/doctype/asset_depreciation_schedule/asset_depreciation_schedule.py:239-241 | once the expected residual value is reached, the rest of the loop appends nothing |
| ScheduleGenerator.RunLoopExtends | erpnext/erpnext/assets/doctype/asset_depreciation_schedule/asset_depreciation_schedule.py:238-375 | the loop keeps the rows it starts with, in order; every added row is unbooked with a positive amount, positive after rounding when there is no disposal |
| ScheduleGenerator.DisposalAddsAtMostOneRow | erpnext/erpnext/assets/doctype/asset_depreciation_schedule/asset_depreciation_schedule.py:269-290 | with a disposal date the whole loop adds at most one row, dated the disposal date |
| ScheduleGenerator.MakeScheduleKeepsBookedRows | erpnext/erpnext/assets/doctype/asset_depreciation_schedule/asset_depreciation_schedule.py:159-194 | regeneration keeps the booked prefix unchanged and in order, and appends only unbooked rows with positive amounts (at most one, on the disposal date, when disposed) |
| ScheduleDocument.AssetDepreciationSchedule.MakeDeprSchedule | erpnext/erpnext/assets/doctype/asset_depreciation_schedule/asset_depreciation_schedule.py:159-177 | the rows rebuilt in place are those of the MakeSchedule specification, and the method fails exactly when it does |
| ScheduleDocument.AssetDepreciationSchedule.RunPeriods | erpnext/erpnext/assets/doctype/asset_depreciation_schedule/asset_depreciation_schedule.py:238-375 | the in-place loop leaves the rows RunLoop specifies, and fails exactly when it does |
| DepreciationSchedule.AccPassKeepsRows | erpnext/erpnext/assets/doctype/asset_depreciation_schedule/asset_depreciation_schedule.py:427-458 | the pass keeps every row's date and journal entry, and every booked row it is told to skip |
| DepreciationSchedule.AccumulatedIsRunningTotal | erpnext/erpnext/assets/doctype/asset_depreciation_schedule/asset_depreciation_schedule.py:424-458 | with no skipped rows, a non-negative opening amount (positive under a value-adjustment decrease) and non-negative amounts, every row's accumulated amount is the opening amount plus the amounts up to and including that row, rounded |
| DepreciationSchedule.AccumulatedStartsFromBase | erpnext/erpnext/assets/doctype/asset_depreciation_schedule/asset_depreciation_schedule.py:427-458 | when booked rows are skipped, they are kept as they are, and the running total of the first processed row starts from the previous row's accumulated amount under a value-adjustment decrease, and from the opening amount otherwise; every later row's accumulated amount is that start plus the amounts from the first processed row up to and including it, rounded |
| DepreciationSchedule.ResidueClosesSchedule | erpnext/erpnext/assets/doctype/asset_depreciation_schedule/asset_depreciation_schedule.py:418-452 | Straight Line / Manual without disposal or return: the amounts add up to value_after_depreciation − expected_value_after_useful_life, within half a rounding unit |
| ScheduleDocument.AssetDepreciationSchedule.SetAccumulatedDepreciation | erpnext/erpnext/assets/doctype/asset_depreciation_schedule/asset_depreciation_schedule.py:410-458 | the rows after the loop are AccPass of the old rows, so the running-total and residue lemmas apply to them |
| ScheduleDocument.AccConfigOf | erpnext/erpnext/assets/doctype/asset_depreciation_schedule/asset_depreciation_schedule.py:418-448 | the residue row is taken only for Straight Line / Manual without a disposal or return date, and booked rows are not skipped (the call at line 110 passes no flag to ignore them) |
| ScheduleDocument.AssetDepreciationSchedule.SetDraftAssetDeprScheduleDetails | erpnext/erpnext/assets/doctype/asset_depreciation_schedule/asset_depreciation_schedule.py:144-157 | DetailsCopied: the document links the asset by name and the finance book row by its idx, copies the asset's opening depreciation, booked count and gross purchase amount and the book row's method, counts, frequency, rate, expected value and daily pro-rata flag, and becomes Draft; no other field changes |
| ScheduleDocument.AssetDepreciationSchedule.NotManualDeprOrHaveManualDeprDetailsBeenModified | erpnext/erpnext/assets/doctype/asset_depreciation_schedule/asset_depreciation_schedule.py:119-126 | true for any non-Manual schedule; fails exactly when the comparison reaches the first row of an empty Manual schedule |
| ScheduleDocument.AssetDepreciationSchedule.OnlyUnchangedManualScheduleIsKept | erpnext/erpnext/assets/doctype/asset_depreciation_schedule/asset_depreciation_schedule.py:128-142 | a schedule is left unprepared only if it is a non-empty Manual schedule whose details all match |
| ScheduleDocument.AssetDepreciationSchedule.PrepareDraftAssetDeprScheduleData | erpnext/erpnext/assets/doctype/asset_depreciation_schedule/asset_depreciation_schedule.py:91-110 | an empty Manual schedule that reaches the first-row comparison fails and leaves the document unchanged; otherwise the details are copied (DetailsCopied); without preparation the rows are unchanged, with it they are the rebuilt schedule passed through the running-total pass; docstatus is never touched |
| ScheduleDocument.AssetDepreciationSchedule.OnSubmit | erpnext/erpnext/assets/doctype/asset_depreciation_schedule/asset_depreciation_schedule.py:61-62 | the status becomes Active |
| ScheduleDocument.AssetDepreciationSchedule.OnCancel | erpnext/erpnext/assets/doctype/asset_depreciation_schedule/asset_depreciation_schedule.py:73-74 | the status becomes Cancelled |
| ScheduleLifecycle.ExistingSchedule | erpnext/erpnext/assets/doctype/asset_depreciation_schedule/asset_depreciation_schedule.py:34-45 | None iff no draft or submitted schedule exists for the asset and finance book; otherwise the name of one |
| ScheduleLifecycle.ValidateAnotherAssetDeprScheduleDoesNotExist | erpnext/erpnext/assets/doctype/asset_depreciation_schedule/asset_depreciation_schedule.py:33-59 | fails only when a live schedule exists for the pair, and passes when every such schedule is the document itself |
| ScheduleLifecycle.InsertDraft | erpnext/erpnext/assets/doctype/asset_depreciation_schedule/asset_depreciation_schedule.py:30-59 | a draft is stored iff validation passes, appended with status Draft |
| ScheduleLifecycle.Submit | erpnext/erpnext/assets/doctype/asset_depreciation_schedule/asset_depreciation_schedule.py:61-62 | only a draft can be submitted; it gets docstatus 1 and status Active, and nothing else changes |
| ScheduleLifecycle.Cancel | erpnext/erpnext/assets/doctype/asset_depreciation_schedule/asset_depreciation_schedule.py:73-74 | only a submitted schedule can be cancelled; it gets docstatus 2 and status Cancelled, and nothing else changes |
| ScheduleLifecycle.InsertDraftKeepsConsistent | erpnext/erpnext/assets/doctype/asset_depreciation_schedule/asset_depreciation_schedule.py:33-59 | storing a validated draft keeps at most one live schedule per asset and finance book |
| ScheduleLifecycle.SubmitKeepsConsistent | erpnext/erpnext/assets/doctype/asset_depreciation_schedule/asset_depreciation_schedule.py:61-62 | submitting keeps the collection consistent |
| ScheduleLifecycle.CancelKeepsConsistent | erpnext/erpnext/assets/doctype/asset_depreciation_schedule/asset_depreciation_schedule.py:73-74 | cancelling keeps the collection consistent and frees the asset and finance book for a new schedule |
| ScheduleLifecycle.CancelledIsFinal | erpnext/erpnext/assets/doctype/asset_depreciation_schedule/asset_depreciation_schedule.py:61-74 | a cancelled schedule can be neither submitted nor cancelled again |
| Rounding.Flt | erpnext/erpnext/assets/doctype/asset_depreciation_schedule/asset_depreciation_schedule.py:356-358 | the rounded value lies within half a unit of the last decimal place of the value |
| Rounding.FltPositive | erpnext/erpnext/assets/doctype/asset_depreciation_schedule/asset_depreciation_schedule.py:371-375 | a positive rounded amount comes from a positive amount, so appended rows have positive amounts |
| ShiftAssignment.HasOverlappingTimings | hrms/hrms/hr/doctype/shift_assignment/shift_assignment.py:94-116 | equal names overlap without a lookup; otherwise the result is the six-clause condition; an unknown shift type fails |
| ShiftAssignment.TimingsOverlapSymmetric | hrms/hrms/hr/doctype/shift_assignment/shift_assignment.py:104-114 | the six-clause condition gives the same result with the shifts swapped |
| ShiftAssignment.HasOverlappingTimingsSymmetric | hrms/hrms/hr/doctype/shift_assignment/shift_assignment.py:94-116 | has_overlapping_timings gives the same answer with its arguments swapped |
| ShiftAssignment.SameDayTimingsOverlap | hrms/hrms/hr/doctype/shift_assignment/shift_assignment.py:109-110 | for two shifts that each stay within one day, the condition is ordinary interval overlap |
| ShiftAssignment.GetShiftTimings | hrms/hrms/hr/doctype/shift_assignment/shift_assignment.py:569-624 | start and end carry the shift's times of day; an overnight shift ends the day after it starts and any other shift on the same day; the start day is the timestamp's day, the day before or the day after |
| ShiftAssignment.GetShiftDetails | hrms/hrms/hr/doctype/shift_assignment/shift_assignment.py:518-551 | an empty name gives empty details; otherwise actual start = start − check-in margin and actual end = end + check-out margin |
| ShiftAssignment.WindowContainsShift | hrms/hrms/hr/doctype/shift_assignment/shift_assignment.py:538-541 | with non-negative margins the check-in window contains the scheduled shift |
| ShiftAssignment.AssignmentPeriodBounds | hrms/hrms/hr/doctype/shift_assignment/shift_assignment.py:219-285 | a non-midnight window opening before the assignment is outside; one opening after the end date is outside; an open-ended assignment never rejects on the end side |
| ShiftAssignment.AdjustedSeparatesWindows | hrms/hrms/hr/doctype/shift_assignment/shift_assignment.py:293-307 | after trimming, the length and entries are kept, windows only narrow, and each next window opens no earlier than the previous shift's end and after the previous window closes |
| ShiftAssignment.AdjustOverlappingShifts | hrms/hrms/hr/doctype/shift_assignment/shift_assignment.py:293-307 | the in-place loop over the array leaves exactly the trimmed list |
| ShiftAssignment.GetExactShift | hrms/hrms/hr/doctype/shift_assignment/shift_assignment.py:505-515 | the first present shift whose window contains the timestamp (inclusive at both ends), or none iff no present shift contains it |
| ShiftAssignment.Screen | hrms/hrms/hr/doctype/shift_assignment/shift_assignment.py:204-211 | a kept shift lies inside its assignment period and contains the timestamp |
| ShiftAssignment.ValidShifts | hrms/hrms/hr/doctype/shift_assignment/shift_assignment.py:202-211 | every candidate contains the timestamp and lies inside some assignment's period |
| ShiftAssignment.SortByActualStart | hrms/hrms/hr/doctype/shift_assignment/shift_assignment.py:213 | the candidates sorted by window opening, a permutation of the input |
| ShiftAssignment.SortKeepsOpeningOrder | hrms/hrms/hr/doctype/shift_assignment/shift_assignment.py:213 | the sort is stable, as Python's `sorted` is: the shifts with the same opening keep their assignment order |
| ShiftAssignment.ShiftForTimeIsCandidate | hrms/hrms/hr/doctype/shift_assignment/shift_assignment.py:200-216 | the chosen shift contains the timestamp and is one of the candidates, with its window possibly narrowed |
| ShiftAssignment.GetShiftForTime | hrms/hrms/hr/doctype/shift_assignment/shift_assignment.py:200-216 | the loop, sort, trim and pick give the specified result |
| ShiftAssignment.CollectValidShifts | hrms/hrms/hr/doctype/shift_assignment/shift_assignment.py:202-211 | the screening loop yields the candidates ValidShifts specifies, in order, or its first failure |
| ShiftAssignment.PrefixFailurePropagates | hrms/hrms/hr/doctype/shift_assignment/shift_assignment.py:204-205 | a failing lookup for an early assignment is the failure of the whole call |
| SubcontractingReceipt.CostMapSumsPerReference | erpnext/erpnext/subcontracting/doctype/subcontracting_receipt/subcontracting_receipt.py:246-262 | the cost map has an entry exactly for the references that occur, holding the sum of their amounts |
| SubcontractingReceipt.WithAmounts | erpnext/erpnext/subcontracting/doctype/subcontracting_receipt/subcontracting_receipt.py:246-249 | each supplied row's amount becomes consumed_qty × rate, and nothing else changes |
| SubcontractingReceipt.ScrapPriced | erpnext/erpnext/subcontracting/doctype/subcontracting_receipt/subcontracting_receipt.py:254-259 | each scrap row's amount becomes qty × rate; other rows are unchanged |
| SubcontractingReceipt.FinishedGoodRate | erpnext/erpnext/subcontracting/doctype/subcontracting_receipt/subcontracting_receipt.py:265-284 | a finished good with quantity gets rate = rm cost/qty + service cost + additional cost − scrap cost/qty, with scrap cost 0 when no scrap refers to it |
| SubcontractingReceipt.RowAmount | erpnext/erpnext/subcontracting/doctype/subcontracting_receipt/subcontracting_receipt.py:286-289 | every row keeps its quantity and gets amount = qty × rate |
| SubcontractingReceipt.ScrapRowAmount | erpnext/erpnext/subcontracting/doctype/subcontracting_receipt/subcontracting_receipt.py:254-289 | a scrap row keeps its rate and gets amount = qty × rate |
| SubcontractingReceipt.TotalsCoverAllRows | erpnext/erpnext/subcontracting/doctype/subcontracting_receipt/subcontracting_receipt.py:264-293 | total_qty is the sum of qty over all rows, scrap included, and total is the sum of the new amounts |
| SubcontractingReceipt.PricedAgainstFullMaps | erpnext/erpnext/subcontracting/doctype/subcontracting_receipt/subcontracting_receipt.py:276-284 | with distinct row names, popping earlier rows' map entries never changes how a later row is priced |
| SubcontractingReceipt.Receipt.CalculateItemsQtyAndAmount | erpnext/erpnext/subcontracting/doctype/subcontracting_receipt/subcontracting_receipt.py:244-293 | rows, supplied rows and totals after the three loops equal the Calculated specification |
| SubcontractingReceipt.Receipt.RollUpSuppliedItems | erpnext/erpnext/subcontracting/doctype/subcontracting_receipt/subcontracting_receipt.py:246-252 | supplied rows get their amounts, and the map is the per-reference raw-material cost |
| SubcontractingReceipt.Receipt.RollUpScrapItems | erpnext/erpnext/subcontracting/doctype/subcontracting_receipt/subcontracting_receipt.py:254-262 | scrap rows get their amounts, and the map is the per-reference scrap cost |
| SubcontractingReceipt.Receipt.PriceRows | erpnext/erpnext/subcontracting/doctype/subcontracting_receipt/subcontracting_receipt.py:264-293 | rows priced in order with the maps popped as in the source; totals are the sums of qty and amount |
| SubcontractingReceipt.ValidateItemsQty | erpnext/erpnext/subcontracting/doctype/subcontracting_receipt/subcontracting_receipt.py:106-111 | passes iff every row has a nonzero qty or rejected qty; the error names an offending row |
| SubcontractingReceipt.ValidateScrapItems | erpnext/erpnext/subcontracting/doctype/subcontracting_receipt/subcontracting_receipt.py:295-315 | passes iff no scrap row has zero qty, a rejected qty or no reference; the error is an offending row's first complaint |
| SubcontractingReceipt.AcceptedWarehouse | erpnext/erpnext/subcontracting/doctype/subcontracting_receipt/subcontracting_receipt.py:317-332 | an accepted row without a warehouse takes set_warehouse, or fails when that is unset; equal accepted and rejected warehouses fail |
| SubcontractingReceipt.AcceptedRowsHaveWarehouse | erpnext/erpnext/subcontracting/doctype/subcontracting_receipt/subcontracting_receipt.py:319-332 | after a passing check a row with quantity has a warehouse different from its rejected warehouse |
| SubcontractingReceipt.Receipt.ValidateAcceptedWarehouse | erpnext/erpnext/subcontracting/doctype/subcontracting_receipt/subcontracting_receipt.py:317-332 | passes iff every row passes; then every row is filled in; a failure names the first failing row, which keeps the default warehouse written into it before the comparison, the rows before it are filled in and the rows after it are untouched |
| SubcontractingReceipt.ValidateAvailableQtyForConsumption | erpnext/erpnext/subcontracting/doctype/subcontracting_receipt/subcontracting_receipt.py:334-346 | passes iff no supplied row consumes more than its available quantity |
| SubcontractingReceipt.WithoutScrapKeepsFinishedGoods | erpnext/erpnext/subcontracting/doctype/subcontracting_receipt/subcontracting_receipt.py:198-203 | no scrap row survives; every other row survives with scrap cost per qty reset to 0 |
| SubcontractingReceipt.Receipt.RemoveScrapItems | erpnext/erpnext/subcontracting/doctype/subcontracting_receipt/subcontracting_receipt.py:198-203 | the rows become WithoutScrap of the old rows |
| BomCreator.ValidateItems | erpnext/erpnext/manufacturing/doctype/bom_creator/bom_creator.py:45-48 | passes iff no expandable row has the document's item code |
| BomCreator.StatusFor | erpnext/erpnext/manufacturing/doctype/bom_creator/bom_creator.py:50-77 | docstatus 0/1/2 give Draft/Submitted/Cancelled, any other fails; Completed iff docstatus 1, every sub-assembly has its BOM and the document's BOM exists |
| BomCreator.BOMCreator.SetStatus | erpnext/erpnext/manufacturing/doctype/bom_creator/bom_creator.py:50-59 | the status set is the one StatusFor gives |
| BomCreator.BOMCreator.SetStatusCompleted | erpnext/erpnext/manufacturing/doctype/bom_creator/bom_creator.py:61-77 | the status becomes Completed exactly under StatusFor's condition, and is unchanged otherwise |
| BomCreator.FgItems | erpnext/erpnext/manufacturing/doctype/bom_creator/bom_creator.py:146 | holds exactly the finished goods named by some row that differ from the document's item |
| BomCreator.MarkedExpandable | erpnext/erpnext/manufacturing/doctype/bom_creator/bom_creator.py:145-150 | a row is expandable iff its item code is one of those finished goods; nothing else changes |
| BomCreator.MarkedExpandableIsValid | erpnext/erpnext/manufacturing/doctype/bom_creator/bom_creator.py:145-150 | after marking, validate_items (lines 45-48) passes |
| BomCreator.BOMCreator.SetIsExpandable | erpnext/erpnext/manufacturing/doctype/bom_creator/bom_creator.py:145-150 | the rows become MarkedExpandable of the old rows |
| BomCreator.UnitConversion | erpnext/erpnext/manufacturing/doctype/bom_creator/bom_creator.py:82-84 | every row's conversion factor becomes 1.0 and nothing else changes |
| BomCreator.BOMCreator.SetConversionFactor | erpnext/erpnext/manufacturing/doctype/bom_creator/bom_creator.py:82-84 | the rows become UnitConversion of the old rows |
| BomCreator.ParentReference | erpnext/erpnext/manufacturing/doctype/bom_creator/bom_creator.py:91 | the map's keys are exactly the rows' idx values |
| BomCreator.ParentReferenceIsLastRow | erpnext/erpnext/manufacturing/doctype/bom_creator/bom_creator.py:91 | a repeated idx maps to the name of its last row |
| BomCreator.ReferencesSet | erpnext/erpnext/manufacturing/doctype/bom_creator/bom_creator.py:90-98 | only fg_reference_id changes; rows with a reference or no parent row number are unchanged |
| BomCreator.UnknownParentLeavesLinkUnset | erpnext/erpnext/manufacturing/doctype/bom_creator/bom_creator.py:93-98 | a parent row number that no row carries leaves the reference unset |
| BomCreator.ReferenceLinksParentRow | erpnext/erpnext/manufacturing/doctype/bom_creator/bom_creator.py:93-98 | with distinct idx values, an unlinked row gets the name of the row whose idx is its parent row number |
| BomCreator.BOMCreator.SetReferenceId | erpnext/erpnext/manufacturing/doctype/bom_creator/bom_creator.py:90-98 | the rows become ReferencesSet of the old rows |
| BomCreator.Visit | erpnext/erpnext/manufacturing/doctype/bom_creator/bom_creator.py:111-143 | the stateful roll-up changes only rates and amounts |
| BomCreator.VisitReturnsCost | erpnext/erpnext/manufacturing/doctype/bom_creator/bom_creator.py:111-143 | the roll-up returns the accumulator plus the pure cost of the rows referring to the id, and fails exactly when that cost does |
| BomCreator.CostKeepsShape | erpnext/erpnext/manufacturing/doctype/bom_creator/bom_creator.py:115-139 | the cost depends only on what the roll-up never writes |
| BomCreator.RowCostOfLeaf | erpnext/erpnext/manufacturing/doctype/bom_creator/bom_creator.py:119-134 | a non-expandable row costs the looked-up rate × qty |
| BomCreator.RowCostOfSubAssembly | erpnext/erpnext/manufacturing/doctype/bom_creator/bom_creator.py:136-139 | an expandable row costs its children's roll-up, and fails on a zero qty × conversion factor |
| BomCreator.VisitFrame | erpnext/erpnext/manufacturing/doctype/bom_creator/bom_creator.py:115-117 | rows the roll-up never reaches are unchanged |
| BomCreator.VisitFromSumsRows | erpnext/erpnext/manufacturing/doctype/bom_creator/bom_creator.py:115-143 | when no nested roll-up writes the id's rows, the result is the accumulator plus the sum of those rows' new amounts |
| BomCreator.VisitFromPricesRow | erpnext/erpnext/manufacturing/doctype/bom_creator/bom_creator.py:119-139 | each row of the id ends priced: a leaf at rate × qty, a sub-assembly at its children's cost with rate = amount / (qty × conversion factor) |
| BomCreator.BOMCreator.GetRawMaterialCost | erpnext/erpnext/manufacturing/doctype/bom_creator/bom_creator.py:111-143 | the recursive method leaves the rows and returns the total that Visit specifies, and fails exactly when Visit does |
| BomCreator.BOMCreator.RollUpRow | erpnext/erpnext/manufacturing/doctype/bom_creator/bom_creator.py:119-141 | one pass over a row of the reference: a leaf priced at once, a sub-assembly after its own roll-up, leaving the rows and the running total where one step of VisitFrom does, or failing as it does |
| BomCreator.BOMCreator.SetRateForItems | erpnext/erpnext/manufacturing/doctype/bom_creator/bom_creator.py:104-109 | Manual changes nothing; otherwise RolledUp holds: it passes iff the pure cost succeeds and otherwise fails with the cost's error, the rows become the roll-up's priced rows (without nested rows, each priced as VisitFromPricesRow states), raw_material_cost is the pure cost of the top-level rows and, without nested rows, the sum of their amounts |
| BomCreator.BOMCreator.BeforeSave | erpnext/erpnext/manufacturing/doctype/bom_creator/bom_creator.py:35-40 | a failing status lookup changes nothing; otherwise the status is set from the old rows, then the rows are marked, converted and linked, and unless the cost is Manual (which keeps raw_material_cost) RolledUp holds of the linked rows: they become the roll-up's priced rows and raw_material_cost the pure cost, or the pure cost's error is returned |
| Workflow.GetState | frappe/frappe/workflow/doctype/workflow/workflow.py:112-117 | the first state row with that name, or a failure naming the state iff there is none |
| Workflow.AllowedDocstatusMoves | frappe/frappe/workflow/doctype/workflow/workflow.py:123-136 | between statuses 0, 1 and 2, a move is accepted iff it is 0→0, 0→1, 1→1 or 1→2 |
| Workflow.TransitionError | frappe/frappe/workflow/doctype/workflow/workflow.py:119-136 | no unknown-state complaint iff both states exist |
| Workflow.ValidateDocstatus | frappe/frappe/workflow/doctype/workflow/workflow.py:111-136 | passes iff every transition is acceptable; a failure is an offending transition's complaint |
| Workflow.ValidatedTransitionsRespectDocstatus | frappe/frappe/workflow/doctype/workflow/workflow.py:119-136 | in a validated workflow no transition leaves a cancelled state, goes from submitted to draft, or from draft to cancelled |
| Workflow.DefaultStates | frappe/frappe/workflow/doctype/workflow/workflow.py:69-85 | the map has a key exactly for each document status some state has |
| Workflow.DefaultIsFirstState | frappe/frappe/workflow/doctype/workflow/workflow.py:71-85 | each status maps to its first state in list order; later states are ignored |
| Workflow.DefaultUpdatesNameDefaults | frappe/frappe/workflow/doctype/workflow/workflow.py:72-83 | every default update pairs a status with its first state |
| Workflow.DefaultUpdatesCoverStatuses | frappe/frappe/workflow/doctype/workflow/workflow.py:71-85 | every status that occurs gets an update |
| Workflow.DefaultUpdatesDistinct | frappe/frappe/workflow/doctype/workflow/workflow.py:72 | no status is updated twice |
| Workflow.UpdateDefaultWorkflowStatus | frappe/frappe/workflow/doctype/workflow/workflow.py:68-85 | the loop builds exactly DefaultStates and issues exactly DefaultUpdates |
| Workflow.StateMap | frappe/frappe/workflow/doctype/workflow/workflow.py:95-98 | keys are exactly the state names, each mapped to a row with that name |
| Workflow.StateMapIsLastRow | frappe/frappe/workflow/doctype/workflow/workflow.py:95-98 | a repeated state name maps to its last row |
| Workflow.KeyOrder | frappe/frappe/workflow/doctype/workflow/workflow.py:100 | each state name once, in first-occurrence order |
| Workflow.ChangedStatesAre | frappe/frappe/workflow/doctype/workflow/workflow.py:100-109 | an update is issued for a key iff it is present before and after with a different document status |
| Workflow.DocStatusUpdatesAreChanges | frappe/frappe/workflow/doctype/workflow/workflow.py:92-109 | with a previous version, a state's documents are rewritten iff the state exists before and after and its status changed |
| Workflow.CollectStates | frappe/frappe/workflow/doctype/workflow/workflow.py:95-98 | the loop builds exactly StateMap and KeyOrder |
| Workflow.UpdateDocStatus | frappe/frappe/workflow/doctype/workflow/workflow.py:87-109 | the loops issue exactly DocStatusUpdates, which are none without a previous version |
| Role.BeforeRename | frappe/frappe/core/doctype/role/role.py:46-48 | fails iff the old name is one of the five standard roles listed at line 18 |
| Role.DisableRole | frappe/frappe/core/doctype/role/role.py:59-61 | fails iff the role is standard, so a standard role cannot be disabled |
| Role.DeskCleared | frappe/frappe/core/doctype/role/role.py:70-72 | all eight desk properties (lines 7-16) are off and every other field is kept |
| Role.ClearFromIsDeskCleared | frappe/frappe/core/doctype/role/role.py:71-72 | clearing the properties one at a time ends where clearing them all at once does |
| Role.RoleDoc.SetDeskProperties | frappe/frappe/core/doctype/role/role.py:65-72 | Guest loses desk access; without desk access the fields are DeskCleared of the old fields, and otherwise unchanged |
| Role.RoleDoc.Validate | frappe/frappe/core/doctype/role/role.py:53-57 | a disabled role goes through the disabling guard and keeps its desk settings; an enabled role passes, Guest loses desk access, and a role without desk access has exactly the desk features switched off and every other field kept |
| DatabaseUtils.Find | frappe/frappe/database/utils.py:40 | the first index at which the pattern occurs, or none iff it never occurs |
| DatabaseUtils.RemoveChar | frappe/frappe/database/utils.py:41-42 | the character no longer occurs, and every other character occurs iff it did |
| DatabaseUtils.GetDoctypeName | frappe/frappe/database/utils.py:38-42 | the result contains neither a backtick nor a double quote |
| DatabaseUtils.GetDoctypeNameStripsPrefix | frappe/frappe/database/utils.py:39-42 | `tab`, `` `tab `` and `"tab` prefixes lose their first `tab`; any other name only loses its quotes and keeps every `tab` |
| DatabaseUtils.GetDoctypeNameExamples | frappe/frappe/database/utils.py:38-42 | "tabItem" and "`tabItem`" both give "Item" |
| DatabaseUtils.LStrip | frappe/frappe/database/utils.py:31 | a suffix of the query with no leading whitespace, with only whitespace removed |
| DatabaseUtils.TakeWord | frappe/frappe/database/utils.py:31 | the longest whitespace-free prefix |
| DatabaseUtils.IsQueryType | frappe/frappe/database/utils.py:30-31 | fails iff the query is blank; otherwise true iff the lowercased first word starts with the kind, or with one of the kinds |
| DatabaseUtils.IsQueryTypeIgnoresIndent | frappe/frappe/database/utils.py:31 | leading whitespace does not change the answer |
| DatabaseUtils.UpperCaseKindNeverMatches | frappe/frappe/database/utils.py:31 | the kind is not lowercased, so a kind containing an upper-case letter never matches |
| DatabaseUtils.BlankQueryFails | frappe/frappe/database/utils.py:31 | a whitespace-only query fails instead of answering |

## Left out

- The record-keeping around the schedule is not modelled:
  - database and document plumbing (`frappe.db`, `get_doc`, `db_set`, `db_update`, `insert`, `save`, `submit`, `cancel`);
  - the module-level helpers that make, update, convert, cancel and look up schedules (asset_depreciation_schedule.py:687-865);
  - `before_save`, `prepare_draft_asset_depr_schedule_data_from_asset_name_and_fb_name` and `have_asset_details_been_modified`'s database reads.

  The uniqueness rule and the Draft → Active → Cancelled transitions are modelled over an abstract list of saved schedules instead.
- `before_cancel` and `cancel_depreciation_entries` are not modelled. They cancel journal entries in the database.
- The regional hook `get_updated_rate_of_depreciation_for_wdv_and_dd` is the identity, as the source defines it. A regional override is not modelled.
- `asset_doc.validate_asset_finance_books` is not part of this model.
- The calendar functions (`add_months`, `get_last_day`, `date_diff`, `month_diff`, `add_days`) come from `frappe.utils`, which is not part of this model. They are written as proleptic Gregorian helpers whose contracts are stated, not checked against that library.
- Rounding.Flt: amounts are exact reals and `flt` is decimal rounding with halves to even. Binary floating point is not modelled.
- Rounding.Flt: the precisions of the different fields are one precision per call site (the asset's currency precision).
- DepreciationAmounts.GetStraightLineOrManualDeprAmount: the daily Straight Line and Manual amounts use the corrected daily rate `DailyRate`, which divides by every day of the periods. The source divides by one day fewer (`DailyRateAsWritten`, see Findings). So each daily amount here is the source's amount times (D − 1) / D for a span of D days, and the zero-division failure occurs for D = 0 rather than for D = 1. MakeDeprSchedule, PrepareDraftAssetDeprScheduleData and the generator inherit this.
- ScheduleDocument.AssetDepreciationSchedule.PrepareDraftAssetDeprScheduleData: when rebuilding the rows fails, the rows left behind are not stated (as for MakeDeprSchedule, whose contract speaks only of a successful rebuild). Python keeps the booked prefix and whatever rows were appended before the error.
- ScheduleGenerator.Iterate: `asset_doc.to_date` is an input. Its write-back to the asset in the last pro-rated period is not modelled.
- ScheduleDocument.AssetDepreciationSchedule.SetAccumulatedDepreciation: the residue row is the last row. The source compares `i` with `max(idx) − 1`, and idx is the 1-based row position, so `i == max(idx) − 1` selects the last row.
- ShiftAssignment.GetShiftDetails: the defaulting of a missing timestamp to the current time is left to the caller. The shift type is looked up in a map instead of the database.
- The shift database queries and calendar events are not modelled: `get_overlapping_dates`, `get_events`, `add_assignments`, `get_shift_type_timing`, `get_shifts_for_date`, `get_employee_shift`, `get_prev_or_next_shift`, `get_employee_shift_timings`, and the validation that uses them.
- ShiftAssignment.AdjustOverlappingShifts: shift dictionaries are values, so aliasing of one dictionary in two list slots is not modelled. Times are whole minutes, not microseconds.
- Several subcontracting functions are not modelled:
  - GL and stock-ledger posting;
  - the status updater and `update_status`;
  - the database lookups `set_items_bom`, `set_available_qty_for_consumption` and `get_scrap_items`;
  - the recalculation that `remove_scrap_items` may trigger.
- The BOM Creator's BOM creation and tree editing are not modelled: `create_boms`, `create_bom`, `enqueue_create_boms`, `add_item`, `add_sub_assembly`, `delete_node`, `edit_qty` and `get_children`. `get_bom_item_rate` is an input function from the lookup arguments to a rate.
- BomCreator.BOMCreator.GetRawMaterialCost: Python's recursion limit is modelled as a `fuel` bound. A deeper tree fails with `RecursionLimit` rather than after a fixed 1000 frames.
- BomCreator.BOMCreator.GetRawMaterialCost: the rows left behind by a failed roll-up are not specified. Python leaves them partly updated.
- BomCreator.BOMCreator.SetStatus: whether the document's BOM exists is a parameter, since it is read from the database.
- The workflow's SQL writes, custom-field creation, `set_active` and `get_workflow_state_count` are not modelled. The writes that `update_default_workflow_status` and `update_doc_status` issue are returned as lists of (state, status) updates.
- Role `remove_roles`, `on_update`, `after_insert`, `get_users` and `role_query` are not modelled. They are database and cache operations.
- `LazyString`, `LazyDecode`, `LazyMogrify` and `is_pypika_function_object` in the database helpers are not modelled. They are caching wrappers and a type check over library objects.
- DatabaseUtils.IsQueryType: whitespace is the six usual ASCII whitespace characters and lowercasing is ASCII lowercasing. Python's `split()` and `lstrip()` also treat the ASCII separators \x1c-\x1f and Unicode whitespace as whitespace; those, and Unicode case mapping, are not modelled.

## Findings

| source | as written | input that shows it | evidently intended | confidence | as-written member | corrected member |
|---|---|---|---|---|---|---|
| erpnext/erpnext/assets/doctype/asset_depreciation_schedule/asset_depreciation_schedule.py:622-637 | the daily rate divides by `date_diff(last_end, first_start)`, one day fewer than the span, while each period is paid for `date_diff(to, from) + 1` days | monthly Straight Line, daily pro-rata, 12 periods, start 2024-01-31, value 366: the rate is 366/365 and the twelve amounts add up to 366 + 366/365 | divide by `date_diff(...) + 1`, so the amounts add up to the value | not executed | DepreciationAmounts.DailyRateAsWrittenCounterexample | DepreciationAmounts.DailyAmountsSumToValue |
