/** The Asset Depreciation Schedule document: its rows, the loop that
    rebuilds them period by period, the second pass that fills in running
    totals, and its status. */
module DepreciationSchedule {
  import opened Wrappers
  import opened Calendar
  import opened Rounding
  import opened DepreciationAmounts

  /** One row of the `depreciation_schedule` child table. */
  datatype ScheduleRow = ScheduleRow(
    scheduleDate: Date,
    depreciationAmount: real,
    accumulatedDepreciationAmount: real,
    journalEntry: Option<string>)

  datatype ScheduleStatus = Draft | Active | Cancelled

  /** `is_first_day_of_the_month`. */
  predicate IsFirstDayOfTheMonth(d: Date) {
    GetFirstDay(d) == d
  }

  // ---------------------------------------------------------------------
  // Booked prefix

  /** The leading rows that already carry a journal entry. */
  function BookedPrefix(rows: seq<ScheduleRow>): (p: seq<ScheduleRow>)
    ensures p <= rows
    ensures forall j :: 0 <= j < |p| ==> p[j].journalEntry.Some?
    ensures |p| < |rows| ==> rows[|p|].journalEntry.None?
  {
    if |rows| == 0 || rows[0].journalEntry.None? then []
    else [rows[0]] + BookedPrefix(rows[1..])
  }

  /** The index `clear_depr_schedule` returns: the number of booked rows
      when an unbooked row follows them, and 0 otherwise. */
  function ClearStart(rows: seq<ScheduleRow>): int {
    var k := |BookedPrefix(rows)|;
    if k < |rows| then k else 0
  }

  /** A prefix of booked rows that ends the list or stops at an unbooked
      row is the booked prefix. */
  lemma {:induction false} BookedPrefixUnique(rows: seq<ScheduleRow>, k: int)
    requires 0 <= k <= |rows|
    requires forall j :: 0 <= j < k ==> rows[j].journalEntry.Some?
    requires k < |rows| ==> rows[k].journalEntry.None?
    ensures BookedPrefix(rows) == rows[..k]
  {
    if k > 0 {
      BookedPrefixUnique(rows[1..], k - 1);
      assert rows[..k] == [rows[0]] + rows[1..][..k - 1];
    }
  }

  // ---------------------------------------------------------------------
  // Accumulated depreciation pass (specification)

  /** What `set_accumulated_depreciation` reads besides the rows. */
  datatype AccConfig = AccConfig(
    straightLineOrManual: bool,
    openingAccumulatedDepreciation: real,
    decreaseInAssetValueDueToValueAdjustment: bool,
    hasDisposalOrReturnDate: bool,
    ignoreBookedEntry: bool,
    expectedValueAfterUsefulLife: real,
    amountPrecision: nat,
    accumulatedPrecision: nat)

  /** Whether row `i` of `n` rows takes the Straight Line residue: the
      source compares `i` with `max(idx) - 1`, and `idx` is the 1-based
      position, so this is the last row. */
  predicate TakesResidue(c: AccConfig, i: int, n: int) {
    c.straightLineOrManual && i == n - 1 && !c.hasDisposalOrReturnDate
  }

  /** The running total a processed row starts from: the current total, or
      when that is zero, the opening amount (the previous row's total under a
      value-adjustment decrease). */
  function AccBase(s: seq<ScheduleRow>, i: int, acc: real, c: AccConfig): real
    requires 0 <= i <= |s|
  {
    if acc != 0.0 then acc
    else if i > 0 && c.decreaseInAssetValueDueToValueAdjustment then s[i - 1].accumulatedDepreciationAmount
    else c.openingAccumulatedDepreciation
  }

  /** The state of the pass between rows: the rows so far, the running
      total and the value left to depreciate. */
  datatype PassState = PassState(rows: seq<ScheduleRow>, acc: real, vad: real)

  /** One processed row `i`: its amount rounded, the residue added when it
      is the last Straight Line row, and its running total written. */
  function ProcessRow(s: seq<ScheduleRow>, i: int, acc: real, vad: real, c: AccConfig): (st: PassState)
    requires 0 <= i < |s|
    ensures |st.rows| == |s|
  {
    var acc0 := AccBase(s, i, acc, c);
    var amount := Flt(s[i].depreciationAmount, c.amountPrecision);
    var vad1 := vad - amount;
    var amount1 := if TakesResidue(c, i, |s|)
      then amount + Flt(vad1 - c.expectedValueAfterUsefulLife, c.amountPrecision) else amount;
    var acc1 := acc0 + amount1;
    PassState(s[i := s[i].(depreciationAmount := amount1,
                           accumulatedDepreciationAmount := Flt(acc1, c.accumulatedPrecision))],
              acc1, vad1)
  }

  /** The rows after `set_accumulated_depreciation` has processed rows `i`
      onward, with running total `acc` and remaining value `vad`. */
  function AccPass(s: seq<ScheduleRow>, i: int, acc: real, vad: real, c: AccConfig): (r: seq<ScheduleRow>)
    requires 0 <= i <= |s|
    ensures |r| == |s|
    decreases |s| - i
  {
    if i == |s| then s
    else if c.ignoreBookedEntry && s[i].journalEntry.Some? then AccPass(s, i + 1, acc, vad, c)
    else
      var st := ProcessRow(s, i, acc, vad, c);
      AccPass(st.rows, i + 1, st.acc, st.vad, c)
  }

  /** Sum of the depreciation amounts of `s`. */
  function SumAmounts(s: seq<ScheduleRow>): real {
    if |s| == 0 then 0.0 else SumAmounts(s[..|s| - 1]) + s[|s| - 1].depreciationAmount
  }

  /** The pass keeps every row's date and journal entry, the rows before
      `i`, and every booked row it is told to skip. */
  lemma {:induction false} AccPassKeepsRows(s: seq<ScheduleRow>, i: int, acc: real, vad: real, c: AccConfig)
    requires 0 <= i <= |s|
    ensures var r := AccPass(s, i, acc, vad, c);
      && |r| == |s|
      && r[..i] == s[..i]
      && (forall j :: 0 <= j < |s| ==> r[j].scheduleDate == s[j].scheduleDate && r[j].journalEntry == s[j].journalEntry)
      && (forall j :: i <= j < |s| && c.ignoreBookedEntry && s[j].journalEntry.Some? ==> r[j] == s[j])
    decreases |s| - i
  {
    if i < |s| {
      if c.ignoreBookedEntry && s[i].journalEntry.Some? {
        AccPassKeepsRows(s, i + 1, acc, vad, c);
      } else {
        var st := ProcessRow(s, i, acc, vad, c);
        AccPassKeepsRows(st.rows, i + 1, st.acc, st.vad, c);
        assert st.rows[..i] == s[..i];
      }
    }
  }

  lemma SumAmountsSnoc(s: seq<ScheduleRow>, i: int)
    requires 0 <= i < |s|
    ensures SumAmounts(s[..i + 1]) == SumAmounts(s[..i]) + s[i].depreciationAmount
  {
    assert s[..i + 1][..i] == s[..i];
  }

  /** What processing row `i` does: the earlier rows stay, the value left
      drops by the rounded amount, and the row takes its new amount (the
      residue added on the last Straight Line row) and running total. */
  lemma ProcessRowFacts(s: seq<ScheduleRow>, i: int, acc: real, vad: real, c: AccConfig)
    requires 0 <= i < |s|
    ensures ProcessRow(s, i, acc, vad, c).rows[..i] == s[..i]
    ensures ProcessRow(s, i, acc, vad, c).vad == vad - Flt(s[i].depreciationAmount, c.amountPrecision)
    ensures !TakesResidue(c, i, |s|) ==>
              ProcessRow(s, i, acc, vad, c).rows[i].depreciationAmount == Flt(s[i].depreciationAmount, c.amountPrecision)
    ensures TakesResidue(c, i, |s|) ==>
              ProcessRow(s, i, acc, vad, c).rows[i].depreciationAmount
              == Flt(s[i].depreciationAmount, c.amountPrecision)
                 + Flt(ProcessRow(s, i, acc, vad, c).vad - c.expectedValueAfterUsefulLife, c.amountPrecision)
    ensures ProcessRow(s, i, acc, vad, c).acc
            == AccBase(s, i, acc, c) + ProcessRow(s, i, acc, vad, c).rows[i].depreciationAmount
    ensures ProcessRow(s, i, acc, vad, c).rows[i].accumulatedDepreciationAmount
            == Flt(ProcessRow(s, i, acc, vad, c).acc, c.accumulatedPrecision)
    ensures SumAmounts(ProcessRow(s, i, acc, vad, c).rows[..i + 1])
            == SumAmounts(s[..i]) + ProcessRow(s, i, acc, vad, c).rows[i].depreciationAmount
    ensures !(c.ignoreBookedEntry && s[i].journalEntry.Some?) ==>
              AccPass(s, i, acc, vad, c)
              == AccPass(ProcessRow(s, i, acc, vad, c).rows, i + 1, ProcessRow(s, i, acc, vad, c).acc,
                         ProcessRow(s, i, acc, vad, c).vad, c)
  {
    var s' := ProcessRow(s, i, acc, vad, c).rows;
    assert s'[..i] == s[..i];
    SumAmountsSnoc(s', i);
  }

  /** With no skipped rows and non-negative opening and row amounts, every
      row's accumulated amount is the opening amount plus the (new) amounts
      up to and including that row, rounded. A value-adjustment decrease
      makes no difference here while the opening amount is positive, since
      the total then never falls back to zero. */
  lemma AccumulatedIsRunningTotal(s: seq<ScheduleRow>, vad: real, c: AccConfig)
    requires !c.ignoreBookedEntry
    requires !c.decreaseInAssetValueDueToValueAdjustment || c.openingAccumulatedDepreciation > 0.0
    requires c.openingAccumulatedDepreciation >= 0.0
    requires forall j :: 0 <= j < |s| ==> s[j].depreciationAmount >= 0.0
    ensures var r := AccPass(s, 0, 0.0, vad, c);
      forall j :: 0 <= j < |r| ==>
        r[j].accumulatedDepreciationAmount
          == Flt(c.openingAccumulatedDepreciation + SumAmounts(r[..j + 1]), c.accumulatedPrecision)
  {
    var r := AccPass(s, 0, 0.0, vad, c);
    AccPassKeepsRows(s, 0, 0.0, vad, c);
    forall j | 0 <= j < |r|
      ensures r[j].accumulatedDepreciationAmount
        == Flt(c.openingAccumulatedDepreciation + SumAmounts(r[..j + 1]), c.accumulatedPrecision)
    {
      assert s[0..0] == [];
      RunningFromBaseAt(s, 0, 0.0, vad, c, 0, c.openingAccumulatedDepreciation, j);
      assert r[0..j + 1] == r[..j + 1];
    }
  }

  /** When the pass starts at row `k` (the rows before it booked and
      skipped), the running total starts from the previous row's accumulated
      amount under a value-adjustment decrease, and from the opening amount
      otherwise. With a positive start and non-negative amounts, the booked
      rows stay as they are and every later row's accumulated amount is that
      start plus the (new) amounts from row `k` up to and including the row,
      rounded. */
  lemma AccumulatedStartsFromBase(s: seq<ScheduleRow>, vad: real, c: AccConfig, k: int)
    requires 0 <= k < |s|
    requires k > 0 ==> c.ignoreBookedEntry
    requires forall m :: 0 <= m < k ==> s[m].journalEntry.Some?
    requires forall m :: k <= m < |s| ==> !(c.ignoreBookedEntry && s[m].journalEntry.Some?) && s[m].depreciationAmount >= 0.0
    requires StartCarries(c, if k > 0 && c.decreaseInAssetValueDueToValueAdjustment
                             then s[k - 1].accumulatedDepreciationAmount else c.openingAccumulatedDepreciation)
    ensures var r := AccPass(s, 0, 0.0, vad, c);
      var base := if k > 0 && c.decreaseInAssetValueDueToValueAdjustment
                  then s[k - 1].accumulatedDepreciationAmount else c.openingAccumulatedDepreciation;
      && r[..k] == s[..k]
      && forall j :: k <= j < |r| ==>
           r[j].accumulatedDepreciationAmount == Flt(base + SumAmounts(r[k..j + 1]), c.accumulatedPrecision)
  {
    SkipBookedRows(s, 0, vad, c, k);
    AccPassKeepsRows(s, k, 0.0, vad, c);
    RunningFromRow(s, vad, c, k, AccBase(s, k, 0.0, c));
  }

  /** The pass started at row `k` with a zero total accumulates from the
      start `AccBase` picks for row `k`. */
  lemma RunningFromRow(s: seq<ScheduleRow>, vad: real, c: AccConfig, k: int, base: real)
    requires 0 <= k < |s|
    requires forall m :: k <= m < |s| ==> !(c.ignoreBookedEntry && s[m].journalEntry.Some?) && s[m].depreciationAmount >= 0.0
    requires base == AccBase(s, k, 0.0, c) && StartCarries(c, base)
    ensures var r := AccPass(s, k, 0.0, vad, c);
      forall j :: k <= j < |r| ==>
        r[j].accumulatedDepreciationAmount == Flt(base + SumAmounts(r[k..j + 1]), c.accumulatedPrecision)
  {
    var r := AccPass(s, k, 0.0, vad, c);
    assert s[k..k] == [];
    forall j | k <= j < |r|
      ensures r[j].accumulatedDepreciationAmount == Flt(base + SumAmounts(r[k..j + 1]), c.accumulatedPrecision)
    {
      RunningFromBaseAt(s, k, 0.0, vad, c, k, base, j);
    }
  }

  /** The pass skips a run of booked rows it is told to ignore. */
  lemma {:induction false} SkipBookedRows(s: seq<ScheduleRow>, i: int, vad: real, c: AccConfig, k: int)
    requires 0 <= i <= k <= |s|
    requires k > i ==> c.ignoreBookedEntry
    requires forall m :: i <= m < k ==> s[m].journalEntry.Some?
    ensures AccPass(s, i, 0.0, vad, c) == AccPass(s, k, 0.0, vad, c)
    decreases k - i
  {
    if i < k {
      SkipBookedRows(s, i + 1, vad, c, k);
    }
  }

  lemma SumAmountsSliceSnoc(s: seq<ScheduleRow>, k: int, i: int)
    requires 0 <= k <= i < |s|
    ensures SumAmounts(s[k..i + 1]) == SumAmounts(s[k..i]) + s[i].depreciationAmount
  {
    assert s[k..i + 1][..i - k] == s[k..i];
  }

  /** A start the running total keeps once the pass is under way: a
      positive one, or a zero opening amount that a total still at zero falls
      back to. */
  predicate StartCarries(c: AccConfig, base: real) {
    base > 0.0 || (base == c.openingAccumulatedDepreciation == 0.0 && !c.decreaseInAssetValueDueToValueAdjustment)
  }

  /** From row `i` on, while no row is skipped and the amounts are
      non-negative, each row's accumulated amount is `base` plus the amounts
      from row `k`, provided the total row `i` starts from is that. */
  lemma {:induction false} RunningFromBaseAt(
    s: seq<ScheduleRow>, i: int, acc: real, vad: real, c: AccConfig, k: int, base: real, j: int)
    requires 0 <= k <= i <= j < |s|
    requires forall m :: i <= m < |s| ==> !(c.ignoreBookedEntry && s[m].journalEntry.Some?) && s[m].depreciationAmount >= 0.0
    requires StartCarries(c, base) && SumAmounts(s[k..i]) >= 0.0
    requires AccBase(s, i, acc, c) == base + SumAmounts(s[k..i])
    ensures var r := AccPass(s, i, acc, vad, c);
      r[j].accumulatedDepreciationAmount == Flt(base + SumAmounts(r[k..j + 1]), c.accumulatedPrecision)
    decreases |s| - i, 1
  {
    var st := ProcessedFromBase(s, i, acc, vad, c, k, base);
    if i < j {
      RunningFromBaseNext(st.rows, i, st.acc, st.vad, c, k, base, j);
    } else {
      RunningFromBaseLast(s, i, c, k, base, st);
    }
  }

  /** Row `i` processed: the total moves on to `base` plus the amounts up to
      row `i`, and the pass continues from the processed rows. */
  lemma ProcessedFromBase(s: seq<ScheduleRow>, i: int, acc: real, vad: real, c: AccConfig, k: int, base: real)
    returns (st: PassState)
    requires 0 <= k <= i < |s|
    requires forall m :: i <= m < |s| ==> !(c.ignoreBookedEntry && s[m].journalEntry.Some?) && s[m].depreciationAmount >= 0.0
    requires SumAmounts(s[k..i]) >= 0.0
    requires AccBase(s, i, acc, c) == base + SumAmounts(s[k..i])
    ensures |st.rows| == |s|
    ensures forall m :: i < m < |s| ==>
              !(c.ignoreBookedEntry && st.rows[m].journalEntry.Some?) && st.rows[m].depreciationAmount >= 0.0
    ensures st.acc == base + SumAmounts(st.rows[k..i + 1])
    ensures i < |s| - 1 ==> SumAmounts(st.rows[k..i + 1]) >= 0.0
    ensures st.rows[i].accumulatedDepreciationAmount == Flt(st.acc, c.accumulatedPrecision)
    ensures AccPass(s, i, acc, vad, c) == AccPass(st.rows, i + 1, st.acc, st.vad, c)
  {
    ProcessRowFacts(s, i, acc, vad, c);
    st := ProcessRow(s, i, acc, vad, c);
    var s' := st.rows;
    SumAmountsSliceSnoc(s', k, i);
    assert s'[k..i] == s'[..i][k..] == s[..i][k..] == s[k..i];
    FltNonNegative(s[i].depreciationAmount, c.amountPrecision);
  }

  lemma {:induction false} RunningFromBaseNext(
    s: seq<ScheduleRow>, i: int, acc: real, vad: real, c: AccConfig, k: int, base: real, j: int)
    requires 0 <= k <= i < j < |s|
    requires forall m :: i < m < |s| ==> !(c.ignoreBookedEntry && s[m].journalEntry.Some?) && s[m].depreciationAmount >= 0.0
    requires StartCarries(c, base) && SumAmounts(s[k..i + 1]) >= 0.0
    requires acc == base + SumAmounts(s[k..i + 1])
    ensures var r := AccPass(s, i + 1, acc, vad, c);
      r[j].accumulatedDepreciationAmount == Flt(base + SumAmounts(r[k..j + 1]), c.accumulatedPrecision)
    decreases |s| - i, 0
  {
    assert acc >= base;
    assert AccBase(s, i + 1, acc, c) == acc;
    RunningFromBaseAt(s, i + 1, acc, vad, c, k, base, j);
  }

  lemma RunningFromBaseLast(s: seq<ScheduleRow>, i: int, c: AccConfig, k: int, base: real, st: PassState)
    requires 0 <= k <= i < |s|
    requires |st.rows| == |s|
    requires st.acc == base + SumAmounts(st.rows[k..i + 1])
    requires st.rows[i].accumulatedDepreciationAmount == Flt(st.acc, c.accumulatedPrecision)
    ensures var r := AccPass(st.rows, i + 1, st.acc, st.vad, c);
      r[i].accumulatedDepreciationAmount == Flt(base + SumAmounts(r[k..i + 1]), c.accumulatedPrecision)
  {
    var s' := st.rows;
    AccPassKeepsRows(s', i + 1, st.acc, st.vad, c);
    var r := AccPass(s', i + 1, st.acc, st.vad, c);
    assert r[..i + 1] == s'[..i + 1];
    assert r[k..i + 1] == s'[k..i + 1];
    assert r[i] == s'[i];
  }

  /** Straight Line / Manual with no disposal or return: the last row takes
      the residue, so the amounts of the pass add up to the value to
      depreciate, `value_after_depreciation - expected_value_after_useful_life`,
      within half a unit of the amount precision. */
  lemma ResidueClosesSchedule(s: seq<ScheduleRow>, vad: real, c: AccConfig)
    requires |s| > 0
    requires c.straightLineOrManual && !c.hasDisposalOrReturnDate && !c.ignoreBookedEntry
    ensures var total := SumAmounts(AccPass(s, 0, 0.0, vad, c));
      var target := vad - c.expectedValueAfterUsefulLife;
      -HalfUnit(c.amountPrecision) <= total - target <= HalfUnit(c.amountPrecision)
  {
    ResidueStep(s, 0, 0.0, vad, vad, c);
  }

  lemma {:induction false} ResidueStep(s: seq<ScheduleRow>, i: int, acc: real, vad: real, vad0: real, c: AccConfig)
    requires 0 <= i < |s|
    requires c.straightLineOrManual && !c.hasDisposalOrReturnDate && !c.ignoreBookedEntry
    requires vad == vad0 - SumAmounts(s[..i])
    ensures var total := SumAmounts(AccPass(s, i, acc, vad, c));
      var target := vad0 - c.expectedValueAfterUsefulLife;
      -HalfUnit(c.amountPrecision) <= total - target <= HalfUnit(c.amountPrecision)
    decreases |s| - i
  {
    var st := ProcessRow(s, i, acc, vad, c);
    var s' := st.rows;
    if i + 1 < |s| {
      ProcessRowFacts(s, i, acc, vad, c);
      assert !TakesResidue(c, i, |s|);
      assert st.vad == vad0 - SumAmounts(s'[..i + 1]);
      ResidueStep(s', i + 1, st.acc, st.vad, vad0, c);
    } else {
      ProcessRowSum(s, i, acc, vad, c);
      ResidueRowLands(s, i, acc, vad, c);
      assert s'[..i + 1] == s';
    }
  }

  /** Processing row `i` adds its new amount to the sum of the rows so far,
      and the pass carries on from the processed rows. */
  lemma ProcessRowSum(s: seq<ScheduleRow>, i: int, acc: real, vad: real, c: AccConfig)
    requires 0 <= i < |s| && !c.ignoreBookedEntry
    ensures SumAmounts(ProcessRow(s, i, acc, vad, c).rows[..i + 1])
            == SumAmounts(s[..i]) + ProcessRow(s, i, acc, vad, c).rows[i].depreciationAmount
    ensures AccPass(s, i, acc, vad, c)
            == AccPass(ProcessRow(s, i, acc, vad, c).rows, i + 1, ProcessRow(s, i, acc, vad, c).acc,
                       ProcessRow(s, i, acc, vad, c).vad, c)
  {
    var s' := ProcessRow(s, i, acc, vad, c).rows;
    assert s'[..i] == s[..i];
    SumAmountsSnoc(s', i);
  }

  /** The row taking the residue brings the value left onto the expected
      value after useful life, within half a unit. */
  lemma ResidueRowLands(s: seq<ScheduleRow>, i: int, acc: real, vad: real, c: AccConfig)
    requires 0 <= i < |s| && TakesResidue(c, i, |s|)
    ensures -HalfUnit(c.amountPrecision)
            <= (vad - ProcessRow(s, i, acc, vad, c).rows[i].depreciationAmount) - c.expectedValueAfterUsefulLife
            <= HalfUnit(c.amountPrecision)
  {
    var amount := Flt(s[i].depreciationAmount, c.amountPrecision);
    var r := (vad - amount) - c.expectedValueAfterUsefulLife;
    assert ProcessRow(s, i, acc, vad, c).rows[i].depreciationAmount == amount + Flt(r, c.amountPrecision);
  }


}
