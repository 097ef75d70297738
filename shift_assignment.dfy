/** Shift timing rules of HR shift assignments: overlap of two shift types,
    the concrete start and end of a shift around a timestamp, the check-in
    window widened by the shift's margins, the assignment-period filters,
    the trimming of consecutive overlapping windows and the choice of the
    shift a timestamp falls in.

    Times of day are minutes after midnight (0 .. 1439); datetimes are
    whole minutes on one continuous scale whose day number is the quotient
    by 1440; dates are those day numbers. */
module ShiftAssignment {
  import opened Wrappers

  const MinutesPerDay: int := 1440

  type TimeOfDay = t: int | 0 <= t < 1440

  /** The date of a datetime. */
  function DayOf(ts: int): int {
    ts / MinutesPerDay
  }

  /** The time of day of a datetime. */
  function TimeOf(ts: int): TimeOfDay {
    ts % MinutesPerDay
  }

  /** Midnight at the start of day `d`. */
  function Midnight(d: int): int {
    d * MinutesPerDay
  }

  lemma MidnightPlus(d: int, t: int)
    requires 0 <= t < MinutesPerDay
    ensures DayOf(Midnight(d) + t) == d
    ensures TimeOf(Midnight(d) + t) == t
  {
    var x := Midnight(d) + t;
    var q, r := x / MinutesPerDay, x % MinutesPerDay;
    assert x == q * MinutesPerDay + r;
    assert (q - d) * MinutesPerDay == t - r;
  }

  lemma DayAndTime(ts: int)
    ensures ts == Midnight(DayOf(ts)) + TimeOf(ts)
  {}

  /** A shift type: start and end times and the check-in margins (minutes
      before the start, minutes after the end). */
  datatype ShiftType = ShiftType(
    name: string,
    startTime: TimeOfDay,
    endTime: TimeOfDay,
    beginCheckInBeforeShiftStartTime: int,
    allowCheckOutAfterShiftEndTime: int)

  /** The shift around a timestamp: its scheduled start and end and the
      window widened by the margins. */
  datatype ShiftDetails = ShiftDetails(
    shiftType: ShiftType,
    startDatetime: int,
    endDatetime: int,
    actualStart: int,
    actualEnd: int)

  /** A shift assignment; `endDate` is None for an open-ended assignment. */
  datatype Assignment = Assignment(shiftType: string, startDate: int, endDate: Option<int>)

  datatype ShiftError =
    | UnknownShiftType(name: string)   // the shift type is not stored: its fields are read from None
    | EmptyShiftDetails                // an empty details record is compared by its missing window

  /* ---------------- overlap of shift types ---------------- */

  /** The six-clause overlap condition of two shift types' timings. */
  predicate TimingsOverlap(s1: ShiftType, s2: ShiftType) {
    (s1.startTime > s1.endTime && s1.startTime < s2.endTime)
    || (s1.startTime > s1.endTime && s2.startTime < s1.endTime)
    || (s1.startTime > s1.endTime && s2.startTime > s2.endTime)
    || (s1.startTime < s2.endTime && s2.startTime < s1.endTime)
    || (s1.startTime < s2.endTime && s2.startTime > s2.endTime)
    || (s2.startTime < s1.endTime && s2.startTime > s2.endTime)
  }

  /** `has_overlapping_timings`: equal names overlap without a lookup;
      otherwise both types are looked up and their timings compared. */
  function HasOverlappingTimings(types: map<string, ShiftType>, shift1: string, shift2: string)
    : (r: Result<bool, ShiftError>)
    ensures shift1 == shift2 ==> r == Success(true)
    ensures shift1 != shift2 && shift1 in types && shift2 in types ==>
              r == Success(TimingsOverlap(types[shift1], types[shift2]))
    ensures r.Failure? <==> shift1 != shift2 && (shift1 !in types || shift2 !in types)
  {
    if shift1 == shift2 then Success(true)
    else if shift1 !in types then Failure(UnknownShiftType(shift1))
    else if shift2 !in types then Failure(UnknownShiftType(shift2))
    else Success(TimingsOverlap(types[shift1], types[shift2]))
  }

  /** The overlap condition does not depend on the order of the shifts. */
  lemma TimingsOverlapSymmetric(s1: ShiftType, s2: ShiftType)
    ensures TimingsOverlap(s1, s2) == TimingsOverlap(s2, s1)
  {}

  lemma HasOverlappingTimingsSymmetric(types: map<string, ShiftType>, shift1: string, shift2: string)
    ensures HasOverlappingTimings(types, shift1, shift2).Success? ==>
              HasOverlappingTimings(types, shift1, shift2) == HasOverlappingTimings(types, shift2, shift1)
  {
    if shift1 != shift2 && shift1 in types && shift2 in types {
      TimingsOverlapSymmetric(types[shift1], types[shift2]);
    }
  }

  /** For two shifts that each lie within one day, the condition is the
      usual overlap of the open intervals (start, end). */
  lemma SameDayTimingsOverlap(s1: ShiftType, s2: ShiftType)
    requires s1.startTime <= s1.endTime && s2.startTime <= s2.endTime
    ensures TimingsOverlap(s1, s2) <==> s1.startTime < s2.endTime && s2.startTime < s1.endTime
  {}

  /* ---------------- shift timings and details ---------------- */

  /** Time of day at which check-in opens. */
  function ActualStartTime(st: ShiftType): TimeOfDay {
    (st.startTime - st.beginCheckInBeforeShiftStartTime) % MinutesPerDay
  }

  /** Time of day at which check-out closes. */
  function ActualEndTime(st: ShiftType): TimeOfDay {
    (st.endTime + st.allowCheckOutAfterShiftEndTime) % MinutesPerDay
  }

  /** The day on which the shift around `ts` starts, as a day offset from
      the day of `ts`, following the four cases of `get_shift_timings`. */
  function StartDayOffset(st: ShiftType, ts: int): (r: int)
    ensures -1 <= r <= 1
  {
    var forTime := TimeOf(ts);
    var actualStart := ActualStartTime(st);
    var actualEnd := ActualEndTime(st);
    if st.startTime > st.endTime then
      // the shift spans two days: the timestamp is on its first or its second day
      if forTime >= actualStart then 0 else -1
    else if actualStart > actualEnd && forTime < actualStart && st.endTime > actualEnd then
      // within the after-midnight margin of the previous day's shift
      -1
    else if actualStart > actualEnd && forTime > actualEnd && st.startTime < actualStart then
      // within the before-midnight margin of the next day's shift
      1
    else 0
  }

  /** `get_shift_timings`: the start and end datetime of the shift around
      `ts`. An overnight shift ends on the day after it starts; every other
      shift starts and ends on the same day. */
  function GetShiftTimings(st: ShiftType, ts: int): (r: (int, int))
    ensures TimeOf(r.0) == st.startTime && TimeOf(r.1) == st.endTime
    ensures DayOf(r.0) == DayOf(ts) + StartDayOffset(st, ts)
    ensures st.startTime > st.endTime ==> DayOf(r.1) == DayOf(r.0) + 1
    ensures st.startTime <= st.endTime ==> DayOf(r.1) == DayOf(r.0)
    ensures r.0 <= r.1
  {
    var startDay := DayOf(ts) + StartDayOffset(st, ts);
    var endDay := if st.startTime > st.endTime then startDay + 1 else startDay;
    MidnightPlus(startDay, st.startTime);
    MidnightPlus(endDay, st.endTime);
    (Midnight(startDay) + st.startTime, Midnight(endDay) + st.endTime)
  }

  /** `get_shift_details`: an empty name gives empty details; otherwise the
      window opens `begin` minutes before the start and closes `after`
      minutes after the end. */
  function GetShiftDetails(types: map<string, ShiftType>, name: string, ts: int)
    : (r: Result<Option<ShiftDetails>, ShiftError>)
    ensures name == "" <==> r == Success(None)
    ensures r.Failure? <==> name != "" && name !in types
    ensures r.Success? && r.value.Some? ==>
              var d := r.value.value;
              d.shiftType == types[name]
              && (d.startDatetime, d.endDatetime) == GetShiftTimings(types[name], ts)
              && d.actualStart == d.startDatetime - types[name].beginCheckInBeforeShiftStartTime
              && d.actualEnd == d.endDatetime + types[name].allowCheckOutAfterShiftEndTime
  {
    if name == "" then Success(None)
    else if name !in types then Failure(UnknownShiftType(name))
    else
      var st := types[name];
      var (start, end) := GetShiftTimings(st, ts);
      Success(Some(ShiftDetails(st, start, end,
                                start - st.beginCheckInBeforeShiftStartTime,
                                end + st.allowCheckOutAfterShiftEndTime)))
  }

  /** With non-negative margins the window contains the scheduled shift. */
  lemma WindowContainsShift(types: map<string, ShiftType>, name: string, ts: int)
    requires name in types && name != ""
    requires types[name].beginCheckInBeforeShiftStartTime >= 0
    requires types[name].allowCheckOutAfterShiftEndTime >= 0
    ensures var d := GetShiftDetails(types, name, ts).value.value;
      d.actualStart <= d.startDatetime <= d.endDatetime <= d.actualEnd
  {}

  /* ---------------- assignment-period filters ---------------- */

  /** A window whose opening time of day is after its closing time of day
      crosses midnight. */
  predicate IsMidnightShift(d: ShiftDetails) {
    TimeOf(d.actualStart) > TimeOf(d.actualEnd)
  }

  /** `_is_shift_start_before_assignment`. */
  predicate IsShiftStartBeforeAssignment(d: ShiftDetails, a: Assignment, isMidnightShift: bool) {
    DayOf(d.actualStart) < a.startDate
    && (!isMidnightShift
        || DayOf(d.actualStart) == DayOf(d.startDatetime)
        || DayOf(d.actualStart) != a.startDate - 1)
  }

  /** `_is_shift_end_after_assignment`, for an assignment ending on `endDate`. */
  predicate IsShiftEndAfterAssignment(d: ShiftDetails, endDate: int, isMidnightShift: bool) {
    DayOf(d.actualStart) > endDate
    || (DayOf(d.actualEnd) > endDate
        && (!isMidnightShift
            || (DayOf(d.actualEnd) == DayOf(d.endDatetime) && DayOf(d.startDatetime) == DayOf(d.endDatetime))
            || DayOf(d.actualEnd) != endDate + 1))
  }

  /** `_is_shift_outside_assignment_period`. */
  predicate IsShiftOutsideAssignmentPeriod(d: ShiftDetails, a: Assignment) {
    var midnight := IsMidnightShift(d);
    IsShiftStartBeforeAssignment(d, a, midnight)
    || (a.endDate.Some? && IsShiftEndAfterAssignment(d, a.endDate.value, midnight))
  }

  /** What the filter guarantees about shifts it keeps and rejects. */
  lemma AssignmentPeriodBounds(d: ShiftDetails, a: Assignment)
    ensures !IsMidnightShift(d) && DayOf(d.actualStart) < a.startDate ==> IsShiftOutsideAssignmentPeriod(d, a)
    ensures a.endDate.Some? && DayOf(d.actualStart) > a.endDate.value ==> IsShiftOutsideAssignmentPeriod(d, a)
    ensures a.endDate.None? ==>
              (IsShiftOutsideAssignmentPeriod(d, a) <==> IsShiftStartBeforeAssignment(d, a, IsMidnightShift(d)))
    ensures !IsShiftOutsideAssignmentPeriod(d, a) ==>
              a.startDate - 1 <= DayOf(d.actualStart)
              && (a.endDate.Some? ==> DayOf(d.actualStart) <= a.endDate.value)
  {}

  /** `_is_timestamp_within_shift`: inclusive at both ends of the window. */
  predicate IsTimestampWithinShift(d: ShiftDetails, ts: int) {
    d.actualStart <= ts <= d.actualEnd
  }

  /* ---------------- trimming overlapping windows ---------------- */

  /** One step of `_adjust_overlapping_shifts` on the pair (i, i + 1): the
      later window opens no earlier than the earlier shift's end, and the
      earlier window closes no later than the later window opens. Empty
      entries are left alone. */
  function AdjustPair(s: seq<Option<ShiftDetails>>, i: nat): (r: seq<Option<ShiftDetails>>)
    requires i + 1 < |s|
    ensures |r| == |s|
  {
    if s[i].Some? && s[i + 1].Some? then
      var curr, next := s[i].value, s[i + 1].value;
      var next' := next.(actualStart := Max(curr.endDatetime, next.actualStart));
      var curr' := curr.(actualEnd := Min(next'.actualStart, curr.actualEnd));
      s[i := Some(curr')][i + 1 := Some(next')]
    else s
  }

  function Max(a: int, b: int): int { if a >= b then a else b }
  function Min(a: int, b: int): int { if a <= b then a else b }

  /** The pairs from `i` on, in order. */
  function AdjustFrom(s: seq<Option<ShiftDetails>>, i: nat): (r: seq<Option<ShiftDetails>>)
    ensures |r| == |s|
    decreases |s| - i
  {
    if i + 1 >= |s| then s else AdjustFrom(AdjustPair(s, i), i + 1)
  }

  /** The whole list after `_adjust_overlapping_shifts`. */
  function Adjusted(s: seq<Option<ShiftDetails>>): seq<Option<ShiftDetails>> {
    AdjustFrom(s, 0)
  }

  /** `t` is `s` with windows only narrowed: same entries present, same
      shifts, openings never earlier and closings never later. */
  predicate Narrowed(s: seq<Option<ShiftDetails>>, t: seq<Option<ShiftDetails>>) {
    |t| == |s|
    && forall k :: 0 <= k < |s| ==>
         t[k].Some? == s[k].Some?
         && (t[k].Some? ==>
               t[k].value.shiftType == s[k].value.shiftType
               && t[k].value.startDatetime == s[k].value.startDatetime
               && t[k].value.endDatetime == s[k].value.endDatetime
               && s[k].value.actualStart <= t[k].value.actualStart
               && t[k].value.actualEnd <= s[k].value.actualEnd)
  }

  /** Consecutive present windows do not overlap and do not open before the
      previous shift has ended, for every pair before `i`. */
  predicate SeparatedBefore(t: seq<Option<ShiftDetails>>, i: int) {
    forall k :: 0 <= k < i && k + 1 < |t| && t[k].Some? && t[k + 1].Some? ==>
      t[k + 1].value.actualStart >= t[k].value.endDatetime
      && t[k].value.actualEnd <= t[k + 1].value.actualStart
  }

  lemma AdjustPairStep(orig: seq<Option<ShiftDetails>>, s: seq<Option<ShiftDetails>>, i: nat)
    requires i + 1 < |s| && Narrowed(orig, s) && SeparatedBefore(s, i)
    ensures Narrowed(orig, AdjustPair(s, i)) && SeparatedBefore(AdjustPair(s, i), i + 1)
  {
    var t := AdjustPair(s, i);
    assert forall k :: 0 <= k < |s| && k != i && k != i + 1 ==> t[k] == s[k];
    if s[i].Some? && s[i + 1].Some? {
      assert t[i].value.actualStart == s[i].value.actualStart;
      assert t[i + 1].value.actualEnd == s[i + 1].value.actualEnd;
    }
  }

  lemma {:induction false} AdjustFromSeparates(orig: seq<Option<ShiftDetails>>, s: seq<Option<ShiftDetails>>, i: nat)
    requires Narrowed(orig, s) && SeparatedBefore(s, i)
    ensures Narrowed(orig, AdjustFrom(s, i)) && SeparatedBefore(AdjustFrom(s, i), |s|)
    decreases |s| - i
  {
    if i + 1 >= |s| {
    } else {
      AdjustPairStep(orig, s, i);
      AdjustFromSeparates(orig, AdjustPair(s, i), i + 1);
    }
  }

  /** After trimming, the list has the same length and entries in the same
      order with narrowed windows, and every consecutive pair of present
      windows is separated. */
  lemma AdjustedSeparatesWindows(s: seq<Option<ShiftDetails>>)
    ensures Narrowed(s, Adjusted(s))
    ensures SeparatedBefore(Adjusted(s), |s|)
  {
    AdjustFromSeparates(s, s, 0);
  }

  /** `_adjust_overlapping_shifts`, in place. */
  method AdjustOverlappingShifts(shifts: array<Option<ShiftDetails>>)
    modifies shifts
    ensures shifts[..] == Adjusted(old(shifts[..]))
  {
    if shifts.Length <= 1 {
      return;
    }
    var i := 0;
    while i < shifts.Length - 1
      invariant 0 <= i <= shifts.Length - 1
      invariant AdjustFrom(shifts[..], i) == Adjusted(old(shifts[..]))
    {
      var curr := shifts[i];
      var next := shifts[i + 1];
      ghost var before := shifts[..];
      if curr.Some? && next.Some? {
        var start := Max(curr.value.endDatetime, next.value.actualStart);
        var next' := next.value.(actualStart := start);
        var curr' := curr.value.(actualEnd := Min(next'.actualStart, curr.value.actualEnd));
        shifts[i] := Some(curr');
        shifts[i + 1] := Some(next');
      }
      assert shifts[..] == AdjustPair(before, i);
      i := i + 1;
    }
  }

  /* ---------------- choosing the shift ---------------- */

  /** `get_exact_shift`: the first present shift whose window contains `ts`. */
  function GetExactShift(shifts: seq<Option<ShiftDetails>>, ts: int): (r: Option<ShiftDetails>)
    ensures r.Some? ==> exists k :: (0 <= k < |shifts| && shifts[k] == r
                                     && forall j :: 0 <= j < k ==> !(shifts[j].Some? && IsTimestampWithinShift(shifts[j].value, ts)))
    ensures r.Some? ==> IsTimestampWithinShift(r.value, ts)
    ensures r.None? <==> forall k :: 0 <= k < |shifts| ==> !(shifts[k].Some? && IsTimestampWithinShift(shifts[k].value, ts))
  {
    if |shifts| == 0 then None
    else if shifts[0].Some? && IsTimestampWithinShift(shifts[0].value, ts) then shifts[0]
    else
      var r := GetExactShift(shifts[1..], ts);
      assert forall k :: 1 <= k < |shifts| ==> shifts[k] == shifts[1..][k - 1];
      if r.Some? then
        var k :| 0 <= k < |shifts[1..]| && shifts[1..][k] == r
                 && forall j :: 0 <= j < k ==> !(shifts[1..][j].Some? && IsTimestampWithinShift(shifts[1..][j].value, ts));
        assert shifts[k + 1] == r;
        r
      else r
  }

  /** One assignment's contribution to the candidates: its shift around
      `ts` when inside the assignment period and containing `ts`. */
  function Screen(types: map<string, ShiftType>, a: Assignment, ts: int)
    : (r: Result<Option<ShiftDetails>, ShiftError>)
    ensures r.Success? && r.value.Some? ==>
              IsTimestampWithinShift(r.value.value, ts) && !IsShiftOutsideAssignmentPeriod(r.value.value, a)
  {
    var details :- GetShiftDetails(types, a.shiftType, ts);
    if details.None? then Failure(EmptyShiftDetails)
    else if IsShiftOutsideAssignmentPeriod(details.value, a) then Success(None)
    else if IsTimestampWithinShift(details.value, ts) then Success(Some(details.value))
    else Success(None)
  }

  /** The candidate shifts of the assignments, in assignment order. */
  function ValidShifts(types: map<string, ShiftType>, assignments: seq<Assignment>, ts: int)
    : (r: Result<seq<ShiftDetails>, ShiftError>)
    ensures r.Success? ==>
              forall k :: 0 <= k < |r.value| ==>
                IsTimestampWithinShift(r.value[k], ts)
                && exists j :: 0 <= j < |assignments| && !IsShiftOutsideAssignmentPeriod(r.value[k], assignments[j])
  {
    if |assignments| == 0 then Success([])
    else
      var last := assignments[|assignments| - 1];
      var prev :- ValidShifts(types, assignments[..|assignments| - 1], ts);
      var screened :- Screen(types, last, ts);
      if screened.Some? then Success(prev + [screened.value]) else Success(prev)
  }

  /** Sorted by window opening, non-decreasing. */
  predicate SortedByActualStart(s: seq<ShiftDetails>) {
    forall i, j :: 0 <= i < j < |s| ==> s[i].actualStart <= s[j].actualStart
  }

  /** Inserts after every entry opening no later, so equal openings keep
      their order. */
  function InsertByActualStart(s: seq<ShiftDetails>, x: ShiftDetails): (r: seq<ShiftDetails>)
    requires SortedByActualStart(s)
    ensures SortedByActualStart(r)
    ensures multiset(r) == multiset(s) + multiset{x}
    ensures |r| == |s| + 1 && (r[0] == x || (|s| > 0 && r[0] == s[0]))
  {
    if |s| == 0 then [x]
    else if x.actualStart < s[0].actualStart then [x] + s
    else
      var rest := InsertByActualStart(s[1..], x);
      assert s == [s[0]] + s[1..];
      assert s[0].actualStart <= rest[0].actualStart;
      [s[0]] + rest
  }

  /** The stable sort by window opening. */
  function SortByActualStart(s: seq<ShiftDetails>): (r: seq<ShiftDetails>)
    ensures SortedByActualStart(r)
    ensures multiset(r) == multiset(s)
  {
    if |s| == 0 then []
    else
      assert s == s[..|s| - 1] + [s[|s| - 1]];
      InsertByActualStart(SortByActualStart(s[..|s| - 1]), s[|s| - 1])
  }

  /** The entries of `s` that open at `t`, in order. */
  function OpeningAt(s: seq<ShiftDetails>, t: int): seq<ShiftDetails> {
    if |s| == 0 then [] else (if s[0].actualStart == t then [s[0]] else []) + OpeningAt(s[1..], t)
  }

  lemma {:induction false} OpeningAtAppend(a: seq<ShiftDetails>, b: seq<ShiftDetails>, t: int)
    ensures OpeningAt(a + b, t) == OpeningAt(a, t) + OpeningAt(b, t)
  {
    if |a| > 0 {
      assert (a + b)[0] == a[0];
      assert (a + b)[1..] == a[1..] + b;
      OpeningAtAppend(a[1..], b, t);
    } else {
      assert a + b == b;
    }
  }

  /** No entry of a sorted sequence opens before its first one. */
  lemma {:induction false} OpeningAtBeforeFirst(s: seq<ShiftDetails>, t: int)
    requires SortedByActualStart(s) && |s| > 0 && t < s[0].actualStart
    ensures OpeningAt(s, t) == []
  {
    if |s| > 1 {
      assert s[0].actualStart <= s[1].actualStart;
      OpeningAtBeforeFirst(s[1..], t);
    }
  }

  lemma SplitLast<T>(s: seq<T>)
    requires |s| > 0
    ensures s == s[..|s| - 1] + [s[|s| - 1]]
  {}

  /** Inserting `x` puts it after every entry of the same opening. */
  lemma {:induction false} InsertKeepsOpeningOrder(s: seq<ShiftDetails>, x: ShiftDetails, t: int)
    requires SortedByActualStart(s)
    ensures OpeningAt(InsertByActualStart(s, x), t)
            == OpeningAt(s, t) + (if x.actualStart == t then [x] else [])
  {
    var tail: seq<ShiftDetails> := if x.actualStart == t then [x] else [];
    if |s| == 0 {
      OpeningAtCons(x, [], t);
      EmptyConcat(tail);
    } else if x.actualStart < s[0].actualStart {
      assert InsertByActualStart(s, x) == [x] + s;
      OpeningAtCons(x, s, t);
      if x.actualStart == t {
        OpeningAtBeforeFirst(s, t);
      }
      EmptyConcat(tail);
      EmptyConcat(OpeningAt(s, t));
    } else {
      var rest := InsertByActualStart(s[1..], x);
      assert InsertByActualStart(s, x) == [s[0]] + rest;
      InsertKeepsOpeningOrder(s[1..], x, t);
      OpeningAtCons(s[0], rest, t);
      var head: seq<ShiftDetails> := if s[0].actualStart == t then [s[0]] else [];
      assert OpeningAt(s, t) == head + OpeningAt(s[1..], t);
      ConcatAssoc(head, OpeningAt(s[1..], t), tail);
    }
  }

  lemma EmptyConcat<T>(a: seq<T>)
    ensures a + [] == a && [] + a == a
  {}

  lemma ConcatAssoc<T>(a: seq<T>, b: seq<T>, c: seq<T>)
    ensures a + (b + c) == (a + b) + c
  {}

  lemma OpeningAtCons(x: ShiftDetails, s: seq<ShiftDetails>, t: int)
    ensures OpeningAt([x] + s, t) == (if x.actualStart == t then [x] else []) + OpeningAt(s, t)
  {
    assert ([x] + s)[1..] == s;
  }

  /** The sort is stable: the entries that open at the same time keep the
      order they had, so the first of them in the assignment order is the
      first after sorting. */
  lemma {:induction false} SortKeepsOpeningOrder(s: seq<ShiftDetails>, t: int)
    ensures OpeningAt(SortByActualStart(s), t) == OpeningAt(s, t)
  {
    if |s| > 0 {
      var init, last := s[..|s| - 1], s[|s| - 1];
      var sortedInit := SortByActualStart(init);
      assert SortByActualStart(s) == InsertByActualStart(sortedInit, last);
      var tail: seq<ShiftDetails> := if last.actualStart == t then [last] else [];
      SortKeepsOpeningOrder(init, t);
      InsertKeepsOpeningOrder(sortedInit, last, t);
      assert OpeningAt(SortByActualStart(s), t) == OpeningAt(init, t) + tail;
      SplitLast(s);
      OpeningAtAppend(init, [last], t);
      assert OpeningAt([last], t) == tail + OpeningAt([], t);
    }
  }

  function Present(s: seq<ShiftDetails>): (r: seq<Option<ShiftDetails>>)
    ensures |r| == |s| && forall k :: 0 <= k < |s| ==> r[k] == Some(s[k])
  {
    seq(|s|, k requires 0 <= k < |s| => Some(s[k]))
  }

  /** `get_shift_for_time`: candidates sorted by opening, trimmed, then the
      exact shift. */
  function ShiftForTime(types: map<string, ShiftType>, assignments: seq<Assignment>, ts: int)
    : Result<Option<ShiftDetails>, ShiftError>
  {
    var valid :- ValidShifts(types, assignments, ts);
    Success(GetExactShift(Adjusted(Present(SortByActualStart(valid))), ts))
  }

  /** The shift chosen for `ts` is one of the candidates (inside an
      assignment period and containing `ts`) with its window possibly
      trimmed, and the trimmed window still contains `ts`. */
  lemma ShiftForTimeIsCandidate(types: map<string, ShiftType>, assignments: seq<Assignment>, ts: int)
    requires ShiftForTime(types, assignments, ts).Success?
    requires ShiftForTime(types, assignments, ts).value.Some?
    ensures var d := ShiftForTime(types, assignments, ts).value.value;
      IsTimestampWithinShift(d, ts)
      && exists c :: (c in ValidShifts(types, assignments, ts).value
                      && c.shiftType == d.shiftType && c.startDatetime == d.startDatetime
                      && c.endDatetime == d.endDatetime
                      && c.actualStart <= d.actualStart && d.actualEnd <= c.actualEnd)
  {
    var valid := ValidShifts(types, assignments, ts).value;
    var sorted := SortByActualStart(valid);
    var present := Present(sorted);
    var adjusted := Adjusted(present);
    AdjustedSeparatesWindows(present);
    var d := GetExactShift(adjusted, ts).value;
    var k :| 0 <= k < |adjusted| && adjusted[k] == Some(d);
    var c := sorted[k];
    assert c in multiset(sorted);
    assert c in valid;
  }

  /** The screening loop of `get_shift_for_time`: the shifts of the
      assignments that pass, in order, or the first failure. */
  method CollectValidShifts(types: map<string, ShiftType>, assignments: seq<Assignment>, ts: int)
    returns (r: Result<seq<ShiftDetails>, ShiftError>)
    ensures r == ValidShifts(types, assignments, ts)
  {
    var valid: seq<ShiftDetails> := [];
    var i := 0;
    while i < |assignments|
      invariant 0 <= i <= |assignments|
      invariant ValidShifts(types, assignments[..i], ts) == Success(valid)
    {
      assert assignments[..i + 1][..i] == assignments[..i];
      var screened := Screen(types, assignments[i], ts);
      if screened.Failure? {
        r := Failure(screened.error);
        assert ValidShifts(types, assignments[..i + 1], ts).Failure?;
        PrefixFailurePropagates(types, assignments, ts, i + 1);
        return;
      }
      if screened.value.Some? {
        valid := valid + [screened.value.value];
      }
      i := i + 1;
    }
    assert assignments[..i] == assignments;
    r := Success(valid);
  }

  /** `get_shift_for_time` as the program runs it: the candidates are
      collected in a loop, sorted, copied into a list and trimmed in
      place. */
  method GetShiftForTime(types: map<string, ShiftType>, assignments: seq<Assignment>, ts: int)
    returns (r: Result<Option<ShiftDetails>, ShiftError>)
    ensures r == ShiftForTime(types, assignments, ts)
  {
    var valid := CollectValidShifts(types, assignments, ts);
    if valid.Failure? {
      return Failure(valid.error);
    }
    var sorted := SortByActualStart(valid.value);
    var shifts := new Option<ShiftDetails>[|sorted|](k requires 0 <= k < |sorted| => Some(sorted[k]));
    assert shifts[..] == Present(sorted);
    AdjustOverlappingShifts(shifts);
    r := Success(GetExactShift(shifts[..], ts));
  }


  /** A failure on a prefix of the assignments is the failure of the whole
      list. */
  lemma {:induction false} PrefixFailurePropagates(types: map<string, ShiftType>, assignments: seq<Assignment>, ts: int, n: nat)
    requires n <= |assignments|
    requires ValidShifts(types, assignments[..n], ts).Failure?
    ensures ValidShifts(types, assignments, ts) == ValidShifts(types, assignments[..n], ts)
    decreases |assignments| - n
  {
    if n < |assignments| {
      var m := |assignments|;
      assert assignments[..m] == assignments;
      assert assignments[..m - 1][..n] == assignments[..n];
      PrefixFailurePropagates(types, assignments[..m - 1], ts, n);
      var prev := ValidShifts(types, assignments[..m - 1], ts);
      assert ValidShifts(types, assignments, ts) == Failure(prev.error) == prev;
    } else {
      assert assignments[..n] == assignments;
    }
  }
}
