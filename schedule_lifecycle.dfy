/** The life of Asset Depreciation Schedule documents over an abstract
    collection of saved schedules: the rule that an asset has at most one
    draft or submitted schedule per finance book, and the submit and cancel
    transitions (Draft → Active → Cancelled). */
module ScheduleLifecycle {
  import opened Wrappers
  import opened DepreciationSchedule

  /** A saved schedule; an empty finance book is "not set". */
  datatype ScheduleRecord = ScheduleRecord(
    name: string,
    asset: string,
    financeBook: string,
    docstatus: int,
    status: ScheduleStatus)

  datatype LifecycleError =
    | DuplicateSchedule(existing: string)   // another live schedule for the same asset and book
    | NotDraft                              // only a draft can be submitted
    | NotSubmitted                          // only a submitted schedule can be cancelled
    | UnknownSchedule                       // no schedule of that name

  /** Not cancelled: docstatus 0 (draft) or 1 (submitted). */
  predicate Live(s: ScheduleRecord) {
    s.docstatus < 2
  }

  predicate SamePair(s: ScheduleRecord, asset: string, financeBook: string) {
    s.asset == asset && s.financeBook == financeBook
  }

  /** The first live schedule of the asset and finance book, as the
      existence query of the validation returns it. */
  function ExistingSchedule(db: seq<ScheduleRecord>, asset: string, financeBook: string): (r: Option<string>)
    ensures r.None? <==> forall i :: 0 <= i < |db| ==> !(SamePair(db[i], asset, financeBook) && Live(db[i]))
    ensures r.Some? ==> exists i :: 0 <= i < |db| && SamePair(db[i], asset, financeBook) && Live(db[i]) && db[i].name == r.value
  {
    if |db| == 0 then None
    else if SamePair(db[0], asset, financeBook) && Live(db[0]) then Some(db[0].name)
    else
      var r := ExistingSchedule(db[1..], asset, financeBook);
      assert forall i :: 1 <= i < |db| ==> db[i] == db[1..][i - 1];
      r
  }

  /** `validate_another_asset_depr_schedule_does_not_exist`: the document
      may be saved unless the query finds a live schedule of the same asset
      and finance book under another name. */
  function ValidateAnotherAssetDeprScheduleDoesNotExist(db: seq<ScheduleRecord>, doc: ScheduleRecord)
    : (r: Outcome<LifecycleError>)
    ensures r.Fail? ==> exists i :: 0 <= i < |db| && SamePair(db[i], doc.asset, doc.financeBook) && Live(db[i])
                                    && db[i].name != doc.name
    ensures (forall i :: 0 <= i < |db| && SamePair(db[i], doc.asset, doc.financeBook) && Live(db[i]) ==>
               db[i].name == doc.name) ==> r.Pass?
  {
    var existing := ExistingSchedule(db, doc.asset, doc.financeBook);
    if existing.Some? && existing.value != doc.name then Fail(DuplicateSchedule(existing.value)) else Pass
  }

  /** At most one live schedule per asset and finance book, and names are
      unique. */
  predicate OneLiveSchedulePerPair(db: seq<ScheduleRecord>) {
    forall i, j :: 0 <= i < j < |db| ==>
      db[i].name != db[j].name
      && !(Live(db[i]) && Live(db[j]) && db[i].asset == db[j].asset && db[i].financeBook == db[j].financeBook)
  }

  /** The document status agrees with the docstatus. */
  predicate StatusMatchesDocstatus(s: ScheduleRecord) {
    (s.docstatus == 0 && s.status == Draft)
    || (s.docstatus == 1 && s.status == Active)
    || (s.docstatus == 2 && s.status == Cancelled)
  }

  predicate Consistent(db: seq<ScheduleRecord>) {
    OneLiveSchedulePerPair(db) && forall i :: 0 <= i < |db| ==> StatusMatchesDocstatus(db[i])
  }

  predicate NameFree(db: seq<ScheduleRecord>, name: string) {
    forall i :: 0 <= i < |db| ==> db[i].name != name
  }

  /** Saving a new draft schedule: validated first, then stored. */
  function InsertDraft(db: seq<ScheduleRecord>, name: string, asset: string, financeBook: string)
    : (r: Result<seq<ScheduleRecord>, LifecycleError>)
    ensures r.Success? ==> r.value == db + [ScheduleRecord(name, asset, financeBook, 0, Draft)]
    ensures r.Failure? <==> ValidateAnotherAssetDeprScheduleDoesNotExist(db, ScheduleRecord(name, asset, financeBook, 0, Draft)).Fail?
  {
    var doc := ScheduleRecord(name, asset, financeBook, 0, Draft);
    match ValidateAnotherAssetDeprScheduleDoesNotExist(db, doc)
    case Fail(e) => Failure(e)
    case Pass => Success(db + [doc])
  }

  /** The position of the schedule named `name`. */
  function IndexOf(db: seq<ScheduleRecord>, name: string): (r: Option<nat>)
    ensures r.Some? ==> r.value < |db| && db[r.value].name == name
    ensures r.None? ==> NameFree(db, name)
  {
    if |db| == 0 then None
    else if db[0].name == name then Some(0)
    else
      match IndexOf(db[1..], name)
      case None => None
      case Some(k) => Some(k + 1)
  }

  /** `on_submit`: a draft becomes submitted and Active. */
  function Submit(db: seq<ScheduleRecord>, name: string): (r: Result<seq<ScheduleRecord>, LifecycleError>)
    ensures r.Success? ==>
              exists k :: (0 <= k < |db| && db[k].name == name && db[k].docstatus == 0
                           && r.value == db[k := db[k].(docstatus := 1, status := Active)])
  {
    match IndexOf(db, name)
    case None => Failure(UnknownSchedule)
    case Some(k) =>
      if db[k].docstatus != 0 then Failure(NotDraft)
      else Success(db[k := db[k].(docstatus := 1, status := Active)])
  }

  /** `on_cancel`: a submitted schedule becomes cancelled. */
  function Cancel(db: seq<ScheduleRecord>, name: string): (r: Result<seq<ScheduleRecord>, LifecycleError>)
    ensures r.Success? ==>
              exists k :: (0 <= k < |db| && db[k].name == name && db[k].docstatus == 1
                           && r.value == db[k := db[k].(docstatus := 2, status := Cancelled)])
  {
    match IndexOf(db, name)
    case None => Failure(UnknownSchedule)
    case Some(k) =>
      if db[k].docstatus != 1 then Failure(NotSubmitted)
      else Success(db[k := db[k].(docstatus := 2, status := Cancelled)])
  }

  /** A validated draft under a new name keeps the collection consistent. */
  lemma InsertDraftKeepsConsistent(db: seq<ScheduleRecord>, name: string, asset: string, financeBook: string)
    requires Consistent(db) && NameFree(db, name)
    requires InsertDraft(db, name, asset, financeBook).Success?
    ensures Consistent(InsertDraft(db, name, asset, financeBook).value)
  {
    var doc := ScheduleRecord(name, asset, financeBook, 0, Draft);
    var db' := db + [doc];
    assert ValidateAnotherAssetDeprScheduleDoesNotExist(db, doc).Pass?;
    assert ExistingSchedule(db, asset, financeBook).None?;
    forall i, j | 0 <= i < j < |db'|
      ensures db'[i].name != db'[j].name
      ensures !(Live(db'[i]) && Live(db'[j]) && db'[i].asset == db'[j].asset && db'[i].financeBook == db'[j].financeBook)
    {
      if j == |db| {
        assert db'[i] == db[i] && db'[j] == doc;
      } else {
        assert db'[i] == db[i] && db'[j] == db[j];
      }
    }
  }

  /** Submitting keeps the collection consistent: the same schedules stay
      live. */
  lemma SubmitKeepsConsistent(db: seq<ScheduleRecord>, name: string)
    requires Consistent(db) && Submit(db, name).Success?
    ensures Consistent(Submit(db, name).value)
  {
    var k :| 0 <= k < |db| && db[k].name == name && db[k].docstatus == 0
      && Submit(db, name).value == db[k := db[k].(docstatus := 1, status := Active)];
    var db' := Submit(db, name).value;
    assert forall i :: 0 <= i < |db| ==>
                         (db'[i].name == db[i].name && Live(db'[i]) == Live(db[i])
                          && db'[i].asset == db[i].asset && db'[i].financeBook == db[i].financeBook);
  }

  /** Cancelling keeps the collection consistent and frees the asset and
      finance book for a new schedule. */
  lemma CancelKeepsConsistent(db: seq<ScheduleRecord>, name: string)
    requires Consistent(db) && Cancel(db, name).Success?
    ensures var db' := Cancel(db, name).value;
      Consistent(db')
      && exists k :: (0 <= k < |db| && db[k].name == name
                      && ExistingSchedule(db', db[k].asset, db[k].financeBook).None?)
  {
    var k :| 0 <= k < |db| && db[k].name == name && db[k].docstatus == 1
      && Cancel(db, name).value == db[k := db[k].(docstatus := 2, status := Cancelled)];
    var db' := Cancel(db, name).value;
    assert forall i :: 0 <= i < |db| ==>
                         (db'[i].name == db[i].name && (Live(db'[i]) ==> Live(db[i]))
                          && db'[i].asset == db[i].asset && db'[i].financeBook == db[i].financeBook);
    assert !Live(db'[k]);
    assert forall i :: 0 <= i < |db'| && i != k && SamePair(db[i], db[k].asset, db[k].financeBook) ==> !Live(db[i]);
  }

  /** A cancelled schedule stays cancelled: it can be neither submitted nor
      cancelled again. */
  lemma CancelledIsFinal(db: seq<ScheduleRecord>, name: string)
    requires IndexOf(db, name).Some? && db[IndexOf(db, name).value].docstatus == 2
    ensures Submit(db, name) == Failure(NotDraft)
    ensures Cancel(db, name) == Failure(NotSubmitted)
  {}
}
