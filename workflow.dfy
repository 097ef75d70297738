/** The checks and bookkeeping of a Workflow document: which transitions
    between states are allowed by their document statuses, which state each
    document status defaults to, and which state's documents must have their
    status rewritten when a state's document status is edited. A state's
    `docStatus` is the text of the select field ("0" draft, "1" submitted,
    "2" cancelled). The database writes the source issues are returned as
    lists of updates. */
module Workflow {
  import opened Wrappers

  /** A row of the `states` table. */
  datatype WorkflowState = WorkflowState(state: string, docStatus: string)

  /** A row of the `transitions` table. */
  datatype Transition = Transition(idx: int, state: string, nextState: string)

  datatype WorkflowError =
    | NotAValidState(state: string)        // a transition names a state not in the table
    | CancelledStateChange(idx: int)       // a transition out of a cancelled state
    | SubmittedToDraft(idx: int)           // a transition from submitted back to draft
    | CancelBeforeSubmit(idx: int)         // a transition from draft straight to cancelled

  /* ---------------- transition validation ---------------- */

  predicate HasState(states: seq<WorkflowState>, name: string) {
    exists k :: 0 <= k < |states| && states[k].state == name
  }

  /** `get_state`: the first row with that state name. */
  function GetState(states: seq<WorkflowState>, name: string): (r: Result<WorkflowState, WorkflowError>)
    ensures r.Success? <==> HasState(states, name)
    ensures r.Success? ==> r.value.state == name && r.value in states
    ensures r.Success? ==> exists k :: 0 <= k < |states| && states[k] == r.value
                                      && forall j :: 0 <= j < k ==> states[j].state != name
    ensures r.Failure? ==> r.error == NotAValidState(name)
  {
    if |states| == 0 then Failure(NotAValidState(name))
    else if states[0].state == name then Success(states[0])
    else
      var r := GetState(states[1..], name);
      assert forall k :: 1 <= k < |states| ==> states[k] == states[1..][k - 1];
      r
  }

  /** The complaint about a transition between states of these document
      statuses, in the order the source checks them. */
  function DocstatusError(from: string, to: string, idx: int): Option<WorkflowError> {
    if from == "2" then Some(CancelledStateChange(idx))
    else if from == "1" && to == "0" then Some(SubmittedToDraft(idx))
    else if from == "0" && to == "2" then Some(CancelBeforeSubmit(idx))
    else None
  }

  /** Between the three document statuses exactly four moves are allowed:
      draft to draft or submitted, and submitted to submitted or cancelled. */
  lemma AllowedDocstatusMoves(from: string, to: string, idx: int)
    requires from in {"0", "1", "2"} && to in {"0", "1", "2"}
    ensures DocstatusError(from, to, idx).None? <==>
              (from, to) in {("0", "0"), ("0", "1"), ("1", "1"), ("1", "2")}
  {
    if DocstatusError(from, to, idx).None? {
      assert from != "2";
      assert (from, to) in {("0", "0"), ("0", "1"), ("1", "1"), ("1", "2")};
    }
  }

  /** Why one transition is refused, if it is. */
  function TransitionError(states: seq<WorkflowState>, t: Transition): (r: Option<WorkflowError>)
    ensures r.None? <==> HasState(states, t.state) && HasState(states, t.nextState)
                         && DocstatusError(GetState(states, t.state).value.docStatus,
                                           GetState(states, t.nextState).value.docStatus, t.idx).None?
  {
    match GetState(states, t.state)
    case Failure(e) => Some(e)
    case Success(from) =>
      match GetState(states, t.nextState)
      case Failure(e) => Some(e)
      case Success(to) => DocstatusError(from.docStatus, to.docStatus, t.idx)
  }

  /** `validate_docstatus`: every transition names known states and moves
      between allowed document statuses; the first offending transition
      decides the error. */
  function ValidateDocstatus(states: seq<WorkflowState>, transitions: seq<Transition>): (r: Outcome<WorkflowError>)
    ensures r.Pass? <==> forall k :: 0 <= k < |transitions| ==> TransitionError(states, transitions[k]).None?
    ensures r.Fail? ==> exists k :: 0 <= k < |transitions| && TransitionError(states, transitions[k]) == Some(r.error)
                                    && forall j :: 0 <= j < k ==> TransitionError(states, transitions[j]).None?
  {
    if |transitions| == 0 then Pass
    else
      match TransitionError(states, transitions[0])
      case Some(e) => Fail(e)
      case None =>
        var r := ValidateDocstatus(states, transitions[1..]);
        assert forall k :: 1 <= k < |transitions| ==> transitions[k] == transitions[1..][k - 1];
        assert r.Fail? ==> exists k :: 0 <= k < |transitions| && TransitionError(states, transitions[k]) == Some(r.error)
                                       && forall j :: 0 <= j < k ==> TransitionError(states, transitions[j]).None? by {
          if r.Fail? {
            var k :| 0 <= k < |transitions[1..]| && TransitionError(states, transitions[1..][k]) == Some(r.error)
                     && forall j :: 0 <= j < k ==> TransitionError(states, transitions[1..][j]).None?;
            assert TransitionError(states, transitions[k + 1]) == Some(r.error);
            assert forall j :: 0 <= j < k + 1 ==> TransitionError(states, transitions[j]).None?;
          }
        }
        r
  }

  /** A validated workflow never leaves a cancelled state and never moves
      from submitted to draft or from draft to cancelled. */
  lemma ValidatedTransitionsRespectDocstatus(states: seq<WorkflowState>, transitions: seq<Transition>, k: nat)
    requires ValidateDocstatus(states, transitions).Pass? && k < |transitions|
    ensures var from := GetState(states, transitions[k].state);
      var to := GetState(states, transitions[k].nextState);
      from.Success? && to.Success?
      && from.value.docStatus != "2"
      && !(from.value.docStatus == "1" && to.value.docStatus == "0")
      && !(from.value.docStatus == "0" && to.value.docStatus == "2")
  {
    assert TransitionError(states, transitions[k]).None?;
  }

  /* ---------------- default state per document status ---------------- */

  /** The map `update_default_workflow_status` builds from the state rows:
      a document status is mapped to the first state that has it. */
  function DefaultStates(states: seq<WorkflowState>): (m: map<string, string>)
    ensures forall ds :: ds in m <==> exists k :: 0 <= k < |states| && states[k].docStatus == ds
  {
    if |states| == 0 then map[]
    else
      var init := states[..|states| - 1];
      assert forall k :: 0 <= k < |init| ==> init[k] == states[k];
      var m := DefaultStates(init);
      var last := states[|states| - 1];
      if last.docStatus in m then m else m[last.docStatus := last.state]
  }

  /** The updates issued, one per document status, in row order: documents
      with that status and no workflow state get the state. */
  function DefaultUpdates(states: seq<WorkflowState>): seq<(string, string)> {
    if |states| == 0 then []
    else
      var init := states[..|states| - 1];
      var last := states[|states| - 1];
      if last.docStatus in DefaultStates(init) then DefaultUpdates(init)
      else DefaultUpdates(init) + [(last.state, last.docStatus)]
  }

  /** The default of a document status is its first state; later states with
      the same document status are ignored. */
  lemma {:induction false} DefaultIsFirstState(states: seq<WorkflowState>, k: nat)
    requires k < |states|
    requires forall j :: 0 <= j < k ==> states[j].docStatus != states[k].docStatus
    ensures DefaultStates(states)[states[k].docStatus] == states[k].state
  {
    if k < |states| - 1 {
      var init := states[..|states| - 1];
      assert init[k] == states[k];
      DefaultIsFirstState(init, k);
    } else {
      var init := states[..|states| - 1];
      assert forall j :: 0 <= j < |init| ==> init[j] == states[j];
    }
  }

  /** Every update names a document status and its default state. */
  lemma {:induction false} DefaultUpdatesNameDefaults(states: seq<WorkflowState>)
    ensures forall i :: 0 <= i < |DefaultUpdates(states)| ==>
              DefaultUpdates(states)[i].1 in DefaultStates(states)
              && DefaultStates(states)[DefaultUpdates(states)[i].1] == DefaultUpdates(states)[i].0
  {
    if |states| > 0 {
      var init := states[..|states| - 1];
      var last := states[|states| - 1];
      DefaultUpdatesNameDefaults(init);
      var u0, m0 := DefaultUpdates(init), DefaultStates(init);
      var u, m := DefaultUpdates(states), DefaultStates(states);
      if last.docStatus in m0 {
        assert u == u0 && m == m0;
      } else {
        assert u == u0 + [(last.state, last.docStatus)];
        assert m == m0[last.docStatus := last.state];
        forall i | 0 <= i < |u|
          ensures u[i].1 in m && m[u[i].1] == u[i].0
        {
          if i < |u0| {
            assert u[i].0 == u0[i].0 && u[i].1 == u0[i].1;
          } else {
            assert u[i].0 == last.state && u[i].1 == last.docStatus;
          }
        }
      }
    }
  }

  /** Every document status gets an update. */
  lemma {:induction false} DefaultUpdatesCoverStatuses(states: seq<WorkflowState>, ds: string)
    requires ds in DefaultStates(states)
    ensures exists i :: 0 <= i < |DefaultUpdates(states)| && DefaultUpdates(states)[i].1 == ds
  {
    var init := states[..|states| - 1];
    var last := states[|states| - 1];
    var u0 := DefaultUpdates(init);
    var u := DefaultUpdates(states);
    if last.docStatus !in DefaultStates(init) && ds == last.docStatus {
      assert u[|u0|].1 == ds;
    } else {
      DefaultUpdatesCoverStatuses(init, ds);
      var i :| 0 <= i < |u0| && u0[i].1 == ds;
      assert u[i].1 == u0[i].1;
    }
  }

  /** No document status is updated twice. */
  lemma {:induction false} DefaultUpdatesDistinct(states: seq<WorkflowState>)
    ensures forall i, j :: 0 <= i < j < |DefaultUpdates(states)| ==> DefaultUpdates(states)[i].1 != DefaultUpdates(states)[j].1
  {
    if |states| > 0 {
      var init := states[..|states| - 1];
      var last := states[|states| - 1];
      DefaultUpdatesDistinct(init);
      DefaultUpdatesNameDefaults(init);
      var u0, m0 := DefaultUpdates(init), DefaultStates(init);
      var u := DefaultUpdates(states);
      if last.docStatus in m0 {
        assert u == u0;
      } else {
        assert u == u0 + [(last.state, last.docStatus)];
        forall i, j | 0 <= i < j < |u|
          ensures u[i].1 != u[j].1
        {
          assert u[i].1 == u0[i].1;
          if j < |u0| {
            assert u[j].1 == u0[j].1;
          } else {
            assert u[j].1 == last.docStatus;
          }
        }
      }
    }
  }

  /** `update_default_workflow_status`: the loop over the states, returning
      the map and the updates it issues. */
  method UpdateDefaultWorkflowStatus(states: seq<WorkflowState>)
    returns (docstatusMap: map<string, string>, updates: seq<(string, string)>)
    ensures docstatusMap == DefaultStates(states)
    ensures updates == DefaultUpdates(states)
  {
    docstatusMap := map[];
    updates := [];
    var i := 0;
    while i < |states|
      invariant 0 <= i <= |states|
      invariant docstatusMap == DefaultStates(states[..i])
      invariant updates == DefaultUpdates(states[..i])
    {
      var d := states[i];
      assert states[..i + 1][..i] == states[..i];
      if d.docStatus !in docstatusMap {
        updates := updates + [(d.state, d.docStatus)];
        docstatusMap := docstatusMap[d.docStatus := d.state];
      }
      i := i + 1;
    }
    assert states[..i] == states;
  }

  /* ---------------- document status edits ---------------- */

  /** `{d.state: d for d in states}`: a repeated state name keeps its last
      row. */
  function StateMap(states: seq<WorkflowState>): (m: map<string, WorkflowState>)
    ensures forall name :: name in m <==> HasState(states, name)
    ensures forall name :: name in m ==> m[name].state == name
  {
    if |states| == 0 then map[]
    else
      var init := states[..|states| - 1];
      assert forall k :: 0 <= k < |init| ==> init[k] == states[k];
      StateMap(init)[states[|states| - 1].state := states[|states| - 1]]
  }

  /** The keys of that dictionary in the order it iterates them: by first
      occurrence. */
  function KeyOrder(states: seq<WorkflowState>): (r: seq<string>)
    ensures forall name :: name in r <==> HasState(states, name)
    ensures forall i, j :: 0 <= i < j < |r| ==> r[i] != r[j]
  {
    if |states| == 0 then []
    else
      var init := states[..|states| - 1];
      assert forall k :: 0 <= k < |init| ==> init[k] == states[k];
      var r := KeyOrder(init);
      if states[|states| - 1].state in r then r else r + [states[|states| - 1].state]
  }

  /** The status rewrites for the keys in `keys`: a state present before
      and after whose document status changed. */
  function ChangedStates(keys: seq<string>, now: map<string, WorkflowState>, before: map<string, WorkflowState>)
    : seq<(string, string)>
  {
    if |keys| == 0 then []
    else
      var key := keys[0];
      var rest := ChangedStates(keys[1..], now, before);
      if key in now && key in before && now[key].docStatus != before[key].docStatus then [(key, now[key].docStatus)] + rest
      else rest
  }

  /** One pass of the `update_doc_status` loop: the rewrite of key `i`, if
      any, moves from the rewrites still to come to those already issued. */
  lemma ChangedStatesStep(keys: seq<string>, now: map<string, WorkflowState>, before: map<string, WorkflowState>, i: nat,
                          updates: seq<(string, string)>, total: seq<(string, string)>)
    requires i < |keys| && keys[i] in now
    requires updates + ChangedStates(keys[i..], now, before) == total
    ensures keys[i] in before && now[keys[i]].docStatus != before[keys[i]].docStatus ==>
              (updates + [(keys[i], now[keys[i]].docStatus)]) + ChangedStates(keys[i + 1..], now, before) == total
    ensures !(keys[i] in before && now[keys[i]].docStatus != before[keys[i]].docStatus) ==>
              updates + ChangedStates(keys[i + 1..], now, before) == total
  {
    assert keys[i..][0] == keys[i];
    assert keys[i..][1..] == keys[i + 1..];
    var rest := ChangedStates(keys[i + 1..], now, before);
    if keys[i] in before && now[keys[i]].docStatus != before[keys[i]].docStatus {
      var x := (keys[i], now[keys[i]].docStatus);
      assert ChangedStates(keys[i..], now, before) == [x] + rest;
      assert (updates + [x]) + rest == updates + ([x] + rest);
    }
  }

  /** The updates `update_doc_status` issues: none without a previous
      version of the document. */
  function DocStatusUpdates(before: Option<seq<WorkflowState>>, states: seq<WorkflowState>): seq<(string, string)> {
    match before
    case None => []
    case Some(prev) => ChangedStates(KeyOrder(states), StateMap(states), StateMap(prev))
  }

  lemma {:induction false} ChangedStatesAre(keys: seq<string>, now: map<string, WorkflowState>,
                                            before: map<string, WorkflowState>, name: string, ds: string)
    requires forall k :: k in keys ==> k in now
    ensures (name, ds) in ChangedStates(keys, now, before) <==>
              name in keys && name in before && now[name].docStatus != before[name].docStatus && ds == now[name].docStatus
  {
    if |keys| > 0 {
      ChangedStatesAre(keys[1..], now, before, name, ds);
      assert forall k :: k in keys <==> k == keys[0] || k in keys[1..];
    }
  }

  /** A state's documents are rewritten exactly when the state is present
      before and after the save and its document status changed, and then
      to its new document status. */
  lemma DocStatusUpdatesAreChanges(prev: seq<WorkflowState>, states: seq<WorkflowState>, name: string, ds: string)
    ensures (name, ds) in DocStatusUpdates(Some(prev), states) <==>
              HasState(states, name) && HasState(prev, name)
              && StateMap(states)[name].docStatus != StateMap(prev)[name].docStatus
              && ds == StateMap(states)[name].docStatus
  {
    ChangedStatesAre(KeyOrder(states), StateMap(states), StateMap(prev), name, ds);
  }

  /** The row a state name maps to is the last row with that name. */
  lemma {:induction false} StateMapIsLastRow(states: seq<WorkflowState>, k: nat)
    requires k < |states|
    requires forall j :: k < j < |states| ==> states[j].state != states[k].state
    ensures StateMap(states)[states[k].state] == states[k]
  {
    if k < |states| - 1 {
      var init := states[..|states| - 1];
      assert init[k] == states[k];
      StateMapIsLastRow(init, k);
    }
  }

  /** Builds the state dictionary and its key order with one loop. */
  method CollectStates(states: seq<WorkflowState>) returns (m: map<string, WorkflowState>, order: seq<string>)
    ensures m == StateMap(states) && order == KeyOrder(states)
  {
    m := map[];
    order := [];
    var i := 0;
    while i < |states|
      invariant 0 <= i <= |states|
      invariant m == StateMap(states[..i]) && order == KeyOrder(states[..i])
    {
      assert states[..i + 1][..i] == states[..i];
      if states[i].state !in order {
        order := order + [states[i].state];
      }
      m := m[states[i].state := states[i]];
      i := i + 1;
    }
    assert states[..i] == states;
  }

  /** `update_doc_status`: the state dictionaries before and after the
      save, then one update per changed state. */
  method UpdateDocStatus(before: Option<seq<WorkflowState>>, states: seq<WorkflowState>)
    returns (updates: seq<(string, string)>)
    ensures updates == DocStatusUpdates(before, states)
  {
    updates := [];
    if before.None? {
      return;
    }
    var beforeStates, _ := CollectStates(before.value);
    var newStates, keys := CollectStates(states);
    ghost var total := ChangedStates(keys, newStates, beforeStates);
    assert keys[0..] == keys;
    var i := 0;
    while i < |keys|
      invariant 0 <= i <= |keys|
      invariant updates + ChangedStates(keys[i..], newStates, beforeStates) == total
    {
      var key := keys[i];
      assert key in newStates;
      ChangedStatesStep(keys, newStates, beforeStates, i, updates, total);
      if key in beforeStates && newStates[key].docStatus != beforeStates[key].docStatus {
        updates := updates + [(key, newStates[key].docStatus)];
      }
      i := i + 1;
    }
  }
}
