/** The tree logic of a BOM Creator document: which rows are sub-assemblies
    (expandable), how a row is linked to its parent row, the document
    status, and the recursive raw-material cost roll-up that prices leaves
    with an item-rate lookup and sub-assemblies with the cost of their
    children. The rate lookup is an input function. An empty string is an
    unset link and a `parentRowNo` of 0 an unset row number. */
module BomCreator {
  import opened Wrappers

  /** A row of the `items` table. `fgReferenceId` is the name of the
      sub-assembly row (or the document) this row belongs to. */
  datatype BomRow = BomRow(
    idx: int,
    name: string,
    itemCode: string,
    fgItem: string,
    isExpandable: bool,
    bomCreated: bool,
    fgReferenceId: string,
    parentRowNo: int,
    qty: real,
    uom: string,
    stockUom: string,
    conversionFactor: real,
    sourcedBySupplier: bool,
    rate: real,
    amount: real)

  datatype BomStatus = Draft | Submitted | Cancelled | Completed

  datatype BomError =
    | SubAssemblyOfItself(itemCode: string)  // an expandable row for the document's own item
    | UnknownDocstatus(docstatus: int)       // the status lookup has no entry for it
    | RecursionLimit                         // the roll-up nests deeper than the interpreter allows
    | ZeroDivision(idx: int)                 // a sub-assembly with zero quantity or conversion factor

  /** The arguments handed to the item-rate lookup for a leaf row. */
  datatype RateQuery = RateQuery(
    itemCode: string,
    qty: real,
    uom: string,
    stockUom: string,
    conversionFactor: real,
    sourcedBySupplier: bool)

  function QueryOf(row: BomRow): RateQuery {
    RateQuery(row.itemCode, row.qty, row.uom, row.stockUom, row.conversionFactor, row.sourcedBySupplier)
  }

  /* ---------------- validation and status ---------------- */

  /** `validate_items`: no expandable row may be the document's own item. */
  function ValidateItems(items: seq<BomRow>, itemCode: string): (r: Outcome<BomError>)
    ensures r.Pass? <==> forall k :: 0 <= k < |items| ==> !(items[k].isExpandable && items[k].itemCode == itemCode)
    ensures r.Fail? ==> r.error == SubAssemblyOfItself(itemCode)
  {
    if |items| == 0 then Pass
    else if items[0].isExpandable && items[0].itemCode == itemCode then Fail(SubAssemblyOfItself(itemCode))
    else
      var r := ValidateItems(items[1..], itemCode);
      assert forall k :: 1 <= k < |items| ==> items[k] == items[1..][k - 1];
      r
  }

  /** Every sub-assembly row already has its BOM. */
  predicate SubAssembliesCreated(items: seq<BomRow>) {
    forall k :: 0 <= k < |items| ==> (items[k].isExpandable ==> items[k].bomCreated)
  }

  /** The status `set_status` settles on; `bomExists` is whether a BOM for
      the document's item made by this document exists. */
  function StatusFor(docstatus: int, items: seq<BomRow>, bomExists: bool): (r: Result<BomStatus, BomError>)
    ensures r.Success? <==> 0 <= docstatus <= 2
    ensures r == Success(Completed) <==> docstatus == 1 && SubAssembliesCreated(items) && bomExists
    ensures docstatus == 0 ==> r == Success(Draft)
    ensures docstatus == 2 ==> r == Success(Cancelled)
  {
    if docstatus == 0 then Success(Draft)
    else if docstatus == 1 then
      if SubAssembliesCreated(items) && bomExists then Success(Completed) else Success(Submitted)
    else if docstatus == 2 then Success(Cancelled)
    else Failure(UnknownDocstatus(docstatus))
  }

  /* ---------------- expandable rows ---------------- */

  /** Some row names `code` as its finished good, and that finished good is
      not the document's own item. */
  predicate IsSubAssemblyItem(items: seq<BomRow>, itemCode: string, code: string) {
    exists j :: 0 <= j < |items| && items[j].fgItem != itemCode && items[j].fgItem == code
  }

  /** The finished goods other than the document's item, in row order. */
  function FgItems(items: seq<BomRow>, itemCode: string): (r: seq<string>)
    ensures forall code :: code in r <==> IsSubAssemblyItem(items, itemCode, code)
  {
    if |items| == 0 then []
    else
      var init := FgItems(items[..|items| - 1], itemCode);
      assert forall j :: 0 <= j < |items| - 1 ==> items[..|items| - 1][j] == items[j];
      var last := items[|items| - 1];
      if last.fgItem != itemCode then init + [last.fgItem] else init
  }

  /** The rows after `set_is_expandable`. */
  function MarkedExpandable(items: seq<BomRow>, itemCode: string): (r: seq<BomRow>)
    ensures |r| == |items|
    ensures forall k :: 0 <= k < |r| ==>
              r[k] == items[k].(isExpandable := IsSubAssemblyItem(items, itemCode, items[k].itemCode))
  {
    seq(|items|, k requires 0 <= k < |items| =>
      items[k].(isExpandable := IsSubAssemblyItem(items, itemCode, items[k].itemCode)))
  }

  /** After `set_is_expandable` no row can be a sub-assembly of the
      document's own item, so `validate_items` passes. */
  lemma MarkedExpandableIsValid(items: seq<BomRow>, itemCode: string)
    ensures ValidateItems(MarkedExpandable(items, itemCode), itemCode).Pass?
  {
    var r := MarkedExpandable(items, itemCode);
    forall k | 0 <= k < |r| && r[k].isExpandable
      ensures r[k].itemCode != itemCode
    {
      var j :| 0 <= j < |items| && items[j].fgItem != itemCode && items[j].fgItem == items[k].itemCode;
    }
  }

  /* ---------------- parent references ---------------- */

  /** `{row.idx: row.name for row in items}`: for a repeated idx the last
      row wins. */
  function ParentReference(items: seq<BomRow>): (r: map<int, string>)
    ensures forall k :: 0 <= k < |items| ==> items[k].idx in r
    ensures forall i :: i in r ==> exists k :: 0 <= k < |items| && items[k].idx == i
  {
    if |items| == 0 then map[]
    else
      var init := items[..|items| - 1];
      assert forall k :: 0 <= k < |init| ==> init[k] == items[k];
      ParentReference(init)[items[|items| - 1].idx := items[|items| - 1].name]
  }

  /** The entry for an idx is the name of the last row with that idx. */
  lemma {:induction false} ParentReferenceIsLastRow(items: seq<BomRow>, k: nat)
    requires k < |items|
    requires forall j :: k < j < |items| ==> items[j].idx != items[k].idx
    ensures ParentReference(items)[items[k].idx] == items[k].name
  {
    if k < |items| - 1 {
      var init := items[..|items| - 1];
      assert init[k] == items[k];
      ParentReferenceIsLastRow(init, k);
    }
  }

  /** A row after the `set_reference_id` loop: a row with a reference keeps
      it; otherwise a row with a parent row number takes the name of that
      row (unset when no row has that idx). */
  function Linked(row: BomRow, parents: map<int, string>): (r: BomRow)
    ensures r == row.(fgReferenceId := r.fgReferenceId)
    ensures row.fgReferenceId != "" || row.parentRowNo == 0 ==> r == row
  {
    if row.fgReferenceId != "" then row
    else if row.parentRowNo != 0 then
      row.(fgReferenceId := if row.parentRowNo in parents then parents[row.parentRowNo] else "")
    else row
  }

  /** The rows after `set_reference_id`: only the link field changes, and
      a row that already has a link or has no parent row number is
      unchanged. */
  function ReferencesSet(items: seq<BomRow>): (r: seq<BomRow>)
    ensures |r| == |items|
    ensures forall k :: 0 <= k < |r| ==> r[k] == items[k].(fgReferenceId := r[k].fgReferenceId)
    ensures forall k :: 0 <= k < |r| && (items[k].fgReferenceId != "" || items[k].parentRowNo == 0) ==> r[k] == items[k]
  {
    var parents := ParentReference(items);
    seq(|items|, k requires 0 <= k < |items| => Linked(items[k], parents))
  }

  /** A parent row number that no row carries leaves the link unset. */
  lemma UnknownParentLeavesLinkUnset(items: seq<BomRow>, k: nat)
    requires k < |items| && items[k].fgReferenceId == "" && items[k].parentRowNo != 0
    requires forall j :: 0 <= j < |items| ==> items[j].idx != items[k].parentRowNo
    ensures ReferencesSet(items)[k].fgReferenceId == ""
  {
    assert items[k].parentRowNo !in ParentReference(items);
  }

  /** With distinct row numbers, an unlinked row with a parent row number
      is linked to the row carrying that number. */
  lemma ReferenceLinksParentRow(items: seq<BomRow>, k: nat, p: nat)
    requires k < |items| && p < |items|
    requires forall i, j :: 0 <= i < j < |items| ==> items[i].idx != items[j].idx
    requires items[k].fgReferenceId == "" && items[k].parentRowNo != 0 && items[k].parentRowNo == items[p].idx
    ensures ReferencesSet(items)[k] == items[k].(fgReferenceId := items[p].name)
  {
    ParentReferenceIsLastRow(items, p);
  }

  /** The rows after `set_conversion_factor`. */
  function UnitConversion(items: seq<BomRow>): (r: seq<BomRow>)
    ensures |r| == |items|
    ensures forall k :: 0 <= k < |r| ==> r[k].conversionFactor == 1.0 && Shape(r[k]).(conversionFactor := 0.0) == Shape(items[k]).(conversionFactor := 0.0)
  {
    seq(|items|, k requires 0 <= k < |items| => items[k].(conversionFactor := 1.0))
  }

  /* ---------------- raw-material cost ---------------- */

  /** What a row is apart from its rate and amount, the only fields the
      roll-up writes. */
  function Shape(row: BomRow): BomRow {
    row.(rate := 0.0, amount := 0.0)
  }

  predicate SameShape(a: seq<BomRow>, b: seq<BomRow>) {
    |a| == |b| && forall k :: 0 <= k < |a| ==> Shape(a[k]) == Shape(b[k])
  }

  lemma SameShapeUpdate(a: seq<BomRow>, j: nat, x: BomRow)
    requires j < |a| && Shape(x) == Shape(a[j])
    ensures SameShape(a, a[j := x])
  {}

  lemma SameShapeTrans(a: seq<BomRow>, b: seq<BomRow>, c: seq<BomRow>)
    requires SameShape(a, b) && SameShape(b, c)
    ensures SameShape(a, c)
  {}

  /** A leaf's amount: the looked-up rate times its quantity. */
  function LeafAmount(row: BomRow, rateOf: RateQuery -> real): real {
    rateOf(QueryOf(row)) * row.qty
  }

  function PricedLeaf(row: BomRow, rateOf: RateQuery -> real): BomRow {
    row.(rate := rateOf(QueryOf(row)), amount := LeafAmount(row, rateOf))
  }

  /** The quantity a sub-assembly's rate is divided by. */
  function StockQty(row: BomRow): real {
    row.qty * row.conversionFactor
  }

  /** A sub-assembly priced by the cost of its rows. */
  function PricedSubAssembly(row: BomRow, subAmount: real): BomRow
    requires StockQty(row) != 0.0
  {
    row.(amount := subAmount, rate := subAmount / StockQty(row))
  }

  /** `fg_reference_id or self.name`. */
  function Reference(ref: string, docName: string): string {
    if ref == "" then docName else ref
  }

  /** `get_raw_material_cost(ref, acc)` as the source runs it: the rows it
      leaves behind and the amount it returns. `fuel` is the nesting depth
      the interpreter still allows. */
  function Visit(items: seq<BomRow>, docName: string, ref: string, acc: real,
                 rateOf: RateQuery -> real, fuel: nat): (r: Result<(seq<BomRow>, real), BomError>)
    ensures r.Success? ==> SameShape(items, r.value.0)
    decreases fuel, |items| + 1
  {
    VisitFrom(items, docName, Reference(ref, docName), 0, acc, rateOf, fuel)
  }

  /** The loop of `get_raw_material_cost` from row `j` on. */
  function VisitFrom(items: seq<BomRow>, docName: string, ref: string, j: nat, acc: real,
                     rateOf: RateQuery -> real, fuel: nat): (r: Result<(seq<BomRow>, real), BomError>)
    requires j <= |items|
    ensures r.Success? ==> SameShape(items, r.value.0)
    decreases fuel, |items| - j
  {
    if j == |items| then Success((items, acc))
    else
      var row := items[j];
      if row.fgReferenceId != ref then VisitFrom(items, docName, ref, j + 1, acc, rateOf, fuel)
      else if !row.isExpandable then
        VisitFrom(items[j := PricedLeaf(row, rateOf)], docName, ref, j + 1, acc + LeafAmount(row, rateOf), rateOf, fuel)
      else if fuel == 0 then Failure(RecursionLimit)
      else
        var sub := Visit(items[j := row.(amount := 0.0)], docName, row.name, 0.0, rateOf, fuel - 1);
        if sub.Failure? then Failure(sub.error)
        else if StockQty(row) == 0.0 then Failure(ZeroDivision(row.idx))
        else VisitFrom(sub.value.0[j := PricedSubAssembly(sub.value.0[j], sub.value.1)], docName, ref, j + 1, acc + sub.value.1, rateOf, fuel)
  }

  /** One step of the loop at a row that does not open a nested roll-up. */
  lemma VisitFromUnfold(items: seq<BomRow>, docName: string, ref: string, j: nat, acc: real,
                        rateOf: RateQuery -> real, fuel: nat)
    requires j < |items|
    ensures items[j].fgReferenceId != ref ==>
              VisitFrom(items, docName, ref, j, acc, rateOf, fuel) == VisitFrom(items, docName, ref, j + 1, acc, rateOf, fuel)
    ensures items[j].fgReferenceId == ref && !items[j].isExpandable ==>
              VisitFrom(items, docName, ref, j, acc, rateOf, fuel)
                == VisitFrom(items[j := PricedLeaf(items[j], rateOf)], docName, ref, j + 1, acc + LeafAmount(items[j], rateOf), rateOf, fuel)
    ensures items[j].fgReferenceId == ref && items[j].isExpandable && fuel == 0 ==>
              VisitFrom(items, docName, ref, j, acc, rateOf, fuel) == Failure(RecursionLimit)
  {}

  /** One step of the loop at a sub-assembly row: the nested roll-up runs
      on the rows with that row's amount cleared. */
  lemma VisitFromOpens(items: seq<BomRow>, cleared: seq<BomRow>, docName: string, ref: string, j: nat, acc: real,
                       rateOf: RateQuery -> real, fuel: nat)
    returns (after: seq<BomRow>, subAmount: real)
    requires j < |items| && items[j].fgReferenceId == ref && items[j].isExpandable && fuel > 0
    requires cleared == items[j := items[j].(amount := 0.0)]
    ensures Visit(cleared, docName, items[j].name, 0.0, rateOf, fuel - 1).Failure? ==>
              VisitFrom(items, docName, ref, j, acc, rateOf, fuel)
                == Failure(Visit(cleared, docName, items[j].name, 0.0, rateOf, fuel - 1).error)
    ensures Visit(cleared, docName, items[j].name, 0.0, rateOf, fuel - 1).Success? && StockQty(items[j]) == 0.0 ==>
              VisitFrom(items, docName, ref, j, acc, rateOf, fuel) == Failure(ZeroDivision(items[j].idx))
    ensures Visit(cleared, docName, items[j].name, 0.0, rateOf, fuel - 1).Success? ==>
              after == Visit(cleared, docName, items[j].name, 0.0, rateOf, fuel - 1).value.0
              && subAmount == Visit(cleared, docName, items[j].name, 0.0, rateOf, fuel - 1).value.1
              && |after| == |items| && StockQty(after[j]) == StockQty(items[j])
    ensures Visit(cleared, docName, items[j].name, 0.0, rateOf, fuel - 1).Success? && StockQty(items[j]) != 0.0 ==>
              VisitFrom(items, docName, ref, j, acc, rateOf, fuel)
                == VisitFrom(after[j := PricedSubAssembly(after[j], subAmount)], docName, ref, j + 1, acc + subAmount, rateOf, fuel)
  {
    var v := Visit(cleared, docName, items[j].name, 0.0, rateOf, fuel - 1);
    after, subAmount := cleared, 0.0;
    if v.Success? {
      after, subAmount := v.value.0, v.value.1;
      assert Shape(cleared[j]) == Shape(after[j]);
      ShapeFields(cleared[j], after[j]);
    }
  }

  /** The raw-material cost of the rows referring to `ref`, read off the
      rows without writing them: a leaf costs its rate times its quantity,
      a sub-assembly the cost of its own rows. */
  function Cost(items: seq<BomRow>, docName: string, ref: string, rateOf: RateQuery -> real, fuel: nat)
    : Result<real, BomError>
    decreases fuel, |items| + 1
  {
    CostFrom(items, docName, Reference(ref, docName), 0, rateOf, fuel)
  }

  function CostFrom(items: seq<BomRow>, docName: string, ref: string, j: nat,
                    rateOf: RateQuery -> real, fuel: nat): Result<real, BomError>
    requires j <= |items|
    decreases fuel, |items| - j
  {
    if j == |items| then Success(0.0)
    else
      var row := items[j];
      if row.fgReferenceId != ref then CostFrom(items, docName, ref, j + 1, rateOf, fuel)
      else
        var here :- RowCost(items, docName, j, rateOf, fuel);
        var rest :- CostFrom(items, docName, ref, j + 1, rateOf, fuel);
        Success(here + rest)
  }

  function RowCost(items: seq<BomRow>, docName: string, j: nat, rateOf: RateQuery -> real, fuel: nat)
    : Result<real, BomError>
    requires j < |items|
    decreases fuel, 0
  {
    var row := items[j];
    if !row.isExpandable then Success(LeafAmount(row, rateOf))
    else if fuel == 0 then Failure(RecursionLimit)
    else
      var sub :- Cost(items, docName, row.name, rateOf, fuel - 1);
      if StockQty(row) == 0.0 then Failure(ZeroDivision(row.idx)) else Success(sub)
  }

  /** A stateful run and a pure cost agree: both fail with the same error,
      or the run returns the accumulator plus the cost. */
  predicate Agrees(v: Result<(seq<BomRow>, real), BomError>, c: Result<real, BomError>, acc: real) {
    (v.Success? <==> c.Success?)
    && (v.Success? && c.Success? ==> v.value.1 == acc + c.value)
    && (v.Failure? && c.Failure? ==> v.error == c.error)
  }

  /** The cost reads only what the roll-up never writes. */
  lemma {:induction false} CostKeepsShape(a: seq<BomRow>, b: seq<BomRow>, docName: string, ref: string,
                                          rateOf: RateQuery -> real, fuel: nat)
    requires SameShape(a, b)
    ensures Cost(a, docName, ref, rateOf, fuel) == Cost(b, docName, ref, rateOf, fuel)
    decreases fuel, |a| + 1
  {
    CostFromKeepsShape(a, b, docName, Reference(ref, docName), 0, rateOf, fuel);
  }

  lemma {:induction false} CostFromKeepsShape(a: seq<BomRow>, b: seq<BomRow>, docName: string, ref: string, j: nat,
                                              rateOf: RateQuery -> real, fuel: nat)
    requires SameShape(a, b) && j <= |a|
    ensures CostFrom(a, docName, ref, j, rateOf, fuel) == CostFrom(b, docName, ref, j, rateOf, fuel)
    decreases fuel, |a| - j
  {
    if j < |a| {
      assert Shape(a[j]) == Shape(b[j]);
      CostFromKeepsShape(a, b, docName, ref, j + 1, rateOf, fuel);
      if a[j].fgReferenceId == ref {
        RowCostKeepsShape(a, b, docName, j, rateOf, fuel);
      }
    }
  }

  lemma {:induction false} RowCostKeepsShape(a: seq<BomRow>, b: seq<BomRow>, docName: string, j: nat,
                                             rateOf: RateQuery -> real, fuel: nat)
    requires SameShape(a, b) && j < |a|
    ensures RowCost(a, docName, j, rateOf, fuel) == RowCost(b, docName, j, rateOf, fuel)
    decreases fuel, 0
  {
    ShapeFields(a[j], b[j]);
    if !a[j].isExpandable {
      assert LeafAmount(a[j], rateOf) == LeafAmount(b[j], rateOf);
      RowCostOfLeaf(a, docName, j, rateOf, fuel);
      RowCostOfLeaf(b, docName, j, rateOf, fuel);
    } else if fuel > 0 {
      CostKeepsShape(a, b, docName, a[j].name, rateOf, fuel - 1);
      RowCostOfSubAssembly(a, docName, j, rateOf, fuel);
      RowCostOfSubAssembly(b, docName, j, rateOf, fuel);
    }
  }

  /** `get_raw_material_cost` returns what `Cost` says the rows referring
      to the reference cost, and fails exactly when `Cost` does. */
  lemma {:induction false} VisitReturnsCost(items: seq<BomRow>, docName: string, ref: string, acc: real,
                                            rateOf: RateQuery -> real, fuel: nat)
    ensures Agrees(Visit(items, docName, ref, acc, rateOf, fuel), Cost(items, docName, ref, rateOf, fuel), acc)
    decreases fuel, |items| + 1, 2
  {
    VisitFromReturnsCost(items, docName, Reference(ref, docName), 0, acc, rateOf, fuel);
  }

  lemma {:induction false} VisitFromReturnsCost(items: seq<BomRow>, docName: string, ref: string, j: nat, acc: real,
                                                rateOf: RateQuery -> real, fuel: nat)
    requires j <= |items|
    ensures Agrees(VisitFrom(items, docName, ref, j, acc, rateOf, fuel), CostFrom(items, docName, ref, j, rateOf, fuel), acc)
    decreases fuel, |items| - j, 1
  {
    if j == |items| {
      return;
    }
    var row := items[j];
    VisitFromUnfold(items, docName, ref, j, acc, rateOf, fuel);
    if row.fgReferenceId != ref {
      VisitFromReturnsCost(items, docName, ref, j + 1, acc, rateOf, fuel);
    } else if !row.isExpandable {
      var next := items[j := PricedLeaf(row, rateOf)];
      SameShapeUpdate(items, j, PricedLeaf(row, rateOf));
      VisitFromReturnsCost(next, docName, ref, j + 1, acc + LeafAmount(row, rateOf), rateOf, fuel);
      CostFromKeepsShape(items, next, docName, ref, j + 1, rateOf, fuel);
      RowCostOfLeaf(items, docName, j, rateOf, fuel);
      CostFromStep(items, docName, ref, j, rateOf, fuel);
    } else if fuel > 0 {
      var cleared := items[j := row.(amount := 0.0)];
      var after, subAmount := VisitFromOpens(items, cleared, docName, ref, j, acc, rateOf, fuel);
      VisitFromReturnsCostOpens(items, cleared, after, subAmount, docName, ref, j, acc, rateOf, fuel);
    }
  }

  /** The sub-assembly case of `VisitFromReturnsCost`. */
  lemma {:induction false} VisitFromReturnsCostOpens(items: seq<BomRow>, cleared: seq<BomRow>, after: seq<BomRow>, subAmount: real,
                                                     docName: string, ref: string, j: nat, acc: real,
                                                     rateOf: RateQuery -> real, fuel: nat)
    requires j < |items| && items[j].fgReferenceId == ref && items[j].isExpandable && fuel > 0
    requires cleared == items[j := items[j].(amount := 0.0)]
    requires Visit(cleared, docName, items[j].name, 0.0, rateOf, fuel - 1).Success? ==>
               after == Visit(cleared, docName, items[j].name, 0.0, rateOf, fuel - 1).value.0
               && subAmount == Visit(cleared, docName, items[j].name, 0.0, rateOf, fuel - 1).value.1
               && |after| == |items|
    ensures var v := Visit(cleared, docName, items[j].name, 0.0, rateOf, fuel - 1);
      Agrees(if v.Failure? then Failure(v.error)
             else if StockQty(items[j]) == 0.0 then Failure(ZeroDivision(items[j].idx))
             else VisitFrom(after[j := PricedSubAssembly(after[j], subAmount)], docName, ref, j + 1, acc + subAmount, rateOf, fuel),
             CostFrom(items, docName, ref, j, rateOf, fuel), acc)
    decreases fuel, |items| - j, 0
  {
    var row := items[j];
    SameShapeUpdate(items, j, row.(amount := 0.0));
    VisitReturnsCost(cleared, docName, row.name, 0.0, rateOf, fuel - 1);
    CostKeepsShape(items, cleared, docName, row.name, rateOf, fuel - 1);
    RowCostOfSubAssembly(items, docName, j, rateOf, fuel);
    CostFromStep(items, docName, ref, j, rateOf, fuel);
    var v := Visit(cleared, docName, row.name, 0.0, rateOf, fuel - 1);
    if v.Success? && StockQty(row) != 0.0 {
      var done := after[j := PricedSubAssembly(after[j], subAmount)];
      SameShapeUpdate(after, j, PricedSubAssembly(after[j], subAmount));
      SameShapeTrans(items, cleared, after);
      SameShapeTrans(items, after, done);
      VisitFromReturnsCost(done, docName, ref, j + 1, acc + subAmount, rateOf, fuel);
      CostFromKeepsShape(items, done, docName, ref, j + 1, rateOf, fuel);
    }
  }

  /** One row of `CostFrom` for a row that refers to `ref`. */
  lemma CostFromStep(items: seq<BomRow>, docName: string, ref: string, j: nat, rateOf: RateQuery -> real, fuel: nat)
    requires j < |items| && items[j].fgReferenceId == ref
    ensures var here, rest := RowCost(items, docName, j, rateOf, fuel), CostFrom(items, docName, ref, j + 1, rateOf, fuel);
      CostFrom(items, docName, ref, j, rateOf, fuel)
        == if here.Failure? then Failure(here.error)
           else if rest.Failure? then Failure(rest.error)
           else Success(here.value + rest.value)
  {}

  lemma ShapeFields(x: BomRow, y: BomRow)
    requires Shape(x) == Shape(y)
    ensures x.name == y.name && x.idx == y.idx && x.isExpandable == y.isExpandable && x.fgReferenceId == y.fgReferenceId
    ensures x.qty == y.qty && x.conversionFactor == y.conversionFactor && QueryOf(x) == QueryOf(y)
    ensures StockQty(x) == StockQty(y) && forall rateOf: RateQuery -> real :: LeafAmount(x, rateOf) == LeafAmount(y, rateOf)
  {
    assert Shape(x).name == Shape(y).name && Shape(x).idx == Shape(y).idx;
    assert Shape(x).isExpandable == Shape(y).isExpandable && Shape(x).qty == Shape(y).qty;
    assert Shape(x).fgReferenceId == Shape(y).fgReferenceId;
  }

  lemma RowCostOfLeaf(items: seq<BomRow>, docName: string, j: nat, rateOf: RateQuery -> real, fuel: nat)
    requires j < |items| && !items[j].isExpandable
    ensures RowCost(items, docName, j, rateOf, fuel) == Success(LeafAmount(items[j], rateOf))
  {}

  lemma RowCostOfSubAssembly(items: seq<BomRow>, docName: string, j: nat, rateOf: RateQuery -> real, fuel: nat)
    requires j < |items| && items[j].isExpandable && fuel > 0
    ensures var row, sub := items[j], Cost(items, docName, items[j].name, rateOf, fuel - 1);
      RowCost(items, docName, j, rateOf, fuel)
        == if sub.Failure? then Failure(sub.error)
           else if StockQty(row) == 0.0 then Failure(ZeroDivision(row.idx))
           else Success(sub.value)
  {}

  /** No sub-assembly row opens a nested roll-up for `ref`: the roll-up of
      `ref`'s rows is the outermost one to write them. */
  predicate NoNestedRef(items: seq<BomRow>, docName: string, ref: string) {
    forall k :: 0 <= k < |items| && items[k].isExpandable ==> Reference(items[k].name, docName) != ref
  }

  lemma NoNestedRefKeepsShape(a: seq<BomRow>, b: seq<BomRow>, docName: string, ref: string)
    requires SameShape(a, b) && NoNestedRef(a, docName, ref)
    ensures NoNestedRef(b, docName, ref)
  {
    forall k | 0 <= k < |b| && b[k].isExpandable
      ensures Reference(b[k].name, docName) != ref
    {
      ShapeFields(a[k], b[k]);
    }
  }

  /** Only the rate and amount differ, so pricing a sub-assembly gives the
      same row. */
  lemma PricedSubAssemblyKeepsShape(x: BomRow, y: BomRow, subAmount: real)
    requires Shape(x) == Shape(y) && StockQty(x) != 0.0
    ensures StockQty(y) != 0.0 && PricedSubAssembly(x, subAmount) == PricedSubAssembly(y, subAmount)
  {
    ShapeFields(x, y);
  }

  /** A row the loop has passed, or that refers elsewhere, and that no
      nested roll-up opens, is left as it was. */
  lemma {:induction false} VisitFromFrame(items: seq<BomRow>, docName: string, ref: string, j: nat, acc: real,
                                          rateOf: RateQuery -> real, fuel: nat, m: nat)
    requires j <= |items| && m < |items|
    requires VisitFrom(items, docName, ref, j, acc, rateOf, fuel).Success?
    requires NoNestedRef(items, docName, items[m].fgReferenceId)
    requires m < j || items[m].fgReferenceId != ref
    ensures VisitFrom(items, docName, ref, j, acc, rateOf, fuel).value.0[m] == items[m]
    decreases fuel, |items| - j, 1
  {
    if j == |items| {
      return;
    }
    var row := items[j];
    VisitFromUnfold(items, docName, ref, j, acc, rateOf, fuel);
    if row.fgReferenceId != ref {
      VisitFromFrame(items, docName, ref, j + 1, acc, rateOf, fuel, m);
    } else if !row.isExpandable {
      var next := items[j := PricedLeaf(row, rateOf)];
      SameShapeUpdate(items, j, PricedLeaf(row, rateOf));
      NoNestedRefKeepsShape(items, next, docName, items[m].fgReferenceId);
      VisitFromFrame(next, docName, ref, j + 1, acc + LeafAmount(row, rateOf), rateOf, fuel, m);
    } else {
      var cleared := items[j := row.(amount := 0.0)];
      var after, subAmount := VisitFromOpens(items, cleared, docName, ref, j, acc, rateOf, fuel);
      VisitFromFrameOpens(items, cleared, after, subAmount, docName, ref, j, acc, rateOf, fuel, m);
    }
  }

  /** The sub-assembly case of `VisitFromFrame`: neither the nested roll-up
      nor the rest of the loop touches the row. */
  lemma {:induction false} VisitFromFrameOpens(items: seq<BomRow>, cleared: seq<BomRow>, after: seq<BomRow>, subAmount: real,
                                               docName: string, ref: string, j: nat, acc: real,
                                               rateOf: RateQuery -> real, fuel: nat, m: nat)
    requires j < |items| && m < |items| && items[j].fgReferenceId == ref && items[j].isExpandable && fuel > 0
    requires cleared == items[j := items[j].(amount := 0.0)]
    requires Visit(cleared, docName, items[j].name, 0.0, rateOf, fuel - 1).Success?
    requires after == Visit(cleared, docName, items[j].name, 0.0, rateOf, fuel - 1).value.0 && |after| == |items|
    requires StockQty(items[j]) != 0.0
    requires VisitFrom(after[j := PricedSubAssembly(after[j], subAmount)], docName, ref, j + 1, acc + subAmount, rateOf, fuel).Success?
    requires NoNestedRef(items, docName, items[m].fgReferenceId)
    requires m < j || items[m].fgReferenceId != ref
    ensures VisitFrom(after[j := PricedSubAssembly(after[j], subAmount)], docName, ref, j + 1, acc + subAmount, rateOf, fuel).value.0[m] == items[m]
    decreases fuel, |items| - j, 0
  {
    var done := after[j := PricedSubAssembly(after[j], subAmount)];
    SameShapeUpdate(items, j, items[j].(amount := 0.0));
    NoNestedRefKeepsShape(items, cleared, docName, items[m].fgReferenceId);
    VisitFrame(cleared, docName, items[j].name, 0.0, rateOf, fuel - 1, m);
    SameShapeUpdate(after, j, PricedSubAssembly(after[j], subAmount));
    SameShapeTrans(items, cleared, after);
    SameShapeTrans(items, after, done);
    NoNestedRefKeepsShape(items, done, docName, items[m].fgReferenceId);
    VisitFromFrame(done, docName, ref, j + 1, acc + subAmount, rateOf, fuel, m);
  }

  lemma {:induction false} VisitFrame(items: seq<BomRow>, docName: string, ref: string, acc: real,
                                      rateOf: RateQuery -> real, fuel: nat, m: nat)
    requires m < |items| && Visit(items, docName, ref, acc, rateOf, fuel).Success?
    requires NoNestedRef(items, docName, items[m].fgReferenceId)
    requires items[m].fgReferenceId != Reference(ref, docName)
    ensures Visit(items, docName, ref, acc, rateOf, fuel).value.0[m] == items[m]
    decreases fuel, |items| + 1, 2
  {
    VisitFromFrame(items, docName, Reference(ref, docName), 0, acc, rateOf, fuel, m);
  }

  /** The amounts of the rows from `j` on that refer to `ref`. */
  function SumFrom(items: seq<BomRow>, ref: string, j: nat): real
    requires j <= |items|
    decreases |items| - j
  {
    if j == |items| then 0.0
    else (if items[j].fgReferenceId == ref then items[j].amount else 0.0) + SumFrom(items, ref, j + 1)
  }

  lemma {:induction false} SumFromKeepsOthers(a: seq<BomRow>, b: seq<BomRow>, ref: string, j: nat)
    requires SameShape(a, b) && j <= |a|
    requires forall k :: j <= k < |a| && a[k].fgReferenceId == ref ==> a[k].amount == b[k].amount
    ensures SumFrom(a, ref, j) == SumFrom(b, ref, j)
    decreases |a| - j
  {
    if j < |a| {
      ShapeFields(a[j], b[j]);
      assert Shape(a[j]).fgReferenceId == Shape(b[j]).fgReferenceId;
      SumFromKeepsOthers(a, b, ref, j + 1);
    }
  }

  /** One successful step of the loop, read off as the row it leaves at
      `j` and the accumulator it passes on. */
  lemma VisitFromStep(items: seq<BomRow>, docName: string, ref: string, j: nat, acc: real,
                      rateOf: RateQuery -> real, fuel: nat)
    returns (next: seq<BomRow>, acc': real)
    requires j < |items| && VisitFrom(items, docName, ref, j, acc, rateOf, fuel).Success?
    ensures SameShape(items, next) && j < |next|
    ensures VisitFrom(items, docName, ref, j, acc, rateOf, fuel) == VisitFrom(next, docName, ref, j + 1, acc', rateOf, fuel)
    ensures items[j].fgReferenceId != ref ==> next == items && acc' == acc
    ensures items[j].fgReferenceId == ref && !items[j].isExpandable ==>
              next[j] == PricedLeaf(items[j], rateOf) && acc' == acc + LeafAmount(items[j], rateOf)
    ensures items[j].fgReferenceId == ref && items[j].isExpandable ==>
              fuel > 0 && StockQty(items[j]) != 0.0 && Cost(items, docName, items[j].name, rateOf, fuel - 1).Success?
              && next[j] == PricedSubAssembly(items[j], Cost(items, docName, items[j].name, rateOf, fuel - 1).value)
              && acc' == acc + Cost(items, docName, items[j].name, rateOf, fuel - 1).value
  {
    var row := items[j];
    VisitFromUnfold(items, docName, ref, j, acc, rateOf, fuel);
    if row.fgReferenceId != ref {
      next, acc' := items, acc;
    } else if !row.isExpandable {
      next, acc' := items[j := PricedLeaf(row, rateOf)], acc + LeafAmount(row, rateOf);
      SameShapeUpdate(items, j, PricedLeaf(row, rateOf));
    } else {
      var cleared := items[j := row.(amount := 0.0)];
      var after, subAmount := VisitFromOpens(items, cleared, docName, ref, j, acc, rateOf, fuel);
      SameShapeUpdate(items, j, row.(amount := 0.0));
      VisitReturnsCost(cleared, docName, row.name, 0.0, rateOf, fuel - 1);
      CostKeepsShape(items, cleared, docName, row.name, rateOf, fuel - 1);
      assert after[j] == Visit(cleared, docName, row.name, 0.0, rateOf, fuel - 1).value.0[j];
      PricedSubAssemblyKeepsShape(row, after[j], subAmount);
      next, acc' := after[j := PricedSubAssembly(after[j], subAmount)], acc + subAmount;
      SameShapeUpdate(after, j, PricedSubAssembly(after[j], subAmount));
      SameShapeTrans(items, cleared, after);
      SameShapeTrans(items, after, next);
    }
  }

  /** When no nested roll-up writes `ref`'s rows, what the roll-up returns
      is the accumulator plus the amounts it leaves on those rows. */
  lemma {:induction false} VisitFromSumsRows(items: seq<BomRow>, docName: string, ref: string, j: nat, acc: real,
                                             rateOf: RateQuery -> real, fuel: nat)
    requires j <= |items| && VisitFrom(items, docName, ref, j, acc, rateOf, fuel).Success?
    requires NoNestedRef(items, docName, ref)
    ensures var r := VisitFrom(items, docName, ref, j, acc, rateOf, fuel).value;
      r.1 == acc + SumFrom(r.0, ref, j)
    decreases |items| - j
  {
    if j < |items| {
      var next, acc' := VisitFromStep(items, docName, ref, j, acc, rateOf, fuel);
      NoNestedRefKeepsShape(items, next, docName, ref);
      VisitFromSumsRows(next, docName, ref, j + 1, acc', rateOf, fuel);
      var out := VisitFrom(next, docName, ref, j + 1, acc', rateOf, fuel).value.0;
      SameShapeTrans(items, next, out);
      ShapeFields(items[j], out[j]);
      assert SumFrom(out, ref, j) == (if out[j].fgReferenceId == ref then out[j].amount else 0.0) + SumFrom(out, ref, j + 1);
      if items[j].fgReferenceId == ref {
        VisitFromFrame(next, docName, ref, j + 1, acc', rateOf, fuel, j);
        assert out[j] == next[j];
        assert acc' == acc + next[j].amount;
      }
    }
  }

  /** Under the same condition each of `ref`'s rows ends up priced: a leaf
      at its looked-up rate, a sub-assembly at the cost of its own rows
      spread over its stock quantity. */
  lemma {:induction false} VisitFromPricesRow(items: seq<BomRow>, docName: string, ref: string, j: nat, acc: real,
                                              rateOf: RateQuery -> real, fuel: nat, m: nat)
    requires j <= m < |items| && items[m].fgReferenceId == ref
    requires VisitFrom(items, docName, ref, j, acc, rateOf, fuel).Success?
    requires NoNestedRef(items, docName, ref)
    ensures var out := VisitFrom(items, docName, ref, j, acc, rateOf, fuel).value.0;
      if !items[m].isExpandable then out[m] == PricedLeaf(items[m], rateOf)
      else fuel > 0 && StockQty(items[m]) != 0.0 && Cost(items, docName, items[m].name, rateOf, fuel - 1).Success?
           && out[m] == PricedSubAssembly(items[m], Cost(items, docName, items[m].name, rateOf, fuel - 1).value)
    decreases |items| - j
  {
    var next, acc' := VisitFromStep(items, docName, ref, j, acc, rateOf, fuel);
    NoNestedRefKeepsShape(items, next, docName, ref);
    ShapeFields(items[m], next[m]);
    if m == j {
      VisitFromFrame(next, docName, ref, j + 1, acc', rateOf, fuel, j);
    } else {
      VisitFromPricesRow(next, docName, ref, j + 1, acc', rateOf, fuel, m);
      if items[m].isExpandable {
        assert fuel > 0;
        CostKeepsShape(items, next, docName, items[m].name, rateOf, fuel - 1);
        var c := Cost(items, docName, items[m].name, rateOf, fuel - 1);
        assert c == Cost(next, docName, next[m].name, rateOf, fuel - 1);
        assert c.Success?;
        PricedSubAssemblyKeepsShape(items[m], next[m], c.value);
      } else {
        assert PricedLeaf(items[m], rateOf) == PricedLeaf(next[m], rateOf);
      }
    }
  }

  /** A BOM Creator document: its header fields and its rows. */
  /** What `set_rate_for_items` leaves when the cost is rolled up from the
      rows `before`: it passes exactly when the pure cost of the top-level
      rows succeeds, and then the rows are the roll-up's priced rows and the
      raw-material cost is that pure cost; otherwise it fails with the cost's
      error. */
  predicate RolledUp(before: seq<BomRow>, after: seq<BomRow>, docName: string, rawMaterialCost: real,
                     r: Outcome<BomError>, rateOf: RateQuery -> real, fuel: nat)
  {
    var c := Cost(before, docName, docName, rateOf, fuel);
    var v := Visit(before, docName, "", 0.0, rateOf, fuel);
    && (r.Pass? <==> c.Success?)
    && (c.Success? ==> v.Success? && after == v.value.0 && rawMaterialCost == c.value)
    && (c.Failure? ==> r == Fail(c.error))
  }

  class BOMCreator {
    var name: string
    var itemCode: string
    var docstatus: int
    var status: BomStatus
    var rmCostAsPer: string
    var rawMaterialCost: real
    var items: seq<BomRow>

    constructor(name: string, itemCode: string, rmCostAsPer: string, items: seq<BomRow>)
      ensures this.name == name && this.itemCode == itemCode && this.rmCostAsPer == rmCostAsPer
      ensures this.items == items && docstatus == 0 && status == Draft && rawMaterialCost == 0.0
    {
      this.name := name;
      this.itemCode := itemCode;
      this.rmCostAsPer := rmCostAsPer;
      this.items := items;
      docstatus := 0;
      status := Draft;
      rawMaterialCost := 0.0;
    }

    /** `set_status`: the status named by the docstatus, then Completed
        when `set_status_completed` finds every sub-assembly built. An
        unknown docstatus fails the lookup and leaves the status alone. */
    method SetStatus(bomExists: bool) returns (r: Outcome<BomError>)
      modifies this`status
      ensures var want := StatusFor(docstatus, items, bomExists);
        (want.Success? ==> r.Pass? && status == want.value)
        && (want.Failure? ==> r == Fail(want.error) && status == old(status))
    {
      if docstatus == 0 {
        status := Draft;
      } else if docstatus == 1 {
        status := Submitted;
      } else if docstatus == 2 {
        status := Cancelled;
      } else {
        return Fail(UnknownDocstatus(docstatus));
      }
      SetStatusCompleted(bomExists);
      r := Pass;
    }

    /** `set_status_completed`: a submitted document whose sub-assemblies
        all have their BOM, and whose own BOM exists, is Completed. */
    method SetStatusCompleted(bomExists: bool)
      modifies this`status
      ensures docstatus == 1 && SubAssembliesCreated(items) && bomExists ==> status == Completed
      ensures !(docstatus == 1 && SubAssembliesCreated(items) && bomExists) ==> status == old(status)
    {
      if docstatus != 1 {
        return;
      }
      var hasCompleted := true;
      var i := 0;
      while i < |items|
        invariant 0 <= i <= |items|
        invariant hasCompleted ==> forall k :: 0 <= k < i ==> (items[k].isExpandable ==> items[k].bomCreated)
        invariant !hasCompleted ==> !SubAssembliesCreated(items)
        invariant !hasCompleted ==> i < |items|
      {
        if items[i].isExpandable && !items[i].bomCreated {
          hasCompleted := false;
          break;
        }
        i := i + 1;
      }
      if !bomExists {
        hasCompleted := false;
      }
      if hasCompleted {
        status := Completed;
      }
    }

    /** `set_conversion_factor`. */
    method SetConversionFactor()
      modifies this`items
      ensures items == UnitConversion(old(items))
    {
      var i := 0;
      while i < |items|
        invariant 0 <= i <= |items| && |items| == |old(items)|
        invariant items[..i] == UnitConversion(old(items))[..i] && items[i..] == old(items)[i..]
      {
        items := items[i := items[i].(conversionFactor := 1.0)];
        i := i + 1;
      }
    }

    /** `set_is_expandable`: the finished goods are collected first, then
        each row is marked. */
    method SetIsExpandable()
      modifies this`items
      ensures items == MarkedExpandable(old(items), itemCode)
    {
      var fgItems := FgItems(items, itemCode);
      var i := 0;
      while i < |items|
        invariant 0 <= i <= |items| && |items| == |old(items)|
        invariant items[..i] == MarkedExpandable(old(items), itemCode)[..i] && items[i..] == old(items)[i..]
      {
        items := items[i := items[i].(isExpandable := items[i].itemCode in fgItems)];
        i := i + 1;
      }
    }

    /** `set_reference_id`: the idx-to-name map is built first, then each
        unlinked row with a parent row number is linked. */
    method SetReferenceId()
      modifies this`items
      ensures items == ReferencesSet(old(items))
    {
      var parents := ParentReference(items);
      var i := 0;
      while i < |items|
        invariant 0 <= i <= |items| && |items| == |old(items)|
        invariant forall k :: 0 <= k < i ==> items[k] == Linked(old(items)[k], parents)
        invariant forall k :: i <= k < |items| ==> items[k] == old(items)[k]
      {
        var row := items[i];
        if row.fgReferenceId != "" {
          i := i + 1;
          continue;
        }
        if row.parentRowNo != 0 {
          var link := if row.parentRowNo in parents then parents[row.parentRowNo] else "";
          items := items[i := row.(fgReferenceId := link)];
        }
        i := i + 1;
      }
      ghost var want := ReferencesSet(old(items));
      assert forall k :: 0 <= k < |items| ==> items[k] == want[k];
    }

    /** `get_raw_material_cost(fg_reference_id, amount)`: prices the rows
        referring to the reference in order, descending into each
        sub-assembly; `fuel` is the nesting depth still allowed. */
    method GetRawMaterialCost(fgReferenceId: string, amount: real, rateOf: RateQuery -> real, fuel: nat)
      returns (r: Result<real, BomError>)
      modifies this`items
      ensures var v := Visit(old(items), name, fgReferenceId, amount, rateOf, fuel);
        (v.Success? ==> items == v.value.0 && r == Success(v.value.1))
        && (v.Failure? ==> r == Failure(v.error))
      decreases fuel, 1
    {
      var ref := Reference(fgReferenceId, name);
      var acc := amount;
      var j := 0;
      while j < |items|
        invariant j <= |items|
        invariant VisitFrom(items, name, ref, j, acc, rateOf, fuel) == Visit(old(items), name, fgReferenceId, amount, rateOf, fuel)
        decreases |items| - j
      {
        if items[j].fgReferenceId == ref {
          var step := RollUpRow(ref, j, acc, rateOf, fuel);
          if step.Failure? {
            return Failure(step.error);
          }
          acc := step.value;
        } else {
          VisitFromUnfold(items, name, ref, j, acc, rateOf, fuel);
        }
        j := j + 1;
      }
      return Success(acc);
    }

    /** One pass of that loop over a row referring to `ref`: a leaf is
        priced at once, a sub-assembly after its own rows are rolled up.
        The row leaves the loop where `VisitFrom` does. */
    method RollUpRow(ref: string, j: nat, acc: real, rateOf: RateQuery -> real, fuel: nat)
      returns (r: Result<real, BomError>)
      requires j < |items| && items[j].fgReferenceId == ref
      modifies this`items
      ensures r.Success? ==> |items| == |old(items)|
      ensures r.Success? ==>
                VisitFrom(old(items), name, ref, j, acc, rateOf, fuel) == VisitFrom(items, name, ref, j + 1, r.value, rateOf, fuel)
      ensures r.Failure? ==> VisitFrom(old(items), name, ref, j, acc, rateOf, fuel) == Failure(r.error)
      decreases fuel, 0
    {
      var row := items[j];
      VisitFromUnfold(items, name, ref, j, acc, rateOf, fuel);
      if !row.isExpandable {
        items := items[j := PricedLeaf(row, rateOf)];
        return Success(acc + LeafAmount(row, rateOf));
      }
      if fuel == 0 {
        return Failure(RecursionLimit);
      }
      ghost var before := items;
      items := items[j := row.(amount := 0.0)];
      ghost var after, subAmount := VisitFromOpens(before, items, name, ref, j, acc, rateOf, fuel);
      var sub := GetRawMaterialCost(row.name, 0.0, rateOf, fuel - 1);
      if sub.Failure? {
        return Failure(sub.error);
      }
      if StockQty(row) == 0.0 {
        return Failure(ZeroDivision(row.idx));
      }
      items := items[j := PricedSubAssembly(items[j], sub.value)];
      r := Success(acc + sub.value);
    }

    /** `set_rate_for_items`: unless costs are entered manually, the
        raw-material cost is the roll-up of the document's own rows. */
    method SetRateForItems(rateOf: RateQuery -> real, fuel: nat) returns (r: Outcome<BomError>)
      modifies this`items, this`rawMaterialCost
      ensures rmCostAsPer == "Manual" ==> r.Pass? && items == old(items) && rawMaterialCost == old(rawMaterialCost)
      ensures rmCostAsPer != "Manual" ==>
                RolledUp(old(items), items, name, rawMaterialCost, r, rateOf, fuel)
                && (r.Pass? ==> SameShape(old(items), items))
      ensures rmCostAsPer != "Manual" && r.Pass? && NoNestedRef(old(items), name, name) ==>
                rawMaterialCost == SumFrom(items, name, 0)
    {
      if rmCostAsPer == "Manual" {
        return Pass;
      }
      VisitReturnsCost(items, name, "", 0.0, rateOf, fuel);
      assert Cost(items, name, "", rateOf, fuel) == Cost(items, name, name, rateOf, fuel);
      if Visit(items, name, "", 0.0, rateOf, fuel).Success? && NoNestedRef(items, name, name) {
        VisitFromSumsRows(items, name, name, 0, 0.0, rateOf, fuel);
      }
      var amount := GetRawMaterialCost("", 0.0, rateOf, fuel);
      if amount.Failure? {
        return Fail(amount.error);
      }
      rawMaterialCost := amount.value;
      r := Pass;
    }

    /** `before_save`: the status (from the rows as they were), then the
        expandable marks, the conversion factors, the parent links and the
        raw-material cost, in that order. */
    method BeforeSave(bomExists: bool, rateOf: RateQuery -> real, fuel: nat) returns (r: Outcome<BomError>)
      modifies this`status, this`items, this`rawMaterialCost
      ensures var want := StatusFor(docstatus, old(items), bomExists);
        (want.Failure? ==> r == Fail(want.error) && items == old(items) && status == old(status)
                           && rawMaterialCost == old(rawMaterialCost))
        && (want.Success? ==> status == want.value)
      ensures var prepared := ReferencesSet(UnitConversion(MarkedExpandable(old(items), itemCode)));
        StatusFor(docstatus, old(items), bomExists).Success? ==>
          (rmCostAsPer == "Manual" ==> r.Pass? && items == prepared && rawMaterialCost == old(rawMaterialCost))
          && (rmCostAsPer != "Manual" ==> RolledUp(prepared, items, name, rawMaterialCost, r, rateOf, fuel))
    {
      r := SetStatus(bomExists);
      if r.Fail? {
        return;
      }
      SetIsExpandable();
      SetConversionFactor();
      SetReferenceId();
      r := SetRateForItems(rateOf, fuel);
    }
  }
}
