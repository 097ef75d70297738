/** Cost roll-up and row validation of a Subcontracting Receipt: the raw
    material and scrap cost maps keyed by the finished-good row they refer
    to, the rate of each finished good, the document totals, the removal of
    scrap rows and the checks on quantities and warehouses. Quantities and
    amounts are reals; an empty string is an unset link. */
module SubcontractingReceipt {
  import opened Wrappers
  import Rounding

  /** A row of the `items` table (finished goods and scrap). */
  datatype ReceiptItem = ReceiptItem(
    idx: int,
    name: string,
    itemCode: string,
    isScrapItem: bool,
    referenceName: string,
    qty: real,
    rejectedQty: real,
    receivedQty: real,
    rate: real,
    amount: real,
    rmSuppCost: real,
    rmCostPerQty: real,
    serviceCostPerQty: real,
    additionalCostPerQty: real,
    scrapCostPerQty: real,
    warehouse: string,
    rejectedWarehouse: string)

  /** A row of the `supplied_items` table (raw material consumed for the
      finished-good row `referenceName`). */
  datatype SuppliedItem = SuppliedItem(
    idx: int,
    referenceName: string,
    consumedQty: real,
    rate: real,
    amount: real,
    availableQtyForConsumption: real,
    consumedQtyPrecision: nat)

  datatype ReceiptError =
    | AcceptedAndRejectedQtyZero(idx: int)
    | ScrapQtyZero(idx: int)
    | ScrapRejectedQty(idx: int)
    | ScrapWithoutReference(idx: int)
    | AcceptedWarehouseMissing(idx: int)
    | SameAcceptedAndRejectedWarehouse(idx: int)
    | ConsumedMoreThanAvailable(idx: int)

  /** The amount of a quantity at a rate. */
  function Amount(qty: real, rate: real): real {
    qty * rate
  }

  /* ---------------- cost maps ---------------- */

  /** A map from reference to the running sum of its amounts, built entry by
      entry as the source's loops build `rm_cost_map` and `scrap_cost_map`. */
  function CostMap(entries: seq<(string, real)>): map<string, real> {
    if |entries| == 0 then map[]
    else AddCost(CostMap(entries[..|entries| - 1]), entries[|entries| - 1].0, entries[|entries| - 1].1)
  }

  /** Adds `amount` to the entry for `key`, creating it when missing. */
  function AddCost(m: map<string, real>, key: string, amount: real): map<string, real> {
    if key in m then m[key := m[key] + amount] else m[key := amount]
  }

  /** The sum of the amounts of the entries for `key`. */
  function CostOf(entries: seq<(string, real)>, key: string): real {
    if |entries| == 0 then 0.0
    else
      var last := entries[|entries| - 1];
      CostOf(entries[..|entries| - 1], key) + (if last.0 == key then last.1 else 0.0)
  }

  predicate Mentions(entries: seq<(string, real)>, key: string) {
    exists i :: 0 <= i < |entries| && entries[i].0 == key
  }

  /** The cost map has an entry exactly for the references that occur, and
      that entry is the sum of their amounts. */
  lemma {:induction false} CostMapSumsPerReference(entries: seq<(string, real)>, key: string)
    ensures key in CostMap(entries) <==> Mentions(entries, key)
    ensures key in CostMap(entries) ==> CostMap(entries)[key] == CostOf(entries, key)
    ensures !Mentions(entries, key) ==> CostOf(entries, key) == 0.0
  {
    if |entries| > 0 {
      var init := entries[..|entries| - 1];
      var last := entries[|entries| - 1];
      CostMapSumsPerReference(init, key);
      assert forall i :: 0 <= i < |init| ==> init[i] == entries[i];
      if last.0 == key {
        assert Mentions(entries, key);
      } else if Mentions(entries, key) {
        var i :| 0 <= i < |entries| && entries[i].0 == key;
        assert i < |init| && init[i].0 == key;
      }
    }
  }

  /** The raw-material entries: each supplied row contributes
      `consumed_qty * rate` to its reference. */
  function RmEntries(supplied: seq<SuppliedItem>): (r: seq<(string, real)>)
    ensures |r| == |supplied|
  {
    seq(|supplied|, i requires 0 <= i < |supplied| => (supplied[i].referenceName, Amount(supplied[i].consumedQty, supplied[i].rate)))
  }

  /** The scrap entries: each scrap row contributes `qty * rate` to its
      reference. */
  function ScrapEntries(items: seq<ReceiptItem>): seq<(string, real)> {
    if |items| == 0 then []
    else
      var last := items[|items| - 1];
      var init := ScrapEntries(items[..|items| - 1]);
      if last.isScrapItem then init + [ScrapEntry(last)] else init
  }

  function ScrapEntry(it: ReceiptItem): (string, real) {
    (it.referenceName, Amount(it.qty, it.rate))
  }

  /** The supplied rows with their amounts set. */
  function WithAmounts(supplied: seq<SuppliedItem>): (r: seq<SuppliedItem>)
    ensures |r| == |supplied|
    ensures forall i :: 0 <= i < |r| ==> r[i] == supplied[i].(amount := Amount(supplied[i].consumedQty, supplied[i].rate))
  {
    seq(|supplied|, i requires 0 <= i < |supplied| => supplied[i].(amount := Amount(supplied[i].consumedQty, supplied[i].rate)))
  }

  /** One iteration of the scrap loop: row `i` takes its scrap-priced
      value, and the cost map takes the row's entry when it is scrap. */
  lemma ScrapLoopStep(items0: seq<ReceiptItem>, before: seq<ReceiptItem>, i: nat)
    requires i < |items0| == |before|
    requires before[..i] == ScrapPriced(items0)[..i] && before[i..] == items0[i..]
    ensures before[i] == items0[i]
    ensures items0[i].isScrapItem ==>
              before[i := items0[i].(amount := Amount(items0[i].qty, items0[i].rate))][..i + 1] == ScrapPriced(items0)[..i + 1]
    ensures items0[i].isScrapItem ==>
              before[i := items0[i].(amount := Amount(items0[i].qty, items0[i].rate))][i + 1..] == items0[i + 1..]
    ensures !items0[i].isScrapItem ==>
              before[..i + 1] == ScrapPriced(items0)[..i + 1] && before[i + 1..] == items0[i + 1..]
    ensures items0[i].isScrapItem ==>
              CostMap(ScrapEntries(items0[..i + 1]))
              == AddCost(CostMap(ScrapEntries(items0[..i])), items0[i].referenceName, Amount(items0[i].qty, items0[i].rate))
    ensures !items0[i].isScrapItem ==> ScrapEntries(items0[..i + 1]) == ScrapEntries(items0[..i])
  {
    assert before[i] == before[i..][0] == items0[i];
    assert before[i + 1..] == before[i..][1..] == items0[i..][1..] == items0[i + 1..];
    var it := items0[i];
    var target := ScrapPriced(items0)[i];
    PrefixExtend(ScrapPriced(items0), i);
    if it.isScrapItem {
      assert target == it.(amount := Amount(it.qty, it.rate));
      PrefixUpdate(before, i, target);
      assert before[i := target][..i + 1] == before[..i] + [target];
      assert ScrapPriced(items0)[..i + 1] == ScrapPriced(items0)[..i] + [target];
    } else {
      assert target == it;
      PrefixExtend(before, i);
    }
    var p := items0[..i + 1];
    assert p[..|p| - 1] == items0[..i] && p[|p| - 1] == it;
    if it.isScrapItem {
      var e := ScrapEntries(p);
      assert e == ScrapEntries(items0[..i]) + [ScrapEntry(it)];
      assert e[..|e| - 1] == ScrapEntries(items0[..i]);
      assert e[|e| - 1] == ScrapEntry(it);
      assert CostMap(e) == AddCost(CostMap(e[..|e| - 1]), e[|e| - 1].0, e[|e| - 1].1);
    }
  }

  /** The items with scrap amounts set, as after the second loop. */
  function ScrapPriced(items: seq<ReceiptItem>): (r: seq<ReceiptItem>)
    ensures |r| == |items|
    ensures forall i :: 0 <= i < |r| ==>
              r[i] == if items[i].isScrapItem then items[i].(amount := Amount(items[i].qty, items[i].rate)) else items[i]
  {
    seq(|items|, i requires 0 <= i < |items| =>
      if items[i].isScrapItem then items[i].(amount := Amount(items[i].qty, items[i].rate)) else items[i])
  }

  /* ---------------- pricing the rows ---------------- */

  /** One iteration of the third loop: a finished good with quantity takes
      its raw-material and scrap cost per unit from the maps (popping its
      entries), its rate is rebuilt from the per-unit costs, and every row
      gets its received quantity and amount. */
  function PriceItem(it: ReceiptItem, rm: map<string, real>, scrap: map<string, real>)
    : (ReceiptItem, map<string, real>, map<string, real>)
  {
    if it.isScrapItem then
      (it.(receivedQty := it.qty + it.rejectedQty, amount := Amount(it.qty, it.rate)), rm, scrap)
    else
      var (withRm, rm') :=
        if it.qty != 0.0 && it.name in rm
        then (it.(rmSuppCost := rm[it.name], rmCostPerQty := rm[it.name] / it.qty), rm - {it.name})
        else (it, rm);
      var (withScrap, scrap') :=
        if it.qty == 0.0 then (withRm, scrap)
        else if it.name in scrap then (withRm.(scrapCostPerQty := scrap[it.name] / it.qty), scrap - {it.name})
        else (withRm.(scrapCostPerQty := 0.0), scrap);
      var rate := withScrap.rmCostPerQty + withScrap.serviceCostPerQty
                  + withScrap.additionalCostPerQty - withScrap.scrapCostPerQty;
      (withScrap.(rate := rate, receivedQty := it.qty + it.rejectedQty, amount := Amount(it.qty, rate)), rm', scrap')
  }

  /** The rows from `i` on, priced in order with the maps threaded through. */
  function PriceFrom(s: seq<ReceiptItem>, i: nat, rm: map<string, real>, scrap: map<string, real>)
    : (r: seq<ReceiptItem>)
    requires i <= |s|
    ensures |r| == |s| - i
    decreases |s| - i
  {
    if i == |s| then []
    else
      var (it, rm', scrap') := PriceItem(s[i], rm, scrap);
      [it] + PriceFrom(s, i + 1, rm', scrap')
  }

  lemma PriceFromStep(s: seq<ReceiptItem>, i: nat, rm: map<string, real>, scrap: map<string, real>)
    requires i < |s|
    ensures var t := PriceItem(s[i], rm, scrap);
      PriceFrom(s, i, rm, scrap) == [t.0] + PriceFrom(s, i + 1, t.1, t.2)
  {}

  /** One iteration of the pricing loop on the loop's ghost state: row `i`
      takes its priced value `x`, and `rest` prices the rows after it. */
  lemma PriceRowsStep(s: seq<ReceiptItem>, before: seq<ReceiptItem>, i: nat,
                      x: ReceiptItem, rest: seq<ReceiptItem>, whole: seq<ReceiptItem>)
    requires i < |s| == |before|
    requires before[..i] + ([x] + rest) == whole
    requires before[i..] == s[i..]
    ensures before[i] == s[i]
    ensures before[i := x][..i + 1] + rest == whole
    ensures before[i := x][i + 1..] == s[i + 1..]
    ensures SumQty(before[i := x][..i + 1]) == SumQty(before[..i]) + x.qty
    ensures SumAmount(before[i := x][..i + 1]) == SumAmount(before[..i]) + x.amount
  {
    assert before[i] == before[i..][0] == s[i];
    assert before[i + 1..] == before[i..][1..] == s[i..][1..] == s[i + 1..];
    PrefixStep(before, i, x);
    assert before[..i] + ([x] + rest) == (before[..i] + [x]) + rest;
  }

  lemma PrefixUpdate<T>(before: seq<T>, i: nat, x: T)
    requires i < |before|
    ensures before[i := x][..i + 1] == before[..i] + [x]
    ensures before[i := x][i + 1..] == before[i + 1..]
  {}

  lemma PrefixExtend<T>(s: seq<T>, i: nat)
    requires i < |s|
    ensures s[..i + 1] == s[..i] + [s[i]]
  {}

  lemma PrefixStep(before: seq<ReceiptItem>, i: nat, x: ReceiptItem)
    requires i < |before|
    ensures before[i := x][..i + 1] == before[..i] + [x]
    ensures before[i := x][i + 1..] == before[i + 1..]
    ensures SumQty(before[i := x][..i + 1]) == SumQty(before[..i]) + x.qty
    ensures SumAmount(before[i := x][..i + 1]) == SumAmount(before[..i]) + x.amount
  {
    var after := before[i := x][..i + 1];
    assert after[..i] == before[..i];
  }

  /** Pricing keeps every row's quantity and sets its amount to quantity
      times its new rate. */
  lemma {:induction false} PriceFromRow(s: seq<ReceiptItem>, i: nat, rm: map<string, real>, scrap: map<string, real>, k: nat)
    requires i <= k < |s|
    ensures PriceFrom(s, i, rm, scrap)[k - i].qty == s[k].qty
    ensures PriceFrom(s, i, rm, scrap)[k - i].amount == Amount(s[k].qty, PriceFrom(s, i, rm, scrap)[k - i].rate)
    decreases k - i
  {
    var t := PriceItem(s[i], rm, scrap);
    PriceFromStep(s, i, rm, scrap);
    if i < k {
      PriceFromRow(s, i + 1, t.1, t.2, k);
    } else {
      PriceItemRow(s[i], rm, scrap);
    }
  }

  function SumQty(s: seq<ReceiptItem>): real {
    if |s| == 0 then 0.0 else SumQty(s[..|s| - 1]) + s[|s| - 1].qty
  }

  function SumAmount(s: seq<ReceiptItem>): real {
    if |s| == 0 then 0.0 else SumAmount(s[..|s| - 1]) + s[|s| - 1].amount
  }

  /** The state after `calculate_items_qty_and_amount`. */
  datatype Calculation = Calculation(
    items: seq<ReceiptItem>,
    suppliedItems: seq<SuppliedItem>,
    totalQty: real,
    total: real)

  function Calculated(items: seq<ReceiptItem>, supplied: seq<SuppliedItem>): Calculation {
    var priced := PriceFrom(ScrapPriced(items), 0, CostMap(RmEntries(supplied)), CostMap(ScrapEntries(items)));
    Calculation(priced, WithAmounts(supplied), SumQty(priced), SumAmount(priced))
  }

  predicate UniqueNames(items: seq<ReceiptItem>) {
    forall i, j :: 0 <= i < j < |items| ==> items[i].name != items[j].name
  }

  /** The pricing of a row depends on the maps only at its own name. */
  lemma PriceItemIsLocal(it: ReceiptItem, rm1: map<string, real>, scrap1: map<string, real>,
                         rm2: map<string, real>, scrap2: map<string, real>)
    requires (it.name in rm1 <==> it.name in rm2) && (it.name in rm1 ==> rm1[it.name] == rm2[it.name])
    requires (it.name in scrap1 <==> it.name in scrap2) && (it.name in scrap1 ==> scrap1[it.name] == scrap2[it.name])
    ensures PriceItem(it, rm1, scrap1).0 == PriceItem(it, rm2, scrap2).0
  {}

  /** With distinct row names, popping earlier rows' entries never touches a
      later row's entries, so each row is priced against the full maps. */
  lemma {:induction false} PricedAgainstFullMaps(s: seq<ReceiptItem>, i: nat, rm: map<string, real>,
                                                 scrap: map<string, real>, k: nat)
    requires i <= k < |s|
    requires forall j :: i <= j < k ==> s[j].name != s[k].name
    ensures PriceFrom(s, i, rm, scrap)[k - i] == PriceItem(s[k], rm, scrap).0
    decreases k - i
  {
    if i < k {
      var (_, rm', scrap') := PriceItem(s[i], rm, scrap);
      PricedAgainstFullMaps(s, i + 1, rm', scrap', k);
      PriceItemIsLocal(s[k], rm', scrap', rm, scrap);
    }
  }

  lemma {:induction false} ScrapEntriesMention(items: seq<ReceiptItem>, key: string)
    ensures Mentions(ScrapEntries(items), key) <==>
              exists j :: 0 <= j < |items| && items[j].isScrapItem && items[j].referenceName == key
  {
    if |items| > 0 {
      var init := items[..|items| - 1];
      ScrapEntriesMention(init, key);
      assert forall j :: 0 <= j < |init| ==> init[j] == items[j];
      var e, e0 := ScrapEntries(items), ScrapEntries(init);
      var last := items[|items| - 1];
      if last.isScrapItem {
        assert e == e0 + [ScrapEntry(last)];
        assert forall j :: 0 <= j < |e0| ==> e[j] == e0[j];
        assert e[|e0|].0 == last.referenceName;
        if Mentions(e, key) && !Mentions(e0, key) {
          assert last.referenceName == key;
        }
      } else {
        assert e == e0;
      }
    }
  }

  /** The rate of a finished good: its raw-material cost per unit is its
      raw-material cost map entry divided by its quantity (kept when it has
      no entry), its scrap cost per unit is its scrap cost map entry divided
      by its quantity (0 when it has none), and its rate is raw material +
      service + additional − scrap cost per unit. With
      `CostMapSumsPerReference` the entries are the sums of the consumed
      and scrap amounts referring to the row. */
  lemma FinishedGoodRate(items: seq<ReceiptItem>, supplied: seq<SuppliedItem>, k: nat)
    requires UniqueNames(items) && k < |items| && !items[k].isScrapItem
    ensures var it, r := items[k], Calculated(items, supplied).items[k];
      var rm, scrap := CostMap(RmEntries(supplied)), CostMap(ScrapEntries(items));
      (it.qty != 0.0 ==>
         r.rmCostPerQty == (if it.name in rm then rm[it.name] / it.qty else it.rmCostPerQty)
         && r.scrapCostPerQty == (if it.name in scrap then scrap[it.name] / it.qty else 0.0))
      && (it.qty == 0.0 ==> r.rmCostPerQty == it.rmCostPerQty && r.scrapCostPerQty == it.scrapCostPerQty)
      && r.rate == r.rmCostPerQty + it.serviceCostPerQty + it.additionalCostPerQty - r.scrapCostPerQty
      && r.receivedQty == it.qty + it.rejectedQty
  {
    var s := ScrapPriced(items);
    assert forall j :: 0 <= j < |s| ==> s[j].name == items[j].name;
    assert s[k] == items[k];
    FinishedGoodAgainstMaps(s, CostMap(RmEntries(supplied)), CostMap(ScrapEntries(items)), k);
  }

  lemma FinishedGoodAgainstMaps(s: seq<ReceiptItem>, rm: map<string, real>, scrap: map<string, real>, k: nat)
    requires k < |s| && !s[k].isScrapItem
    requires forall j :: 0 <= j < k ==> s[j].name != s[k].name
    ensures var it, r := s[k], PriceFrom(s, 0, rm, scrap)[k];
      (it.qty != 0.0 ==>
         r.rmCostPerQty == (if it.name in rm then rm[it.name] / it.qty else it.rmCostPerQty)
         && r.scrapCostPerQty == (if it.name in scrap then scrap[it.name] / it.qty else 0.0))
      && (it.qty == 0.0 ==> r.rmCostPerQty == it.rmCostPerQty && r.scrapCostPerQty == it.scrapCostPerQty)
      && r.rate == r.rmCostPerQty + it.serviceCostPerQty + it.additionalCostPerQty - r.scrapCostPerQty
      && r.receivedQty == it.qty + it.rejectedQty
  {
    PricedAgainstFullMaps(s, 0, rm, scrap, k);
    PriceFinishedGood(s[k], rm, scrap);
  }

  /** The pricing of a finished good against given maps. */
  lemma PriceFinishedGood(it: ReceiptItem, rm: map<string, real>, scrap: map<string, real>)
    requires !it.isScrapItem
    ensures var r := PriceItem(it, rm, scrap).0;
      (it.qty != 0.0 ==>
         r.rmCostPerQty == (if it.name in rm then rm[it.name] / it.qty else it.rmCostPerQty)
         && r.scrapCostPerQty == (if it.name in scrap then scrap[it.name] / it.qty else 0.0))
      && (it.qty == 0.0 ==> r.rmCostPerQty == it.rmCostPerQty && r.scrapCostPerQty == it.scrapCostPerQty)
      && r.rate == r.rmCostPerQty + it.serviceCostPerQty + it.additionalCostPerQty - r.scrapCostPerQty
      && r.receivedQty == it.qty + it.rejectedQty
      && r.amount == Amount(it.qty, r.rate)
  {}

  /** Every row's amount is its quantity times its (new) rate. */
  lemma RowAmount(items: seq<ReceiptItem>, supplied: seq<SuppliedItem>, k: nat)
    requires k < |items|
    ensures var r := Calculated(items, supplied).items[k];
      r.amount == Amount(items[k].qty, r.rate)
  {
    var s := ScrapPriced(items);
    var rm, scrap := CostMap(RmEntries(supplied)), CostMap(ScrapEntries(items));
    var priced := PriceFrom(s, 0, rm, scrap);
    PriceFromRow(s, 0, rm, scrap, k);
    assert priced[k].qty == items[k].qty;
  }

  lemma PriceItemRow(it: ReceiptItem, rm: map<string, real>, scrap: map<string, real>)
    ensures PriceItem(it, rm, scrap).0.qty == it.qty
    ensures PriceItem(it, rm, scrap).0.amount == Amount(it.qty, PriceItem(it, rm, scrap).0.rate)
  {}

  /** A scrap row keeps its rate, and its amount is quantity × rate. */
  lemma ScrapRowAmount(items: seq<ReceiptItem>, supplied: seq<SuppliedItem>, k: nat)
    requires UniqueNames(items) && k < |items| && items[k].isScrapItem
    ensures var it, r := items[k], Calculated(items, supplied).items[k];
      r.rate == it.rate && r.amount == Amount(it.qty, it.rate) && r.receivedQty == it.qty + it.rejectedQty
  {
    PricedAgainstFullMaps(ScrapPriced(items), 0, CostMap(RmEntries(supplied)), CostMap(ScrapEntries(items)), k);
  }

  lemma {:induction false} SumQtySameQty(s: seq<ReceiptItem>, t: seq<ReceiptItem>)
    requires |s| == |t| && forall k :: 0 <= k < |s| ==> s[k].qty == t[k].qty
    ensures SumQty(s) == SumQty(t)
  {
    if |s| > 0 {
      SumQtySameQty(s[..|s| - 1], t[..|t| - 1]);
    }
  }

  /** The total quantity counts every row, scrap included, and the total is
      the sum of the rows' amounts. */
  lemma TotalsCoverAllRows(items: seq<ReceiptItem>, supplied: seq<SuppliedItem>)
    ensures Calculated(items, supplied).totalQty == SumQty(items)
    ensures Calculated(items, supplied).total == SumAmount(Calculated(items, supplied).items)
  {
    var s := ScrapPriced(items);
    var rm, scrap := CostMap(RmEntries(supplied)), CostMap(ScrapEntries(items));
    var priced := PriceFrom(s, 0, rm, scrap);
    forall k | 0 <= k < |priced|
      ensures priced[k].qty == items[k].qty
    {
      PriceFromRow(s, 0, rm, scrap, k);
    }
    SumQtySameQty(priced, items);
  }

  /* ---------------- validators ---------------- */

  /** `validate_items_qty`: a row with neither accepted nor rejected
      quantity is refused. */
  function ValidateItemsQty(items: seq<ReceiptItem>): (r: Outcome<ReceiptError>)
    ensures r.Pass? <==> forall k :: 0 <= k < |items| ==> items[k].qty != 0.0 || items[k].rejectedQty != 0.0
    ensures r.Fail? ==> exists k :: 0 <= k < |items| && r.error == AcceptedAndRejectedQtyZero(items[k].idx)
  {
    if |items| == 0 then Pass
    else if items[0].qty == 0.0 && items[0].rejectedQty == 0.0 then Fail(AcceptedAndRejectedQtyZero(items[0].idx))
    else
      var r := ValidateItemsQty(items[1..]);
      assert forall k :: 1 <= k < |items| ==> items[k] == items[1..][k - 1];
      r
  }

  /** The first complaint about one scrap row, in the source's order. */
  function ScrapRowError(it: ReceiptItem): Option<ReceiptError> {
    if !it.isScrapItem then None
    else if it.qty == 0.0 then Some(ScrapQtyZero(it.idx))
    else if it.rejectedQty != 0.0 then Some(ScrapRejectedQty(it.idx))
    else if it.referenceName == "" then Some(ScrapWithoutReference(it.idx))
    else None
  }

  /** `validate_scrap_items`: a scrap row needs a quantity, no rejected
      quantity and a finished-good reference. */
  function ValidateScrapItems(items: seq<ReceiptItem>): (r: Outcome<ReceiptError>)
    ensures r.Pass? <==> forall k :: 0 <= k < |items| && items[k].isScrapItem ==>
                           items[k].qty != 0.0 && items[k].rejectedQty == 0.0 && items[k].referenceName != ""
    ensures r.Fail? ==> exists k :: 0 <= k < |items| && ScrapRowError(items[k]) == Some(r.error)
                                    && forall j :: 0 <= j < k ==> ScrapRowError(items[j]).None?
  {
    if |items| == 0 then Pass
    else if ScrapRowError(items[0]).Some? then Fail(ScrapRowError(items[0]).value)
    else
      var r := ValidateScrapItems(items[1..]);
      assert forall k :: 1 <= k < |items| ==> items[k] == items[1..][k - 1];
      if r.Fail? then
        var k :| 0 <= k < |items[1..]| && ScrapRowError(items[1..][k]) == Some(r.error)
                 && forall j :: 0 <= j < k ==> ScrapRowError(items[1..][j]).None?;
        assert ScrapRowError(items[k + 1]) == Some(r.error);
        r
      else r
  }

  /** One row of `validate_accepted_warehouse`: an accepted quantity
      without a warehouse takes the default warehouse or is refused, and
      the accepted and rejected warehouses must differ. */
  function AcceptedWarehouse(it: ReceiptItem, setWarehouse: string): (r: Result<ReceiptItem, ReceiptError>)
    ensures var warehouse := if it.qty != 0.0 && it.warehouse == "" then setWarehouse else it.warehouse;
      && (r.Success? <==> !(it.qty != 0.0 && it.warehouse == "" && setWarehouse == "")
                           && !(warehouse != "" && warehouse == it.rejectedWarehouse))
      && (r.Success? ==> r.value == it.(warehouse := warehouse))
  {
    var withWarehouse :-
      if it.qty != 0.0 && it.warehouse == "" then
        if setWarehouse != "" then Success(it.(warehouse := setWarehouse))
        else Failure(AcceptedWarehouseMissing(it.idx))
      else Success(it);
    if withWarehouse.warehouse != "" && withWarehouse.warehouse == withWarehouse.rejectedWarehouse
    then Failure(SameAcceptedAndRejectedWarehouse(it.idx))
    else Success(withWarehouse)
  }

  /** The row as `validate_accepted_warehouse` leaves it once the default
      warehouse is written in, before the accepted and rejected warehouses
      are compared. */
  function DefaultedWarehouse(it: ReceiptItem, setWarehouse: string): ReceiptItem {
    if it.qty != 0.0 && it.warehouse == "" && setWarehouse != "" then it.(warehouse := setWarehouse) else it
  }

  /** After a passing warehouse check every accepted row has a warehouse
      different from its rejected warehouse. */
  lemma AcceptedRowsHaveWarehouse(it: ReceiptItem, setWarehouse: string)
    requires AcceptedWarehouse(it, setWarehouse).Success?
    ensures var r := AcceptedWarehouse(it, setWarehouse).value;
      (r.qty != 0.0 ==> r.warehouse != "") && (r.warehouse != "" ==> r.warehouse != r.rejectedWarehouse)
  {}

  /** `validate_available_qty_for_consumption`: with an available quantity
      set, the consumed quantity may not exceed it at the field's
      precision. */
  function ValidateAvailableQtyForConsumption(supplied: seq<SuppliedItem>): (r: Outcome<ReceiptError>)
    ensures r.Pass? <==> forall k :: 0 <= k < |supplied| ==> !OverConsumed(supplied[k])
  {
    if |supplied| == 0 then Pass
    else if OverConsumed(supplied[0]) then Fail(ConsumedMoreThanAvailable(supplied[0].idx))
    else
      var r := ValidateAvailableQtyForConsumption(supplied[1..]);
      assert forall k :: 1 <= k < |supplied| ==> supplied[k] == supplied[1..][k - 1];
      r
  }

  predicate OverConsumed(s: SuppliedItem) {
    s.availableQtyForConsumption != 0.0
    && Rounding.Flt(s.availableQtyForConsumption, s.consumedQtyPrecision)
       - Rounding.Flt(s.consumedQty, s.consumedQtyPrecision) < 0.0
  }

  /* ---------------- removing scrap rows ---------------- */

  /** The rows after `remove_scrap_items`: scrap rows dropped, every other
      row's scrap cost per unit reset to 0. */
  function WithoutScrap(items: seq<ReceiptItem>): seq<ReceiptItem> {
    if |items| == 0 then []
    else
      var init := WithoutScrap(items[..|items| - 1]);
      var last := items[|items| - 1];
      if last.isScrapItem then init else init + [last.(scrapCostPerQty := 0.0)]
  }

  /** No scrap row survives, each surviving row is an original finished
      good with scrap cost 0, and every original finished good survives. */
  lemma {:induction false} WithoutScrapKeepsFinishedGoods(items: seq<ReceiptItem>)
    ensures forall k :: 0 <= k < |WithoutScrap(items)| ==>
              !WithoutScrap(items)[k].isScrapItem && WithoutScrap(items)[k].scrapCostPerQty == 0.0
              && WithoutScrap(items)[k].(scrapCostPerQty := 0.0) in Reset(items)
    ensures forall k :: 0 <= k < |items| && !items[k].isScrapItem ==> items[k].(scrapCostPerQty := 0.0) in WithoutScrap(items)
  {
    if |items| > 0 {
      var init := items[..|items| - 1];
      WithoutScrapKeepsFinishedGoods(init);
      assert forall k :: 0 <= k < |init| ==> init[k] == items[k];
      assert forall x :: x in Reset(init) ==> x in Reset(items);
    }
  }

  /** Every row with its scrap cost per unit reset. */
  function Reset(items: seq<ReceiptItem>): (r: seq<ReceiptItem>)
    ensures |r| == |items| && forall k :: 0 <= k < |items| ==> r[k] == items[k].(scrapCostPerQty := 0.0)
  {
    seq(|items|, k requires 0 <= k < |items| => items[k].(scrapCostPerQty := 0.0))
  }

  /* ---------------- the document ---------------- */

  class Receipt {
    var items: seq<ReceiptItem>
    var suppliedItems: seq<SuppliedItem>
    var setWarehouse: string
    var totalQty: real
    var total: real

    constructor(items: seq<ReceiptItem>, suppliedItems: seq<SuppliedItem>, setWarehouse: string)
      ensures this.items == items && this.suppliedItems == suppliedItems && this.setWarehouse == setWarehouse
      ensures totalQty == 0.0 && total == 0.0
    {
      this.items := items;
      this.suppliedItems := suppliedItems;
      this.setWarehouse := setWarehouse;
      totalQty := 0.0;
      total := 0.0;
    }

    /** `calculate_items_qty_and_amount`: the raw-material loop, the scrap
        loop and the pricing loop. */
    method CalculateItemsQtyAndAmount()
      modifies this`items, this`suppliedItems, this`totalQty, this`total
      ensures var c := Calculated(old(items), old(suppliedItems));
        items == c.items && suppliedItems == c.suppliedItems && totalQty == c.totalQty && total == c.total
    {
      var rmCostMap := RollUpSuppliedItems();
      var scrapCostMap := RollUpScrapItems();
      PriceRows(rmCostMap, scrapCostMap);
    }

    /** The raw-material loop: each supplied row gets its amount and adds
        it to its reference's entry. */
    method RollUpSuppliedItems() returns (rmCostMap: map<string, real>)
      modifies this`suppliedItems
      ensures suppliedItems == WithAmounts(old(suppliedItems))
      ensures rmCostMap == CostMap(RmEntries(old(suppliedItems)))
    {
      ghost var supplied0 := suppliedItems;
      rmCostMap := map[];
      var i := 0;
      while i < |suppliedItems|
        invariant 0 <= i <= |suppliedItems| == |supplied0|
        invariant suppliedItems[..i] == WithAmounts(supplied0)[..i]
        invariant suppliedItems[i..] == supplied0[i..]
        invariant rmCostMap == CostMap(RmEntries(supplied0)[..i])
      {
        var item := suppliedItems[i];
        assert item == supplied0[i];
        var amount := Amount(item.consumedQty, item.rate);
        ghost var before := suppliedItems;
        suppliedItems := suppliedItems[i := item.(amount := amount)];
        PrefixUpdate(before, i, item.(amount := amount));
        assert WithAmounts(supplied0)[i] == item.(amount := amount);
        PrefixExtend(WithAmounts(supplied0), i);
        ghost var entries := RmEntries(supplied0)[..i + 1];
        assert entries[..i] == RmEntries(supplied0)[..i];
        assert entries[i] == (item.referenceName, amount);
        assert CostMap(entries) == AddCost(CostMap(entries[..i]), item.referenceName, amount);
        rmCostMap := AddCost(rmCostMap, item.referenceName, amount);
        i := i + 1;
      }
      assert RmEntries(supplied0)[..i] == RmEntries(supplied0);
      assert suppliedItems[..i] == suppliedItems;
    }

    /** The scrap loop: each scrap row gets its amount and adds it to its
        reference's entry. */
    method RollUpScrapItems() returns (scrapCostMap: map<string, real>)
      modifies this`items
      ensures items == ScrapPriced(old(items))
      ensures scrapCostMap == CostMap(ScrapEntries(old(items)))
    {
      ghost var items0 := items;
      scrapCostMap := map[];
      var i := 0;
      while i < |items|
        invariant 0 <= i <= |items| == |items0|
        invariant items[..i] == ScrapPriced(items0)[..i]
        invariant items[i..] == items0[i..]
        invariant scrapCostMap == CostMap(ScrapEntries(items0[..i]))
      {
        var item := items[i];
        ScrapLoopStep(items0, items, i);
        if item.isScrapItem {
          var amount := Amount(item.qty, item.rate);
          items := items[i := item.(amount := amount)];
          scrapCostMap := AddCost(scrapCostMap, item.referenceName, amount);
        }
        i := i + 1;
      }
      assert items0[..i] == items0;
      assert items[..i] == items;
    }

    /** The pricing loop of `calculate_items_qty_and_amount`. */
    method PriceRows(rm0: map<string, real>, scrap0: map<string, real>)
      modifies this`items, this`totalQty, this`total
      ensures items == PriceFrom(old(items), 0, rm0, scrap0)
      ensures totalQty == SumQty(items) && total == SumAmount(items)
    {
      ghost var s := items;
      var rmCostMap, scrapCostMap := rm0, scrap0;
      var qty, amount := 0.0, 0.0;
      var i := 0;
      while i < |items|
        invariant 0 <= i <= |items| == |s|
        invariant items[..i] + PriceFrom(s, i, rmCostMap, scrapCostMap) == PriceFrom(s, 0, rm0, scrap0)
        invariant items[i..] == s[i..]
        invariant qty == SumQty(items[..i]) && amount == SumAmount(items[..i])
      {
        ghost var priced := PriceItem(s[i], rmCostMap, scrapCostMap);
        PriceFromStep(s, i, rmCostMap, scrapCostMap);
        PriceRowsStep(s, items, i, priced.0, PriceFrom(s, i + 1, priced.1, priced.2), PriceFrom(s, 0, rm0, scrap0));
        var t := PriceItem(items[i], rmCostMap, scrapCostMap);
        items := items[i := t.0];
        rmCostMap, scrapCostMap := t.1, t.2;
        qty := qty + t.0.qty;
        amount := amount + t.0.amount;
        i := i + 1;
      }
      assert items[..i] == items;
      totalQty, total := qty, amount;
    }

    /** `remove_scrap_items` (without recalculation). */
    method RemoveScrapItems()
      modifies this`items
      ensures items == WithoutScrap(old(items))
    {
      var kept: seq<ReceiptItem> := [];
      var i := 0;
      while i < |items|
        invariant 0 <= i <= |items|
        invariant kept == WithoutScrap(items[..i])
      {
        assert items[..i + 1][..i] == items[..i];
        if !items[i].isScrapItem {
          kept := kept + [items[i].(scrapCostPerQty := 0.0)];
        }
        i := i + 1;
      }
      assert items[..i] == items;
      items := kept;
    }

    /** `validate_accepted_warehouse`: rows are filled in order until one is
        refused; the rows before it keep their new warehouse, and the refused
        row keeps the default warehouse already written into it. */
    method ValidateAcceptedWarehouse() returns (r: Outcome<ReceiptError>)
      modifies this`items
      ensures |items| == |old(items)|
      ensures r.Pass? <==> forall k :: 0 <= k < |items| ==> AcceptedWarehouse(old(items)[k], setWarehouse).Success?
      ensures r.Pass? ==> forall k :: 0 <= k < |items| ==> items[k] == AcceptedWarehouse(old(items)[k], setWarehouse).value
      ensures r.Fail? ==> exists n :: 0 <= n < |items| && AcceptedWarehouse(old(items)[n], setWarehouse).Failure?
                                      && r.error == AcceptedWarehouse(old(items)[n], setWarehouse).error
                                      && items[n] == DefaultedWarehouse(old(items)[n], setWarehouse)
                                      && items[n + 1..] == old(items)[n + 1..]
                                      && forall k :: 0 <= k < n ==>
                                           (AcceptedWarehouse(old(items)[k], setWarehouse).Success?
                                            && items[k] == AcceptedWarehouse(old(items)[k], setWarehouse).value)
    {
      ghost var items0 := items;
      var i := 0;
      while i < |items|
        invariant 0 <= i <= |items| == |items0|
        invariant items[i..] == items0[i..]
        invariant forall k :: 0 <= k < i ==>
                               (AcceptedWarehouse(items0[k], setWarehouse).Success?
                                && items[k] == AcceptedWarehouse(items0[k], setWarehouse).value)
      {
        assert items[i] == items0[i];
        if items[i].qty != 0.0 && items[i].warehouse == "" {
          if setWarehouse != "" {
            items := items[i := items[i].(warehouse := setWarehouse)];
          } else {
            assert items[i + 1..] == items0[i + 1..];
            return Fail(AcceptedWarehouseMissing(items[i].idx));
          }
        }
        assert items[i] == DefaultedWarehouse(items0[i], setWarehouse);
        assert items[i + 1..] == items0[i + 1..];
        if items[i].warehouse != "" && items[i].warehouse == items[i].rejectedWarehouse {
          return Fail(SameAcceptedAndRejectedWarehouse(items[i].idx));
        }
        i := i + 1;
      }
      r := Pass;
    }
  }
}
