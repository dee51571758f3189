/** `computePersonTotals`: per-person item shares (equal or custom split), the bill-level
    subtotal, tax and tip, their proportional distribution over the people, and the
    per-person and grand totals. */
module PersonTotals {
  import opened Common
  import opened Bill
  import Split
  import Allocate
  import Tax
  import Tip

  /** One item as it appears in a person's breakdown. */
  datatype PersonItemDetail = PersonItemDetail(
    itemId: string,
    itemName: string,
    fullPriceInCents: int,
    shareInCents: int,
    splitCount: int,
    isCustomSplit: bool)

  /** One person's breakdown. */
  datatype PersonBreakdown = PersonBreakdown(
    personId: string,
    personName: string,
    items: seq<PersonItemDetail>,
    itemsSubtotal: int,
    taxShare: int,
    tipShare: int,
    total: int)

  datatype BillSummary = BillSummary(
    personBreakdowns: seq<PersonBreakdown>,
    billSubtotal: int,
    totalTax: int,
    totalTip: int,
    grandTotal: int)

  // ---- Shares of one item ---------------------------------------------------------------

  /** The person ids of a custom split, in order. */
  function EntryIds(entries: seq<SplitEntry>): (r: seq<string>)
    ensures |r| == |entries|
    ensures forall i :: 0 <= i < |entries| ==> r[i] == entries[i].personId
  {
    seq(|entries|, i requires 0 <= i < |entries| => entries[i].personId)
  }

  /** The amounts of a custom split, in order. */
  function Amounts(entries: seq<SplitEntry>): (r: seq<int>)
    ensures |r| == |entries|
    ensures forall i :: 0 <= i < |entries| ==> r[i] == entries[i].amountInCents
  {
    seq(|entries|, i requires 0 <= i < |entries| => entries[i].amountInCents)
  }

  /** `customSplit.find(entry => entry.personId === personId)`, its amount or 0: the amount
      of the first entry for the person, 0 when there is none. */
  function CustomShare(entries: seq<SplitEntry>, personId: string): (r: int)
    ensures personId in EntryIds(entries) ==> r == entries[IndexOf(EntryIds(entries), personId)].amountInCents
    ensures personId !in EntryIds(entries) ==> r == 0
  {
    if |entries| == 0 then 0
    else if entries[0].personId == personId then entries[0].amountInCents
    else
      assert EntryIds(entries)[1..] == EntryIds(entries[1..]);
      CustomShare(entries[1..], personId)
  }

  /** What `personId`, one of the assignees, pays for an item of price `price`: the custom
      amount when the assignment has a custom split, else their position's share of
      `splitEqually(price, personIds.length)`. */
  function ShareFor(a: Assignment, price: int, personId: string): int
    requires personId in a.personIds
  {
    match a.customSplit
    case Some(entries) => CustomShare(entries, personId)
    case None => Split.EqualShares(price, |a.personIds|)[IndexOf(a.personIds, personId)]
  }

  /** The item has an assignment that lists the person. */
  predicate AssignedTo(assignments: map<string, Assignment>, item: Item, personId: string)
  {
    item.id in assignments && personId in assignments[item.id].personIds
  }

  /** `AssignedTo` as the filter over the items. */
  function IsAssignedTo(assignments: map<string, Assignment>, personId: string): Item -> bool
  {
    (item: Item) => AssignedTo(assignments, item, personId)
  }

  /** The detail pushed for an item assigned to the person. */
  function Detail(assignments: map<string, Assignment>, item: Item, personId: string): PersonItemDetail
    requires AssignedTo(assignments, item, personId)
  {
    var a := assignments[item.id];
    PersonItemDetail(item.id, item.name, item.priceInCents, ShareFor(a, item.priceInCents, personId),
      |a.personIds|, a.customSplit.Some?)
  }

  /** A person's item details: the items assigned to them, in item order, each with its detail. */
  function ItemDetails(assignments: map<string, Assignment>, items: seq<Item>, personId: string): (r: seq<PersonItemDetail>)
  {
    var assignedItems := Filter(items, IsAssignedTo(assignments, personId));
    seq(|assignedItems|, k requires 0 <= k < |assignedItems| => Detail(assignments, assignedItems[k], personId))
  }

  /** A person's details are exactly the details of the items assigned to them. */
  lemma ItemDetailsExactlyAssigned(assignments: map<string, Assignment>, items: seq<Item>, personId: string)
    ensures forall d :: d in ItemDetails(assignments, items, personId) ==>
      (exists i :: 0 <= i < |items| && AssignedTo(assignments, items[i], personId)
                   && d == Detail(assignments, items[i], personId))
    ensures forall i :: 0 <= i < |items| && AssignedTo(assignments, items[i], personId) ==>
      Detail(assignments, items[i], personId) in ItemDetails(assignments, items, personId)
  {
    var keep := IsAssignedTo(assignments, personId);
    var assignedItems := Filter(items, keep);
    var details := ItemDetails(assignments, items, personId);
    forall d | d in details
      ensures exists i :: (0 <= i < |items| && AssignedTo(assignments, items[i], personId)
                           && d == Detail(assignments, items[i], personId))
    {
      var k :| 0 <= k < |details| && details[k] == d;
      assert assignedItems[k] in items && keep(assignedItems[k]);
      var i :| 0 <= i < |items| && items[i] == assignedItems[k];
      assert AssignedTo(assignments, items[i], personId);
      assert details[k] == Detail(assignments, items[i], personId);
    }
    forall i | 0 <= i < |items| && AssignedTo(assignments, items[i], personId)
      ensures Detail(assignments, items[i], personId) in details
    {
      assert keep(items[i]);
      var k :| 0 <= k < |assignedItems| && assignedItems[k] == items[i];
      assert details[k] == Detail(assignments, items[i], personId);
    }
  }

  /** The sum of the shares of a list of details. */
  function SharesSum(details: seq<PersonItemDetail>): int
  {
    if |details| == 0 then 0 else SharesSum(details[..|details| - 1]) + details[|details| - 1].shareInCents
  }

  lemma {:induction false} SharesSumAppend(a: seq<PersonItemDetail>, b: seq<PersonItemDetail>)
    ensures SharesSum(a + b) == SharesSum(a) + SharesSum(b)
  {
    if |b| == 0 {
      assert a + b == a;
    } else {
      assert (a + b)[..|a + b| - 1] == a + b[..|b| - 1];
      SharesSumAppend(a, b[..|b| - 1]);
    }
  }

  /** One more item adds its detail at the end exactly when it is assigned to the person. */
  lemma ItemDetailsAppend(assignments: map<string, Assignment>, items: seq<Item>, item: Item, personId: string)
    ensures ItemDetails(assignments, items + [item], personId)
         == ItemDetails(assignments, items, personId)
            + (if AssignedTo(assignments, item, personId) then [Detail(assignments, item, personId)] else [])
  {
    var keep := IsAssignedTo(assignments, personId);
    FilterAppend(items, [item], keep);
    assert [item][1..] == [];
  }

  /** What an item adds to the person's subtotal: their share if it is assigned to them. */
  function Contribution(assignments: map<string, Assignment>, item: Item, personId: string): int
  {
    if AssignedTo(assignments, item, personId) then ShareFor(assignments[item.id], item.priceInCents, personId) else 0
  }

  /** The subtotal of the details grows by the contribution of each new item. */
  lemma SubtotalAppend(assignments: map<string, Assignment>, items: seq<Item>, item: Item, personId: string)
    ensures SharesSum(ItemDetails(assignments, items + [item], personId))
         == SharesSum(ItemDetails(assignments, items, personId)) + Contribution(assignments, item, personId)
  {
    ItemDetailsAppend(assignments, items, item, personId);
    var extra := if AssignedTo(assignments, item, personId) then [Detail(assignments, item, personId)] else [];
    SharesSumAppend(ItemDetails(assignments, items, personId), extra);
    if AssignedTo(assignments, item, personId) {
      assert extra[..0] == [];
    }
  }

  // ---- The summary ------------------------------------------------------------------------

  /** A person's breakdown before tax and tip are applied. */
  function Breakdown(assignments: map<string, Assignment>, items: seq<Item>, person: Person): PersonBreakdown
  {
    var details := ItemDetails(assignments, items, person.id);
    PersonBreakdown(person.id, person.name, details, SharesSum(details), 0, 0, SharesSum(details))
  }

  /** `personSubtotals`: each person's items subtotal, in the order of the people. */
  function PersonSubtotals(people: seq<Person>, items: seq<Item>, assignments: map<string, Assignment>): (r: seq<int>)
    ensures |r| == |people|
  {
    seq(|people|, i requires 0 <= i < |people| => SharesSum(ItemDetails(assignments, items, people[i].id)))
  }

  /** `personSubtotals.some(s => s > 0)`. */
  predicate HasAnySubtotal(s: seq<int>)
  {
    exists i :: 0 <= i < |s| && s[i] > 0
  }

  /** The bill's tax: 0 without a tax input. */
  function TotalTax(billSubtotal: int, taxInput: Option<Tax.TaxInput>): int
  {
    match taxInput
    case None => 0
    case Some(input) => Tax.CalculateTax(billSubtotal, input)
  }

  /** The tax or tip shares: the proportional allocation when someone has a positive
      subtotal and the amount is positive, zeros otherwise. */
  function Distribution(amount: int, subtotals: seq<int>): (r: Result<seq<int>, Allocate.AllocError>)
    ensures r.Success? ==> |r.value| == |subtotals|
    ensures !(HasAnySubtotal(subtotals) && amount > 0) ==> r == Success(Zeros(|subtotals|))
    ensures HasAnySubtotal(subtotals) && amount > 0 ==> r == Allocate.Allocation(amount, subtotals)
  {
    if HasAnySubtotal(subtotals) && amount > 0 then Allocate.Allocation(amount, subtotals)
    else Success(Zeros(|subtotals|))
  }

  /** A breakdown with its tax and tip shares applied. */
  function WithShares(b: PersonBreakdown, taxShare: int, tipShare: int): PersonBreakdown
  {
    b.(taxShare := taxShare, tipShare := tipShare, total := b.itemsSubtotal + taxShare + tipShare)
  }

  /** The totals of the breakdowns, in order. */
  function TotalsOf(breakdowns: seq<PersonBreakdown>): (r: seq<int>)
    ensures |r| == |breakdowns|
  {
    seq(|breakdowns|, i requires 0 <= i < |breakdowns| => breakdowns[i].total)
  }

  /** `computePersonTotals` as a value: the allocation's error when distributing the tax or
      the tip throws, else the summary. */
  function Summary(people: seq<Person>, items: seq<Item>, assignments: map<string, Assignment>,
                   taxInput: Option<Tax.TaxInput>, tipRate: real): (r: Result<BillSummary, Allocate.AllocError>)
    ensures r.Success? ==> |r.value.personBreakdowns| == |people| && r.value.billSubtotal == ItemsTotal(items)
    ensures r.Success? ==> forall i :: 0 <= i < |people| ==>
      (var b := r.value.personBreakdowns[i];
       b.personId == people[i].id && b.total == b.itemsSubtotal + b.taxShare + b.tipShare)
  {
    var subtotals := PersonSubtotals(people, items, assignments);
    var billSubtotal := ItemsTotal(items);
    var totalTax := TotalTax(billSubtotal, taxInput);
    var totalTip := Tip.CalculateTip(billSubtotal, tipRate);
    var taxShares := Distribution(totalTax, subtotals);
    var tipShares := Distribution(totalTip, subtotals);
    if taxShares.Failure? then Failure(taxShares.error)
    else if tipShares.Failure? then Failure(tipShares.error)
    else
      var breakdowns := seq(|people|, i requires 0 <= i < |people| =>
        WithShares(Breakdown(assignments, items, people[i]), taxShares.value[i], tipShares.value[i]));
      Success(BillSummary(breakdowns, billSubtotal, totalTax, totalTip, Sum(TotalsOf(breakdowns))))
  }

  /** The detail the item loop pushes for an item whose assignment lists the person: the
      custom amount, or the person's share of `splitEqually`. */
  method ItemDetailOf(assignment: Assignment, item: Item, personId: string) returns (detail: PersonItemDetail)
    requires personId in assignment.personIds
    ensures detail.shareInCents == ShareFor(assignment, item.priceInCents, personId)
    ensures detail == PersonItemDetail(item.id, item.name, item.priceInCents, detail.shareInCents,
      |assignment.personIds|, assignment.customSplit.Some?)
  {
    var isCustomSplit := assignment.customSplit.Some?;
    var shareInCents: int;
    if assignment.customSplit.Some? {
      shareInCents := CustomShare(assignment.customSplit.value, personId);
    } else {
      var shares := Split.SplitEqually(item.priceInCents, |assignment.personIds|);
      shareInCents := shares.value[IndexOf(assignment.personIds, personId)];
    }
    detail := PersonItemDetail(item.id, item.name, item.priceInCents, shareInCents,
      |assignment.personIds|, isCustomSplit);
  }

  /** The body of `people.map(person => ...)`: the loop over the items that pushes a detail
      for each item assigned to the person and adds up the shares. */
  method PersonBreakdownOf(assignments: map<string, Assignment>, items: seq<Item>, person: Person)
    returns (b: PersonBreakdown)
    ensures b == Breakdown(assignments, items, person)
  {
    var personItems: seq<PersonItemDetail> := [];
    var itemsSubtotal := 0;
    for k := 0 to |items|
      invariant personItems == ItemDetails(assignments, items[..k], person.id)
      invariant itemsSubtotal == SharesSum(personItems)
    {
      var item := items[k];
      assert items[..k + 1] == items[..k] + [item];
      ItemDetailsAppend(assignments, items[..k], item, person.id);
      if item.id in assignments && person.id in assignments[item.id].personIds {
        var detail := ItemDetailOf(assignments[item.id], item, person.id);
        assert detail == Detail(assignments, item, person.id);
        SharesSumAppend(personItems, [detail]);
        assert [detail][..0] == [];
        personItems := personItems + [detail];
        itemsSubtotal := itemsSubtotal + detail.shareInCents;
      }
    }
    assert items[..|items|] == items;
    return PersonBreakdown(person.id, person.name, personItems, itemsSubtotal, 0, 0, itemsSubtotal);
  }

  /** `distributeTax`/`distributeTip` behind the `hasAnySubtotal && amount > 0` guard. */
  method DistributeOrZeros(amount: int, personSubtotals: seq<int>) returns (r: Result<seq<int>, Allocate.AllocError>)
    ensures r == Distribution(amount, personSubtotals)
  {
    if HasAnySubtotal(personSubtotals) && amount > 0 {
      r := Allocate.AllocateProportionally(amount, personSubtotals);
    } else {
      r := Success(Zeros(|personSubtotals|));
    }
  }

  /** The `forEach` that sets each breakdown's tax share, tip share and total. */
  method ApplyShares(breakdowns: seq<PersonBreakdown>, taxShares: seq<int>, tipShares: seq<int>)
    returns (r: seq<PersonBreakdown>)
    requires |taxShares| == |breakdowns| && |tipShares| == |breakdowns|
    ensures |r| == |breakdowns|
    ensures forall q :: 0 <= q < |r| ==> r[q] == WithShares(breakdowns[q], taxShares[q], tipShares[q])
  {
    r := breakdowns;
    for i := 0 to |r|
      invariant |r| == |breakdowns|
      invariant forall q :: 0 <= q < i ==> r[q] == WithShares(breakdowns[q], taxShares[q], tipShares[q])
      invariant forall q :: i <= q < |r| ==> r[q] == breakdowns[q]
    {
      var b := r[i];
      r := r[i := b.(taxShare := taxShares[i], tipShare := tipShares[i],
        total := b.itemsSubtotal + taxShares[i] + tipShares[i])];
    }
  }

  /** `computePersonTotals(people, items, assignments, taxInput, tipRate)`. */
  method ComputePersonTotals(people: seq<Person>, items: seq<Item>, assignments: map<string, Assignment>,
                             taxInput: Option<Tax.TaxInput>, tipRate: real)
    returns (r: Result<BillSummary, Allocate.AllocError>)
    ensures r == Summary(people, items, assignments, taxInput, tipRate)
  {
    var personBreakdowns: seq<PersonBreakdown> := [];
    for p := 0 to |people|
      invariant |personBreakdowns| == p
      invariant forall q :: 0 <= q < p ==> personBreakdowns[q] == Breakdown(assignments, items, people[q])
    {
      var b := PersonBreakdownOf(assignments, items, people[p]);
      personBreakdowns := personBreakdowns + [b];
    }

    var billSubtotal := ItemsTotal(items);
    var totalTax := TotalTax(billSubtotal, taxInput);
    var totalTip := Tip.CalculateTip(billSubtotal, tipRate);
    var personSubtotals := seq(|personBreakdowns|, i requires 0 <= i < |personBreakdowns| => personBreakdowns[i].itemsSubtotal);
    assert personSubtotals == PersonSubtotals(people, items, assignments);

    var taxShares := DistributeOrZeros(totalTax, personSubtotals);
    if taxShares.Failure? {
      return Failure(taxShares.error);
    }
    var tipShares := DistributeOrZeros(totalTip, personSubtotals);
    if tipShares.Failure? {
      return Failure(tipShares.error);
    }
    var breakdowns := personBreakdowns;
    personBreakdowns := ApplyShares(breakdowns, taxShares.value, tipShares.value);
    assert personBreakdowns == seq(|people|, i requires 0 <= i < |people| =>
      WithShares(Breakdown(assignments, items, people[i]), taxShares.value[i], tipShares.value[i]));
    var grandTotal := Sum(TotalsOf(personBreakdowns));
    return Success(BillSummary(personBreakdowns, billSubtotal, totalTax, totalTip, grandTotal));
  }

  // ---- What one item contributes ----------------------------------------------------------

  /** What each person pays for one item, in the order of the people. */
  function ItemColumn(people: seq<Person>, assignments: map<string, Assignment>, item: Item): (r: seq<int>)
    ensures |r| == |people|
    ensures forall j :: 0 <= j < |people| ==> r[j] == Contribution(assignments, item, people[j].id)
  {
    seq(|people|, j requires 0 <= j < |people| => Contribution(assignments, item, people[j].id))
  }

  /** An assignment that accounts for the whole price among the people `ids`: at least one
      assignee, no assignee twice, every assignee one of the people and a non-negative price;
      a custom split has at most one entry per person, only for assignees, and its amounts
      add up to the price (what the assignment step's save guarantees). */
  predicate Covers(ids: seq<string>, a: Assignment, price: int)
  {
    |a.personIds| > 0 && Distinct(a.personIds) && price >= 0
    && (forall i :: 0 <= i < |a.personIds| ==> a.personIds[i] in ids)
    && match a.customSplit
       case None => true
       case Some(entries) =>
         Distinct(EntryIds(entries))
         && (forall i :: 0 <= i < |entries| ==> EntryIds(entries)[i] in a.personIds)
         && Sum(Amounts(entries)) == price
  }

  /** Every item has an assignment that covers its price, and the people's ids are distinct. */
  predicate FullyAssigned(people: seq<Person>, items: seq<Item>, assignments: map<string, Assignment>)
  {
    Distinct(PersonIds(people))
    && forall i :: 0 <= i < |items| ==>
         items[i].id in assignments && Covers(PersonIds(people), assignments[items[i].id], items[i].priceInCents)
  }

  /** The people's shares of an item whose assignment covers it add up to its price, for an
      equal split through `splitEqually` and for a custom split alike. */
  lemma ItemColumnSum(people: seq<Person>, assignments: map<string, Assignment>, item: Item)
    requires Distinct(PersonIds(people))
    requires item.id in assignments && Covers(PersonIds(people), assignments[item.id], item.priceInCents)
    ensures Sum(ItemColumn(people, assignments, item)) == item.priceInCents
  {
    var a := assignments[item.id];
    var ids := PersonIds(people);
    var column := ItemColumn(people, assignments, item);
    match a.customSplit
    case None =>
      var shares := Split.EqualShares(item.priceInCents, |a.personIds|);
      assert column == Gather(ids, a.personIds, shares);
      GatherSum(ids, a.personIds, shares);
      Split.EqualSharesSum(item.priceInCents, |a.personIds|);
    case Some(entries) =>
      var entryIds := EntryIds(entries);
      forall j | 0 <= j < |people|
        ensures column[j] == Gather(ids, entryIds, Amounts(entries))[j]
      {
        if ids[j] in entryIds {
          var k := IndexOf(entryIds, ids[j]);
          assert entryIds[k] in a.personIds;
        }
      }
      assert column == Gather(ids, entryIds, Amounts(entries));
      forall i | 0 <= i < |entryIds|
        ensures entryIds[i] in ids
      {
        var k := IndexOf(a.personIds, entryIds[i]);
        assert a.personIds[k] in ids;
      }
      GatherSum(ids, entryIds, Amounts(entries));
  }

  // ---- Conservation -----------------------------------------------------------------------

  /** When every item is fully assigned, the people's item subtotals add up to the bill
      subtotal: no cent of an item is lost or counted twice. */
  lemma {:induction false} SubtotalsSumToBill(people: seq<Person>, items: seq<Item>, assignments: map<string, Assignment>)
    requires FullyAssigned(people, items, assignments)
    ensures Sum(PersonSubtotals(people, items, assignments)) == ItemsTotal(items)
  {
    var subtotals := PersonSubtotals(people, items, assignments);
    if |items| == 0 {
      forall j | 0 <= j < |people|
        ensures subtotals[j] == 0
      {
        assert ItemDetails(assignments, items, people[j].id) == [];
      }
      SumZeros(subtotals);
    } else {
      var n := |items| - 1;
      var init := items[..n];
      var last := items[n];
      assert items == init + [last];
      assert FullyAssigned(people, init, assignments) by {
        forall i | 0 <= i < |init|
          ensures init[i] == items[i]
        {
        }
      }
      SubtotalsSumToBill(people, init, assignments);
      var before := PersonSubtotals(people, init, assignments);
      var column := ItemColumn(people, assignments, last);
      forall j | 0 <= j < |people|
        ensures subtotals[j] == before[j] + column[j]
      {
        SubtotalAppend(assignments, init, last, people[j].id);
      }
      SumPointwise(before, column, subtotals);
      ItemColumnSum(people, assignments, last);
      ItemsTotalAppend(init, last);
    }
  }

  /** A distribution of a non-negative amount over subtotals with a positive sum (or of
      nothing) succeeds and hands out exactly the amount. */
  lemma DistributionSum(amount: int, subtotals: seq<int>)
    requires amount >= 0
    requires amount == 0 || Sum(subtotals) > 0
    ensures Distribution(amount, subtotals).Success?
    ensures Sum(Distribution(amount, subtotals).value) == amount
  {
    if amount > 0 {
      PositiveSumHasPositive(subtotals);
      Allocate.AllocationSum(amount, subtotals);
    }
  }

  /** The summary fails exactly when someone has a positive subtotal, the subtotals cancel
      out to zero and there is tax or tip to distribute; the error is then `ZeroTotal`. */
  lemma SummaryFailsIff(people: seq<Person>, items: seq<Item>, assignments: map<string, Assignment>,
                        taxInput: Option<Tax.TaxInput>, tipRate: real)
    ensures var subtotals := PersonSubtotals(people, items, assignments);
      var billSubtotal := ItemsTotal(items);
      Summary(people, items, assignments, taxInput, tipRate).Failure?
      <==> HasAnySubtotal(subtotals) && Sum(subtotals) == 0
           && (TotalTax(billSubtotal, taxInput) > 0 || Tip.CalculateTip(billSubtotal, tipRate) > 0)
    ensures Summary(people, items, assignments, taxInput, tipRate).Failure? ==>
      Summary(people, items, assignments, taxInput, tipRate).error == Allocate.ZeroTotal
  {
    var subtotals := PersonSubtotals(people, items, assignments);
    var billSubtotal := ItemsTotal(items);
    DistributionFailsIff(TotalTax(billSubtotal, taxInput), subtotals);
    DistributionFailsIff(Tip.CalculateTip(billSubtotal, tipRate), subtotals);
  }

  /** Distributing an amount fails, with `ZeroTotal`, exactly when someone has a positive
      subtotal, the subtotals cancel out and the amount is positive. */
  lemma DistributionFailsIff(amount: int, subtotals: seq<int>)
    ensures Distribution(amount, subtotals).Failure?
      <==> HasAnySubtotal(subtotals) && Sum(subtotals) == 0 && amount > 0
    ensures Distribution(amount, subtotals).Failure? ==> Distribution(amount, subtotals).error == Allocate.ZeroTotal
  {
  }

  /** The grand total is the sum of the item subtotals, the tax shares and the tip shares. */
  lemma GrandTotalDecomposes(people: seq<Person>, items: seq<Item>, assignments: map<string, Assignment>,
                             taxInput: Option<Tax.TaxInput>, tipRate: real)
    requires Summary(people, items, assignments, taxInput, tipRate).Success?
    ensures var billSubtotal := ItemsTotal(items);
      var subtotals := PersonSubtotals(people, items, assignments);
      var taxShares := Distribution(TotalTax(billSubtotal, taxInput), subtotals);
      var tipShares := Distribution(Tip.CalculateTip(billSubtotal, tipRate), subtotals);
      taxShares.Success? && tipShares.Success?
      && Summary(people, items, assignments, taxInput, tipRate).value.grandTotal
         == Sum(subtotals) + Sum(taxShares.value) + Sum(tipShares.value)
  {
    var s := Summary(people, items, assignments, taxInput, tipRate).value;
    var billSubtotal := ItemsTotal(items);
    var subtotals := PersonSubtotals(people, items, assignments);
    var tax := Distribution(TotalTax(billSubtotal, taxInput), subtotals).value;
    var tip := Distribution(Tip.CalculateTip(billSubtotal, tipRate), subtotals).value;
    var totals := TotalsOf(s.personBreakdowns);
    var subtotalsAndTax := seq(|people|, i requires 0 <= i < |people| => subtotals[i] + tax[i]);
    SumPointwise(subtotals, tax, subtotalsAndTax);
    SumPointwise(subtotalsAndTax, tip, totals);
  }

  /** The sum invariant: when every item is fully assigned, the tax and tip are not negative
      and there is no tax on an empty bill, the summary succeeds and its grand total is the
      bill subtotal plus the tax plus the tip. */
  lemma GrandTotalEqualsBill(people: seq<Person>, items: seq<Item>, assignments: map<string, Assignment>,
                             taxInput: Option<Tax.TaxInput>, tipRate: real)
    requires FullyAssigned(people, items, assignments)
    requires TotalTax(ItemsTotal(items), taxInput) >= 0 && tipRate >= 0.0
    requires ItemsTotal(items) > 0 || TotalTax(ItemsTotal(items), taxInput) == 0
    ensures Summary(people, items, assignments, taxInput, tipRate).Success?
    ensures var s := Summary(people, items, assignments, taxInput, tipRate).value;
      s.grandTotal == s.billSubtotal + s.totalTax + s.totalTip
  {
    var billSubtotal := ItemsTotal(items);
    var subtotals := PersonSubtotals(people, items, assignments);
    SubtotalsSumToBill(people, items, assignments);
    var tax := TotalTax(billSubtotal, taxInput);
    var tip := Tip.CalculateTip(billSubtotal, tipRate);
    assert forall i :: 0 <= i < |items| ==> items[i].priceInCents >= 0;
    ItemsTotalNonNegative(items);
    Tip.TipBounds(billSubtotal, tipRate);
    Tip.TipNonNegative(billSubtotal, tipRate);
    DistributionSum(tax, subtotals);
    DistributionSum(tip, subtotals);
    GrandTotalDecomposes(people, items, assignments, taxInput, tipRate);
  }
}
