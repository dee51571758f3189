/** The assignment step: toggling a person on an item, the gate that lets the wizard go on,
    and the custom-split editor, which turns whole percentages into cent amounts that add up
    to the item's price. The editor's percentages are kept as a list parallel to the
    assigned people (their ids are distinct), in the order of the assignment. */
module AssignmentStep {
  import opened Common
  import opened Bill
  import Split
  import Allocate
  import BillStore
  import PersonTotals

  // ---- togglePersonOnItem -------------------------------------------------------------------

  /** `assignment?.personIds || []`. */
  function CurrentPersonIds(assignments: map<string, Assignment>, itemId: string): seq<string>
  {
    if itemId in assignments then assignments[itemId].personIds else []
  }

  /** The new list of people: without the person if they were on it, else with them
      appended at the end. */
  function Toggled(current: seq<string>, personId: string): (r: seq<string>)
    ensures personId in r <==> personId !in current
    ensures personId in current ==> KeptInOrder(r, current, BillStore.OtherId(personId))
    ensures personId in current ==> forall x :: x in r <==> x in current && x != personId
    ensures personId !in current ==> r == current + [personId]
  {
    FilterKeptInOrder(current, BillStore.OtherId(personId));
    if personId in current then Filter(current, BillStore.OtherId(personId)) else current + [personId]
  }

  /** On a list without repetitions, toggling off a person leaves one person fewer. */
  lemma ToggledRemovesOne(current: seq<string>, personId: string)
    requires Distinct(current) && personId in current
    ensures |Toggled(current, personId)| == |current| - 1
  {
    FilterOneOut(current, BillStore.OtherId(personId), IndexOf(current, personId));
  }

  /** `togglePersonOnItem(itemId, personId)`: `assignItem` with the toggled list, so the item
      loses any custom split and an emptied assignment is deleted. */
  function TogglePersonOnItem(d: BillData, itemId: string, personId: string): (r: BillData)
    ensures itemId in r.assignments ==>
      (personId in r.assignments[itemId].personIds <==> personId !in CurrentPersonIds(d.assignments, itemId))
      && r.assignments[itemId].customSplit == None
    ensures itemId !in r.assignments <==> Toggled(CurrentPersonIds(d.assignments, itemId), personId) == []
    ensures itemId in r.assignments ==>
      r.assignments[itemId].personIds == Toggled(CurrentPersonIds(d.assignments, itemId), personId)
    ensures forall k :: k != itemId ==> (k in r.assignments <==> k in d.assignments)
    ensures forall k :: k != itemId && k in r.assignments ==> r.assignments[k] == d.assignments[k]
    ensures r.people == d.people && r.items == d.items
    ensures r.taxInput == d.taxInput && r.tipRate == d.tipRate
  {
    BillStore.AssignItemIn(d, itemId, Toggled(CurrentPersonIds(d.assignments, itemId), personId))
  }

  /** Toggling a person who is not on the list twice gives the list back. */
  lemma ToggleTwice(current: seq<string>, personId: string)
    requires personId !in current
    ensures Toggled(Toggled(current, personId), personId) == current
  {
    var keep := BillStore.OtherId(personId);
    assert forall i :: 0 <= i < |current| ==> keep(current[i]);
    FilterKeepsAll(current, keep);
    FilterAppend(current, [personId], keep);
  }

  /** Toggling a person twice on an item with an equal split and without that person
      restores the bill. */
  lemma ToggleOnItemTwice(d: BillData, itemId: string, personId: string)
    requires personId !in CurrentPersonIds(d.assignments, itemId)
    requires itemId in d.assignments ==>
      d.assignments[itemId] == Assignment(itemId, d.assignments[itemId].personIds, None)
      && |d.assignments[itemId].personIds| > 0
    ensures TogglePersonOnItem(TogglePersonOnItem(d, itemId, personId), itemId, personId) == d
  {
    var current := CurrentPersonIds(d.assignments, itemId);
    ToggleTwice(current, personId);
    var once := TogglePersonOnItem(d, itemId, personId);
    assert CurrentPersonIds(once.assignments, itemId) == current + [personId];
    var twice := TogglePersonOnItem(once, itemId, personId);
    if itemId in d.assignments {
      assert twice.assignments == d.assignments;
    } else {
      assert twice.assignments == d.assignments;
    }
  }

  // ---- canProceedFromAssignment -------------------------------------------------------------

  /** Some assignment names at least one person. */
  predicate SomeoneAssigned(assignments: map<string, Assignment>)
  {
    exists k :: k in assignments && |assignments[k].personIds| > 0
  }

  /** `canProceedFromAssignment(items, assignments)`: walks the assignments and answers yes at
      the first one with people. The items are not looked at. */
  method CanProceedFromAssignment(items: seq<Item>, assignments: map<string, Assignment>) returns (b: bool)
    ensures b <==> SomeoneAssigned(assignments)
  {
    var todo := assignments.Keys;
    while todo != {}
      invariant todo <= assignments.Keys
      invariant forall k :: k in assignments && k !in todo ==> |assignments[k].personIds| == 0
      decreases todo
    {
      var itemId :| itemId in todo;
      if |assignments[itemId].personIds| > 0 {
        return true;
      }
      todo := todo - {itemId};
    }
    return false;
  }

  // ---- The custom-split editor: percentages -------------------------------------------------

  /** The initial percentages for `n` people: `Math.floor(100 / n)` each, with what is left
      of 100 added to the first. */
  function InitialShares(n: nat): (r: seq<int>)
    ensures |r| == n
  {
    if n == 0 then []
    else seq(n, i requires 0 <= i < n => 100 / n + (if i == 0 then 100 - (100 / n) * n else 0))
  }

  /** The `forEach` that fills `initialPercentages`. */
  method InitialPercentages(n: nat) returns (percentages: seq<int>)
    ensures percentages == InitialShares(n)
  {
    if n == 0 {
      return [];
    }
    var equalPercentage := 100 / n;
    var remainder := 100 - equalPercentage * n;
    percentages := [];
    for index := 0 to n
      invariant |percentages| == index
      invariant forall i :: 0 <= i < index ==> percentages[i] == InitialShares(n)[i]
    {
      percentages := percentages + [equalPercentage + (if index == 0 then remainder else 0)];
    }
  }

  /** The arithmetic of the initial split, on `100 == b * n + r`. */
  lemma InitialArithmetic(n: int, b: int, r: int)
    requires n > 0 && 0 <= r < n && 100 == b * n + r
    ensures 0 <= b <= 100 && b * n <= 100 && b + r <= 100
  {
    Allocate.Distribute(n, b, 1);
    Allocate.PositiveFactor(n, b + 1);
    if n > 1 {
      Allocate.PositiveFactor(n - 1, b);
      Allocate.Distribute(b, n, 1);
    }
  }

  /** The initial percentages add up to 100, all lie in `[0, 100]`, everyone after the first
      gets `100 / n` and the first gets at least as much as anyone. */
  lemma InitialSharesValid(n: nat)
    requires n > 0
    ensures Sum(InitialShares(n)) == 100
    ensures forall i :: 0 <= i < n ==> 0 <= InitialShares(n)[i] <= 100
    ensures forall i :: 0 < i < n ==> InitialShares(n)[i] == 100 / n <= InitialShares(n)[0]
  {
    var b := 100 / n;
    var r := 100 - b * n;
    assert r == 100 % n;
    InitialArithmetic(n, b, r);
    var flat := Split.Steps(n, b, 0);
    Split.StepsSum(n, b, 0);
    assert InitialShares(n) == flat[0 := b + r];
    SumUpdate(flat, 0, b + r);
  }

  lemma InitialSharesExamples()
    ensures InitialShares(2) == [50, 50]
    ensures InitialShares(3) == [34, 33, 33]
    ensures InitialShares(4) == [25, 25, 25, 25]
  {
  }

  /** `handlePercentageChange`: a value that is not a number becomes 0, any other is clamped
      to `[0, 100]`. The parsed number (`parseInt`) is a parameter. */
  function ClampPercentage(parsed: Option<int>): (r: int)
    ensures 0 <= r <= 100
    ensures parsed.None? ==> r == 0
    ensures parsed.Some? && 0 <= parsed.value <= 100 ==> r == parsed.value
    ensures parsed.Some? && parsed.value > 100 ==> r == 100
    ensures parsed.Some? && parsed.value < 0 ==> r == 0
  {
    match parsed
    case None => 0
    case Some(v) => if v < 0 then 0 else if v > 100 then 100 else v
  }

  /** The percentages after editing the person `personId`'s entry. */
  function EditPercentage(ids: seq<string>, percentages: seq<int>, personId: string, parsed: Option<int>): (r: seq<int>)
    requires |ids| == |percentages| && personId in ids
    ensures |r| == |percentages|
    ensures r[IndexOf(ids, personId)] == ClampPercentage(parsed)
    ensures forall i :: 0 <= i < |r| && ids[i] != personId ==> r[i] == percentages[i]
  {
    percentages[IndexOf(ids, personId) := ClampPercentage(parsed)]
  }

  // ---- The custom-split editor: saving ------------------------------------------------------

  /** `Math.round((price * percentage) / 100)` in exact integers: the nearest whole cent,
      halves rounded up. */
  function RoundedShare(price: int, percentage: int): (r: int)
    ensures 100 * r - 50 <= price * percentage < 100 * r + 50
  {
    (price * percentage + 50) / 100
  }

  /** The entries before the correction: each assigned person with their rounded amount. */
  function RoundedSplit(price: int, ids: seq<string>, percentages: seq<int>): (r: seq<SplitEntry>)
    requires |ids| == |percentages|
    ensures |r| == |ids|
    ensures forall i :: 0 <= i < |r| ==> r[i] == SplitEntry(ids[i], RoundedShare(price, percentages[i]))
  {
    seq(|ids|, i requires 0 <= i < |ids| => SplitEntry(ids[i], RoundedShare(price, percentages[i])))
  }

  /** Where the `reduce` that looks for the largest split ends: the first position holding the
      largest percentage (a later one only wins with a strictly larger percentage). */
  function FirstMaxIndex(percentages: seq<int>): (m: nat)
    requires |percentages| > 0
    ensures m < |percentages|
    ensures forall i :: 0 <= i < |percentages| ==> percentages[i] <= percentages[m]
    ensures forall i :: 0 <= i < m ==> percentages[i] < percentages[m]
  {
    if |percentages| == 1 then 0
    else
      var m := FirstMaxIndex(percentages[..|percentages| - 1]);
      if percentages[|percentages| - 1] > percentages[m] then |percentages| - 1 else m
  }

  /** What `handleSave` passes on: nothing unless the percentages total exactly 100;
      otherwise the rounded entries, with the difference to the price added to the first
      person with the largest percentage. */
  function SavedSplit(price: int, ids: seq<string>, percentages: seq<int>): (r: Option<seq<SplitEntry>>)
    requires |ids| == |percentages|
    ensures r.Some? <==> Sum(percentages) == 100
  {
    if Sum(percentages) != 100 then None
    else
      var split := RoundedSplit(price, ids, percentages);
      var difference := price - Sum(PersonTotals.Amounts(split));
      if difference == 0 then Some(split)
      else
        var m := FirstMaxIndex(percentages);
        Some(split[m := split[m].(amountInCents := split[m].amountInCents + difference)])
  }

  /** `handleSave`: the rounded entries, their total, and the in-place correction of the
      largest split found by a running maximum. */
  method HandleSave(price: int, ids: seq<string>, percentages: seq<int>) returns (r: Option<seq<SplitEntry>>)
    requires |ids| == |percentages|
    ensures r == SavedSplit(price, ids, percentages)
  {
    if Sum(percentages) != 100 {
      return None;
    }
    var customSplit := RoundedSplit(price, ids, percentages);
    var totalCents := Sum(PersonTotals.Amounts(customSplit));
    var difference := price - totalCents;
    if difference != 0 {
      var largest := 0;
      for i := 1 to |customSplit|
        invariant largest == FirstMaxIndex(percentages[..i])
      {
        assert percentages[..i + 1][..i] == percentages[..i];
        if percentages[i] > percentages[largest] {
          largest := i;
        }
      }
      assert percentages[..|customSplit|] == percentages;
      var entry := customSplit[largest];
      customSplit := customSplit[largest := entry.(amountInCents := entry.amountInCents + difference)];
    }
    return Some(customSplit);
  }

  /** A saved split has one entry per assigned person, in order, and its amounts add up to
      the price exactly; everyone except the corrected person keeps the rounded amount. */
  lemma SavedSplitSum(price: int, ids: seq<string>, percentages: seq<int>)
    requires |ids| == |percentages| && Sum(percentages) == 100
    ensures var r := SavedSplit(price, ids, percentages).value;
      PersonTotals.EntryIds(r) == ids
      && Sum(PersonTotals.Amounts(r)) == price
      && forall i :: 0 <= i < |r| && i != FirstMaxIndex(percentages) ==>
           r[i].amountInCents == RoundedShare(price, percentages[i])
  {
    var split := RoundedSplit(price, ids, percentages);
    var amounts := PersonTotals.Amounts(split);
    var difference := price - Sum(amounts);
    var r := SavedSplit(price, ids, percentages).value;
    if difference != 0 {
      var m := FirstMaxIndex(percentages);
      assert PersonTotals.Amounts(r) == amounts[m := amounts[m] + difference];
      SumUpdate(amounts, m, amounts[m] + difference);
    }
  }

  /** Saving with 100% in total gives a custom split that covers the price (in the sense
      the person totals need) for an assignment of distinct listed people. */
  lemma SavedSplitCovers(people: seq<Person>, a: Assignment, price: int, percentages: seq<int>)
    requires |a.personIds| == |percentages| && Sum(percentages) == 100
    requires |a.personIds| > 0 && Distinct(a.personIds) && price >= 0
    requires forall i :: 0 <= i < |a.personIds| ==> a.personIds[i] in PersonIds(people)
    ensures PersonTotals.Covers(PersonIds(people), a.(customSplit := SavedSplit(price, a.personIds, percentages)), price)
  {
    SavedSplitSum(price, a.personIds, percentages);
  }

  /** 33/33/34 of 1000 and 50/30/20 of 2500 convert without a correction. */
  lemma SavedSplitExamples()
    ensures SavedSplit(1000, ["p1", "p2", "p3"], [33, 33, 34])
         == Some([SplitEntry("p1", 330), SplitEntry("p2", 330), SplitEntry("p3", 340)])
    ensures SavedSplit(2500, ["p1", "p2", "p3"], [50, 30, 20])
         == Some([SplitEntry("p1", 1250), SplitEntry("p2", 750), SplitEntry("p3", 500)])
  {
    SumThree(33, 33, 34);
    SumThree(50, 30, 20);
    var s1 := RoundedSplit(1000, ["p1", "p2", "p3"], [33, 33, 34]);
    assert s1 == [SplitEntry("p1", 330), SplitEntry("p2", 330), SplitEntry("p3", 340)];
    assert PersonTotals.Amounts(s1) == [330, 330, 340];
    SumThree(330, 330, 340);
    var s2 := RoundedSplit(2500, ["p1", "p2", "p3"], [50, 30, 20]);
    assert s2 == [SplitEntry("p1", 1250), SplitEntry("p2", 750), SplitEntry("p3", 500)];
    assert PersonTotals.Amounts(s2) == [1250, 750, 500];
    SumThree(1250, 750, 500);
  }

  /** 33/33/34 of 1001 rounds to 1000 in total; the missing cent goes to the 34% person. */
  lemma SavedSplitCorrectionExample()
    ensures SavedSplit(1001, ["p1", "p2", "p3"], [33, 33, 34])
         == Some([SplitEntry("p1", 330), SplitEntry("p2", 330), SplitEntry("p3", 341)])
  {
    SumThree(33, 33, 34);
    var s := RoundedSplit(1001, ["p1", "p2", "p3"], [33, 33, 34]);
    assert s == [SplitEntry("p1", 330), SplitEntry("p2", 330), SplitEntry("p3", 340)];
    assert PersonTotals.Amounts(s) == [330, 330, 340];
    SumThree(330, 330, 340);
    assert [33, 33, 34][..2] == [33, 33];
    assert [33, 33][..1] == [33];
    assert FirstMaxIndex([33, 33, 34]) == 2;
    var difference := 1001 - Sum(PersonTotals.Amounts(s));
    assert difference == 1;
    assert s[2 := s[2].(amountInCents := s[2].amountInCents + difference)]
        == [SplitEntry("p1", 330), SplitEntry("p2", 330), SplitEntry("p3", 341)];
  }

  /** Totals of 99% and 101% are not saved. */
  lemma SavedSplitRejectsExamples()
    ensures SavedSplit(1000, ["p1", "p2", "p3"], [33, 33, 33]) == None
    ensures SavedSplit(1000, ["p1", "p2", "p3"], [34, 34, 33]) == None
  {
    SumThree(33, 33, 33);
    SumThree(34, 34, 33);
  }
}
