/** The bill store: the bill being edited and the actions that replace its fields. Each
    action is first a function from the old bill to the new one (the updater handed to the
    store's `set`); the class `Store` holds the five fields and its methods perform the
    updates. Ids are parameters, assumed fresh where a lemma needs it. */
module BillStore {
  import opened Common
  import opened Text
  import opened Bill
  import Tax

  /** The tip rate of a new or reset bill. */
  const InitialTipRate: real := 0.18

  /** `initialState`: no people, items or assignments, no tax, an 18% tip. */
  function Initial(): (d: BillData)
    ensures d.people == [] && d.items == [] && d.assignments == map[]
    ensures d.taxInput == None && d.tipRate == InitialTipRate
  {
    BillData([], [], map[], None, InitialTipRate)
  }

  /** The filters of the store's actions. */
  function OtherId(id: string): string -> bool
  {
    (x: string) => x != id
  }

  function OtherPerson(id: string): Person -> bool
  {
    (p: Person) => p.id != id
  }

  function OtherItem(id: string): Item -> bool
  {
    (i: Item) => i.id != id
  }

  /** The bill's references hang together: every assignment is keyed by the id of a listed
      item, names at least one person and only listed people. */
  predicate Consistent(d: BillData)
  {
    forall k :: k in d.assignments ==>
      k in ItemIds(d.items)
      && |d.assignments[k].personIds| > 0
      && forall i :: 0 <= i < |d.assignments[k].personIds| ==> d.assignments[k].personIds[i] in PersonIds(d.people)
  }

  // ---- addPerson ----------------------------------------------------------------------------

  /** `addPerson(name)`: appends a person with the trimmed name and the id `id`; nothing
      happens when the trimmed name is empty. */
  function AddPersonTo(d: BillData, name: string, id: string): (r: BillData)
    ensures Trim(name) == [] ==> r == d
    ensures Trim(name) != [] ==>
      |r.people| == |d.people| + 1 && r.people[..|d.people|] == d.people
      && r.people[|d.people|] == Person(id, Trim(name))
    ensures r.items == d.items && r.assignments == d.assignments
    ensures r.taxInput == d.taxInput && r.tipRate == d.tipRate
  {
    var trimmedName := Trim(name);
    if trimmedName == [] then d
    else d.(people := d.people + [Person(id, trimmedName)])
  }

  lemma AddPersonKeepsConsistent(d: BillData, name: string, id: string)
    requires Consistent(d)
    ensures Consistent(AddPersonTo(d, name, id))
  {
    var r := AddPersonTo(d, name, id);
    forall k, i | k in r.assignments && 0 <= i < |r.assignments[k].personIds|
      ensures r.assignments[k].personIds[i] in PersonIds(r.people)
    {
      var j := IndexOf(PersonIds(d.people), d.assignments[k].personIds[i]);
      assert PersonIds(r.people)[j] == PersonIds(d.people)[j];
    }
  }

  // ---- removePerson -------------------------------------------------------------------------

  /** What is left of an assignment without the person `id`. */
  function Without(a: Assignment, id: string): (r: Assignment)
    ensures r.itemId == a.itemId && r.customSplit == a.customSplit
    ensures id !in r.personIds
    ensures forall x :: x in r.personIds <==> x in a.personIds && x != id
  {
    var personIds := Filter(a.personIds, OtherId(id));
    a.(personIds := personIds)
  }

  /** The people left on an assignment are its other people, each occurrence once and in
      their order, so nobody else leaves and none is added or moved. */
  lemma WithoutKeepsOrder(a: Assignment, id: string)
    ensures KeptInOrder(Without(a, id).personIds, a.personIds, OtherId(id))
    ensures forall x :: x != id ==> multiset(Without(a, id).personIds)[x] == multiset(a.personIds)[x]
  {
    FilterKeptInOrder(a.personIds, OtherId(id));
    forall x | x != id
      ensures multiset(Without(a, id).personIds)[x] == multiset(a.personIds)[x]
    {
      FilterCounts(a.personIds, OtherId(id), x);
    }
  }

  /** When the assigned ids are distinct, removing one of them leaves one person fewer, so
      an equal split of the item is over one share fewer. */
  lemma WithoutDistinct(a: Assignment, id: string)
    requires Distinct(a.personIds) && id in a.personIds
    ensures |Without(a, id).personIds| == |a.personIds| - 1
  {
    FilterOneOut(a.personIds, OtherId(id), IndexOf(a.personIds, id));
  }

  /** The assignments after removing the person `id`: each loses `id` from its people, and
      one that is left with nobody is deleted. */
  function PruneAssignments(assignments: map<string, Assignment>, id: string): (r: map<string, Assignment>)
    ensures forall k :: k in r <==> k in assignments && |Without(assignments[k], id).personIds| > 0
    ensures forall k :: k in r ==> r[k] == Without(assignments[k], id)
  {
    map k | k in assignments && |Without(assignments[k], id).personIds| > 0 :: Without(assignments[k], id)
  }

  /** `removePerson(id)`: the people without `id`, and the pruned assignments. */
  function RemovePersonFrom(d: BillData, id: string): (r: BillData)
    ensures KeptInOrder(r.people, d.people, OtherPerson(id))
    ensures forall i :: 0 <= i < |r.people| ==> r.people[i].id != id && r.people[i] in d.people
    ensures forall i :: 0 <= i < |d.people| && d.people[i].id != id ==> d.people[i] in r.people
    ensures r.assignments == PruneAssignments(d.assignments, id)
    ensures r.assignments.Keys <= d.assignments.Keys
    ensures forall k :: k in r.assignments ==> id !in r.assignments[k].personIds
    ensures r.items == d.items && r.taxInput == d.taxInput && r.tipRate == d.tipRate
  {
    FilterKeptInOrder(d.people, OtherPerson(id));
    d.(people := Filter(d.people, OtherPerson(id)), assignments := PruneAssignments(d.assignments, id))
  }

  /** Removing a person keeps the bill consistent: nobody refers to them any more and no
      assignment is left empty. */
  lemma RemovePersonKeepsConsistent(d: BillData, id: string)
    requires Consistent(d)
    ensures Consistent(RemovePersonFrom(d, id))
  {
    var r := RemovePersonFrom(d, id);
    forall k, i | k in r.assignments && 0 <= i < |r.assignments[k].personIds|
      ensures r.assignments[k].personIds[i] in PersonIds(r.people)
    {
      var x := r.assignments[k].personIds[i];
      assert x in d.assignments[k].personIds && x != id;
      var j :| 0 <= j < |d.assignments[k].personIds| && d.assignments[k].personIds[j] == x;
      var p := IndexOf(PersonIds(d.people), x);
      assert d.people[p] in r.people;
      var q :| 0 <= q < |r.people| && r.people[q] == d.people[p];
      assert PersonIds(r.people)[q] == x;
    }
  }

  /** Removing the same person twice is removing them once. */
  lemma RemovePersonIdempotent(d: BillData, id: string)
    ensures RemovePersonFrom(RemovePersonFrom(d, id), id) == RemovePersonFrom(d, id)
  {
    var r := RemovePersonFrom(d, id);
    FilterKeepsAll(r.people, OtherPerson(id));
    forall k | k in r.assignments
      ensures Without(r.assignments[k], id) == r.assignments[k]
    {
      FilterKeepsAll(r.assignments[k].personIds, OtherId(id));
    }
    assert PruneAssignments(r.assignments, id) == r.assignments;
  }

  /** Pruning a person nobody is assigned to changes no non-empty assignment. */
  lemma PruneAbsentPerson(assignments: map<string, Assignment>, id: string)
    requires forall k :: k in assignments ==> |assignments[k].personIds| > 0 && id !in assignments[k].personIds
    ensures PruneAssignments(assignments, id) == assignments
  {
    forall k | k in assignments
      ensures Without(assignments[k], id) == assignments[k]
    {
      WithoutAbsent(assignments[k], id);
    }
  }

  /** Removing a person who is not on an assignment leaves it as it is. */
  lemma WithoutAbsent(a: Assignment, id: string)
    requires id !in a.personIds
    ensures Without(a, id) == a
  {
    assert forall i :: 0 <= i < |a.personIds| ==> OtherId(id)(a.personIds[i]);
    FilterKeepsAll(a.personIds, OtherId(id));
  }

  /** Filtering out an id nobody has, after appending a person with that id, gives the
      people back. */
  lemma FilterAppendedPerson(people: seq<Person>, p: Person)
    requires p.id !in PersonIds(people)
    ensures Filter(people, OtherPerson(p.id)) == people
    ensures Filter(people + [p], OtherPerson(p.id)) == people
  {
    forall i | 0 <= i < |people|
      ensures OtherPerson(p.id)(people[i])
    {
      assert PersonIds(people)[i] == people[i].id;
    }
    FilterKeepsAll(people, OtherPerson(p.id));
    FilterAppend(people, [p], OtherPerson(p.id));
  }

  /** With a fresh id, adding a person and removing them again restores the consistent bill. */
  lemma AddThenRemovePerson(d: BillData, name: string, id: string)
    requires Consistent(d) && id !in PersonIds(d.people)
    ensures RemovePersonFrom(AddPersonTo(d, name, id), id) == d
  {
    FilterAppendedPerson(d.people, Person(id, Trim(name)));
    assert forall k :: k in d.assignments ==> id !in d.assignments[k].personIds;
    PruneAbsentPerson(d.assignments, id);
  }

  // ---- addItem / removeItem -----------------------------------------------------------------

  /** `addItem(name, priceInCents)`: appends an item with the trimmed name; nothing happens
      when the trimmed name is empty or the price is negative. */
  function AddItemTo(d: BillData, name: string, priceInCents: int, id: string): (r: BillData)
    ensures Trim(name) == [] || priceInCents < 0 ==> r == d
    ensures Trim(name) != [] && priceInCents >= 0 ==>
      |r.items| == |d.items| + 1 && r.items[..|d.items|] == d.items
      && r.items[|d.items|] == Item(id, Trim(name), priceInCents)
    ensures r.people == d.people && r.assignments == d.assignments
    ensures r.taxInput == d.taxInput && r.tipRate == d.tipRate
  {
    var trimmedName := Trim(name);
    if trimmedName == [] || priceInCents < 0 then d
    else d.(items := d.items + [Item(id, trimmedName, priceInCents)])
  }

  lemma AddItemKeepsConsistent(d: BillData, name: string, priceInCents: int, id: string)
    requires Consistent(d)
    ensures Consistent(AddItemTo(d, name, priceInCents, id))
  {
    var r := AddItemTo(d, name, priceInCents, id);
    forall k | k in r.assignments
      ensures k in ItemIds(r.items)
    {
      var j := IndexOf(ItemIds(d.items), k);
      assert ItemIds(r.items)[j] == k;
    }
  }

  /** `removeItem(id)`: the items without `id`, and no assignment for `id`. */
  function RemoveItemFrom(d: BillData, id: string): (r: BillData)
    ensures id !in ItemIds(r.items) && id !in r.assignments
    ensures KeptInOrder(r.items, d.items, OtherItem(id))
    ensures forall i :: 0 <= i < |r.items| ==> r.items[i] in d.items
    ensures forall i :: 0 <= i < |d.items| && d.items[i].id != id ==> d.items[i] in r.items
    ensures forall k :: k in r.assignments <==> k in d.assignments && k != id
    ensures forall k :: k in r.assignments ==> r.assignments[k] == d.assignments[k]
    ensures r.people == d.people && r.taxInput == d.taxInput && r.tipRate == d.tipRate
  {
    var items := Filter(d.items, OtherItem(id));
    FilterKeptInOrder(d.items, OtherItem(id));
    assert forall i :: 0 <= i < |items| ==> ItemIds(items)[i] != id;
    d.(items := items, assignments := d.assignments - {id})
  }

  lemma RemoveItemKeepsConsistent(d: BillData, id: string)
    requires Consistent(d)
    ensures Consistent(RemoveItemFrom(d, id))
  {
    var r := RemoveItemFrom(d, id);
    forall k | k in r.assignments
      ensures k in ItemIds(r.items)
    {
      var j := IndexOf(ItemIds(d.items), k);
      assert d.items[j] in r.items;
      var q :| 0 <= q < |r.items| && r.items[q] == d.items[j];
      assert ItemIds(r.items)[q] == k;
    }
  }

  /** Filtering out a fresh item id, with or without the item just appended under it, gives
      the items back. */
  lemma FilterAppendedItem(items: seq<Item>, it: Item)
    requires it.id !in ItemIds(items)
    ensures Filter(items, OtherItem(it.id)) == items
    ensures Filter(items + [it], OtherItem(it.id)) == items
  {
    forall i | 0 <= i < |items|
      ensures OtherItem(it.id)(items[i])
    {
      assert ItemIds(items)[i] == items[i].id;
    }
    FilterKeepsAll(items, OtherItem(it.id));
    assert (items + [it])[..|items|] == items;
  }

  /** With a fresh id, adding an item and removing it again restores the bill. */
  lemma AddThenRemoveItem(d: BillData, name: string, priceInCents: int, id: string)
    requires id !in ItemIds(d.items) && id !in d.assignments
    ensures RemoveItemFrom(AddItemTo(d, name, priceInCents, id), id) == d
  {
    var it := Item(id, Trim(name), priceInCents);
    FilterAppendedItem(d.items, it);
    var added := AddItemTo(d, name, priceInCents, id);
    assert added.items == d.items || added.items == d.items + [it];
    assert Filter(added.items, OtherItem(id)) == d.items;
    assert added.assignments - {id} == d.assignments;
  }

  // ---- assignments --------------------------------------------------------------------------

  /** `assignItem(itemId, personIds)`: an empty list deletes the assignment; otherwise the
      assignment becomes exactly these people, without a custom split. */
  function AssignItemIn(d: BillData, itemId: string, personIds: seq<string>): (r: BillData)
    ensures |personIds| == 0 ==> itemId !in r.assignments
    ensures |personIds| > 0 ==> itemId in r.assignments && r.assignments[itemId] == Assignment(itemId, personIds, None)
    ensures forall k :: k != itemId ==> (k in r.assignments <==> k in d.assignments)
    ensures forall k :: k != itemId && k in r.assignments ==> r.assignments[k] == d.assignments[k]
    ensures r.people == d.people && r.items == d.items && r.taxInput == d.taxInput && r.tipRate == d.tipRate
  {
    if |personIds| == 0 then d.(assignments := d.assignments - {itemId})
    else d.(assignments := d.assignments[itemId := Assignment(itemId, personIds, None)])
  }

  /** Assigning a listed item to listed people keeps the bill consistent. */
  lemma AssignItemKeepsConsistent(d: BillData, itemId: string, personIds: seq<string>)
    requires Consistent(d)
    requires itemId in ItemIds(d.items)
    requires forall i :: 0 <= i < |personIds| ==> personIds[i] in PersonIds(d.people)
    ensures Consistent(AssignItemIn(d, itemId, personIds))
  {
  }

  /** `setCustomSplit(itemId, customSplit)`: only for an existing assignment, whose people
      stay as they are. */
  function SetCustomSplitIn(d: BillData, itemId: string, customSplit: seq<SplitEntry>): (r: BillData)
    ensures itemId !in d.assignments ==> r == d
    ensures itemId in d.assignments ==>
      r.assignments == d.assignments[itemId := d.assignments[itemId].(customSplit := Some(customSplit))]
    ensures r.people == d.people && r.items == d.items && r.taxInput == d.taxInput && r.tipRate == d.tipRate
  {
    if itemId !in d.assignments then d
    else d.(assignments := d.assignments[itemId := d.assignments[itemId].(customSplit := Some(customSplit))])
  }

  /** `clearCustomSplit(itemId)`: only for an existing assignment, which keeps its item id and
      people and loses its custom split. */
  function ClearCustomSplitIn(d: BillData, itemId: string): (r: BillData)
    ensures itemId !in d.assignments ==> r == d
    ensures itemId in d.assignments ==>
      itemId in r.assignments && r.assignments[itemId].customSplit == None
      && r.assignments[itemId].personIds == d.assignments[itemId].personIds
      && r.assignments[itemId].itemId == d.assignments[itemId].itemId
    ensures r.assignments.Keys == d.assignments.Keys
    ensures forall k :: k in r.assignments && k != itemId ==> r.assignments[k] == d.assignments[k]
    ensures r.people == d.people && r.items == d.items && r.taxInput == d.taxInput && r.tipRate == d.tipRate
  {
    if itemId !in d.assignments then d
    else
      var a := d.assignments[itemId];
      d.(assignments := d.assignments[itemId := Assignment(a.itemId, a.personIds, None)])
  }

  /** Clearing a custom split undoes setting one. */
  lemma ClearUndoesSetCustomSplit(d: BillData, itemId: string, customSplit: seq<SplitEntry>)
    ensures ClearCustomSplitIn(SetCustomSplitIn(d, itemId, customSplit), itemId) == ClearCustomSplitIn(d, itemId)
  {
  }

  /** Neither custom-split action touches the people of any assignment, so both keep the
      bill consistent. */
  lemma CustomSplitKeepsConsistent(d: BillData, itemId: string, customSplit: seq<SplitEntry>)
    requires Consistent(d)
    ensures Consistent(SetCustomSplitIn(d, itemId, customSplit))
    ensures Consistent(ClearCustomSplitIn(d, itemId))
  {
    var s := SetCustomSplitIn(d, itemId, customSplit);
    assert forall k :: k in s.assignments ==> s.assignments[k].personIds == d.assignments[k].personIds;
    var c := ClearCustomSplitIn(d, itemId);
    assert forall k :: k in c.assignments ==> c.assignments[k].personIds == d.assignments[k].personIds;
  }

  // ---- tax, tip and reset -------------------------------------------------------------------

  /** `setTipRate(rate)`: `Math.max(0, Math.min(1, rate))`. */
  function ClampTipRate(rate: real): (r: real)
    ensures 0.0 <= r <= 1.0
    ensures 0.0 <= rate <= 1.0 ==> r == rate
    ensures rate > 1.0 ==> r == 1.0
    ensures rate < 0.0 ==> r == 0.0
  {
    if rate < 0.0 then 0.0 else if rate > 1.0 then 1.0 else rate
  }

  lemma ClampTipRateExamples()
    ensures ClampTipRate(1.5) == 1.0
    ensures ClampTipRate(-0.1) == 0.0
    ensures ClampTipRate(0.18) == 0.18
  {
  }

  /** The store. Its fields are replaced action by action. */
  class Store {
    var people: seq<Person>
    var items: seq<Item>
    var assignments: map<string, Assignment>
    var taxInput: Option<Tax.TaxInput>
    var tipRate: real

    /** The bill the store holds. */
    function Data(): BillData
      reads this
    {
      BillData(people, items, assignments, taxInput, tipRate)
    }

    constructor ()
      ensures Data() == Initial()
    {
      people := [];
      items := [];
      assignments := map[];
      taxInput := None;
      tipRate := InitialTipRate;
    }

    method AddPerson(name: string, id: string)
      modifies this
      ensures Data() == AddPersonTo(old(Data()), name, id)
    {
      var trimmedName := Trim(name);
      if trimmedName == [] {
        return;
      }
      people := people + [Person(id, trimmedName)];
    }

    /** Filters the person out, then walks the assignment keys, deleting an assignment that
        is left without people and overwriting the others. */
    method RemovePerson(id: string)
      modifies this
      ensures Data() == RemovePersonFrom(old(Data()), id)
    {
      var remaining := Filter(people, OtherPerson(id));
      var result := assignments;
      var todo := assignments.Keys;
      while todo != {}
        invariant todo <= assignments.Keys
        invariant result.Keys <= assignments.Keys
        invariant forall k :: k in todo ==> k in result && result[k] == assignments[k]
        invariant forall k :: k in assignments && k !in todo ==>
          (k in result <==> |Without(assignments[k], id).personIds| > 0)
        invariant forall k :: k in result && k !in todo ==> result[k] == Without(assignments[k], id)
        decreases todo
      {
        var itemId :| itemId in todo;
        var assignment := result[itemId];
        var personIds := Filter(assignment.personIds, OtherId(id));
        assert assignment.(personIds := personIds) == Without(assignments[itemId], id);
        if |personIds| == 0 {
          result := result - {itemId};
        } else {
          result := result[itemId := assignment.(personIds := personIds)];
        }
        todo := todo - {itemId};
      }
      assert result == PruneAssignments(assignments, id);
      people := remaining;
      assignments := result;
    }

    method AddItem(name: string, priceInCents: int, id: string)
      modifies this
      ensures Data() == AddItemTo(old(Data()), name, priceInCents, id)
    {
      var trimmedName := Trim(name);
      if trimmedName == [] || priceInCents < 0 {
        return;
      }
      items := items + [Item(id, trimmedName, priceInCents)];
    }

    method RemoveItem(id: string)
      modifies this
      ensures Data() == RemoveItemFrom(old(Data()), id)
    {
      items := Filter(items, OtherItem(id));
      assignments := assignments - {id};
    }

    method AssignItem(itemId: string, personIds: seq<string>)
      modifies this
      ensures Data() == AssignItemIn(old(Data()), itemId, personIds)
    {
      if |personIds| == 0 {
        assignments := assignments - {itemId};
      } else {
        assignments := assignments[itemId := Assignment(itemId, personIds, None)];
      }
    }

    method SetCustomSplit(itemId: string, customSplit: seq<SplitEntry>)
      modifies this
      ensures Data() == SetCustomSplitIn(old(Data()), itemId, customSplit)
    {
      if itemId !in assignments {
        return;
      }
      var assignment := assignments[itemId];
      assignments := assignments[itemId := assignment.(customSplit := Some(customSplit))];
    }

    method ClearCustomSplit(itemId: string)
      modifies this
      ensures Data() == ClearCustomSplitIn(old(Data()), itemId)
    {
      if itemId !in assignments {
        return;
      }
      var assignment := assignments[itemId];
      assignments := assignments[itemId := Assignment(assignment.itemId, assignment.personIds, None)];
    }

    method SetTaxInput(input: Option<Tax.TaxInput>)
      modifies this
      ensures Data() == old(Data()).(taxInput := input)
    {
      taxInput := input;
    }

    method SetTipRate(rate: real)
      modifies this
      ensures Data() == old(Data()).(tipRate := ClampTipRate(rate))
    {
      tipRate := ClampTipRate(rate);
    }

    method Reset()
      modifies this
      ensures Data() == Initial()
    {
      people := [];
      items := [];
      assignments := map[];
      taxInput := None;
      tipRate := InitialTipRate;
    }
  }
}
