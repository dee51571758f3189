/** The bill records: people, line items in integer cents, which people share an item
    (optionally with custom amounts), the bill being edited and a bill saved to history. */
module Bill {
  import opened Common
  import Tax

  datatype Person = Person(id: string, name: string)

  datatype Item = Item(id: string, name: string, priceInCents: int)

  /** One entry of a `CustomSplit`: what one person pays for the item. */
  datatype SplitEntry = SplitEntry(personId: string, amountInCents: int)

  /** Which people share an item; without a custom split the item is split equally. */
  datatype Assignment = Assignment(itemId: string, personIds: seq<string>, customSplit: Option<seq<SplitEntry>>)

  /** The state of the bill: `assignments` maps an item id to its assignment, and a missing
      tax input is `null` in the source. */
  datatype BillData = BillData(
    people: seq<Person>,
    items: seq<Item>,
    assignments: map<string, Assignment>,
    taxInput: Option<Tax.TaxInput>,
    tipRate: real)

  /** A bill in the history: the bill's fields plus its id, save time, optional label (`labelText`, as `label` is
      a Dafny keyword) and
      cached grand total. */
  datatype SavedBill = SavedBill(
    id: string,
    timestamp: int,
    labelText: Option<string>,
    totalInCents: int,
    data: BillData)

  /** The sum of the item prices (`items.reduce((sum, item) => sum + item.priceInCents, 0)`). */
  function ItemsTotal(items: seq<Item>): int
  {
    if |items| == 0 then 0 else ItemsTotal(items[..|items| - 1]) + items[|items| - 1].priceInCents
  }

  /** The total is the sum of the prices as a sequence of integers. */
  lemma {:induction false} ItemsTotalIsSum(items: seq<Item>)
    ensures ItemsTotal(items) == Sum(seq(|items|, i requires 0 <= i < |items| => items[i].priceInCents))
  {
    if |items| > 0 {
      var n := |items| - 1;
      ItemsTotalIsSum(items[..n]);
      var s := seq(|items|, i requires 0 <= i < |items| => items[i].priceInCents);
      assert s[..n] == seq(n, i requires 0 <= i < n => items[..n][i].priceInCents);
    }
  }

  /** Appending an item adds its price. */
  lemma ItemsTotalAppend(items: seq<Item>, item: Item)
    ensures ItemsTotal(items + [item]) == ItemsTotal(items) + item.priceInCents
  {
    assert (items + [item])[..|items|] == items;
  }

  /** Prices that are never negative give a non-negative total. */
  lemma {:induction false} ItemsTotalNonNegative(items: seq<Item>)
    requires forall i :: 0 <= i < |items| ==> items[i].priceInCents >= 0
    ensures ItemsTotal(items) >= 0
  {
    if |items| > 0 {
      ItemsTotalNonNegative(items[..|items| - 1]);
    }
  }

  /** The ids of a sequence of people, in order. */
  function PersonIds(people: seq<Person>): (r: seq<string>)
    ensures |r| == |people|
    ensures forall i :: 0 <= i < |people| ==> r[i] == people[i].id
  {
    seq(|people|, i requires 0 <= i < |people| => people[i].id)
  }

  /** The ids of a sequence of items, in order. */
  function ItemIds(items: seq<Item>): (r: seq<string>)
    ensures |r| == |items|
    ensures forall i :: 0 <= i < |items| ==> r[i] == items[i].id
  {
    seq(|items|, i requires 0 <= i < |items| => items[i].id)
  }
}
