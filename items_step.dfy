/** The items step: the item form, the running total and the gate that lets the wizard go
    on. The price field's `parseFloat` result is a parameter (`None` for not-a-number) and
    is an exact real. */
module ItemsStep {
  import opened Common
  import opened Text
  import opened Bill
  import Money
  import BillStore

  /** `canProceedFromItems(items)`: at least one item. */
  predicate CanProceedFromItems(items: seq<Item>)
  {
    |items| >= 1
  }

  /** The total line: the formatted sum of the prices, shown only when there are items. */
  function DisplayedTotal(items: seq<Item>): (r: Option<string>)
    ensures r.Some? <==> CanProceedFromItems(items)
  {
    if |items| > 0 then Some(Money.FormatCurrency(ItemsTotal(items))) else None
  }

  /** The total shown reads back as the sum of the prices. */
  lemma DisplayedTotalIsSum(items: seq<Item>)
    requires |items| > 0
    ensures Money.ParseCurrency(DisplayedTotal(items).value) == Some(ItemsTotal(items))
  {
    Money.FormatCurrencyRoundTrip(ItemsTotal(items));
  }

  /** The submit guard: a non-blank name and a price that is a positive number. */
  predicate Accepts(itemName: string, priceNum: Option<real>)
  {
    Trim(itemName) != [] && priceNum.Some? && priceNum.value > 0.0
  }

  /** `Math.round(priceNum * 100)`. */
  function PriceInCents(priceNum: real): (r: int)
    ensures priceNum * 100.0 - 0.5 < r as real <= priceNum * 100.0 + 0.5
  {
    Round(priceNum * 100.0)
  }

  /** The item form. */
  class ItemsForm {
    var itemName: string
    var priceString: string

    constructor ()
      ensures itemName == [] && priceString == []
    {
      itemName := [];
      priceString := [];
    }

    /** `handleSubmit`, given what `parseFloat` made of `priceString`: ignored unless the
        guard accepts; otherwise `addItem` gets the trimmed name and the rounded cents, and
        both inputs are cleared. */
    method HandleSubmit(store: BillStore.Store, priceNum: Option<real>, id: string)
      modifies this, store
      ensures !Accepts(old(itemName), priceNum) ==>
        itemName == old(itemName) && priceString == old(priceString) && store.Data() == old(store.Data())
      ensures Accepts(old(itemName), priceNum) ==>
        itemName == [] && priceString == []
        && store.Data() == BillStore.AddItemTo(old(store.Data()), Trim(old(itemName)), PriceInCents(priceNum.value), id)
    {
      var trimmedName := Trim(itemName);
      if trimmedName == [] || priceNum.None? || priceNum.value <= 0.0 {
        return;
      }
      var priceInCents := PriceInCents(priceNum.value);
      store.AddItem(trimmedName, priceInCents, id);
      itemName := [];
      priceString := [];
    }
  }

  /** The form's guard is stricter than `addItem`'s: whatever it accepts is added, with the
      trimmed name and a non-negative price in cents. */
  lemma AcceptedSubmitAddsItem(d: BillData, itemName: string, priceNum: Option<real>, id: string)
    requires Accepts(itemName, priceNum)
    ensures var cents := PriceInCents(priceNum.value);
      cents >= 0
      && BillStore.AddItemTo(d, Trim(itemName), cents, id).items == d.items + [Item(id, Trim(itemName), cents)]
  {
    TrimIdempotent(itemName);
  }

  /** Prices in whole cents convert exactly: 12.5 dollars are 1250 cents. */
  lemma PriceInCentsExamples()
    ensures PriceInCents(12.5) == 1250
    ensures PriceInCents(0.01) == 1
    ensures PriceInCents(3.0) == 300
  {
    assert 12.5 * 100.0 == 1250.0;
    assert 0.01 * 100.0 == 1.0;
    assert 3.0 * 100.0 == 300.0;
  }
}
