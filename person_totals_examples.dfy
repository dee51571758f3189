/** The bills of the person-totals tests, evaluated in the model. */
module PersonTotalsExamples {
  import opened Common
  import opened Bill
  import opened PersonTotals
  import Split
  import Allocate
  import Tax
  import Tip

  function MixedPeople(): seq<Person> { [Person("p1", "Alice")] }

  function MixedItems(): seq<Item>
  {
    [Item("i1", "Assigned Item", 1000), Item("i2", "Unassigned Item", 500)]
  }

  function MixedAssignments(): map<string, Assignment>
  {
    map["i1" := Assignment("i1", ["p1"], None)]
  }

  /** Only the assigned item reaches the person's details. */
  lemma MixedDetails()
    ensures ItemDetails(MixedAssignments(), MixedItems(), "p1")
         == [PersonItemDetail("i1", "Assigned Item", 1000, 1000, 1, false)]
    ensures PersonSubtotals(MixedPeople(), MixedItems(), MixedAssignments()) == [1000]
  {
    var i1 := MixedItems()[0];
    var i2 := MixedItems()[1];
    var assignments := MixedAssignments();
    assert [i1] == [] + [i1];
    assert MixedItems() == [i1] + [i2];
    ItemDetailsAppend(assignments, [], i1, "p1");
    ItemDetailsAppend(assignments, [i1], i2, "p1");
    assert ItemDetails(assignments, [], "p1") == [];
    assert Split.EqualShares(1000, 1) == [1000];
    var detail := Detail(assignments, i1, "p1");
    assert SharesSum([detail]) == 1000 by {
      assert [detail][..0] == [];
    }
  }

  /** The bill subtotal, tax and tip are computed on both items. */
  lemma MixedBillTotals()
    ensures ItemsTotal(MixedItems()) == 1500
    ensures TotalTax(1500, Some(Tax.Rate(0.1))) == 150
    ensures Tip.CalculateTip(1500, 0.2) == 300
  {
    var items := MixedItems();
    assert items[..1] == [items[0]];
    assert items[..1][..0] == [];
    assert 1500.0 * 0.1 == 150.0;
    assert 1500.0 * 0.2 == 300.0;
  }

  /** The only person with a subtotal takes the whole tax and tip. */
  lemma MixedDistributions()
    ensures Distribution(150, [1000]) == Success([150])
    ensures Distribution(300, [1000]) == Success([300])
  {
    assert [1000][0] > 0;
    assert HasAnySubtotal([1000]);
    Allocate.SingleSubtotal(150, 1000);
    Allocate.SingleSubtotal(300, 1000);
  }

  /** An item assigned to nobody counts in the bill subtotal, tax and tip but in nobody's
      total: with 1000 of 1500 cents assigned, 10% tax and a 20% tip, the only person pays
      1450 while the bill comes to 1950. */
  lemma MixedAssignedAndUnassigned()
    ensures var r := Summary(MixedPeople(), MixedItems(), MixedAssignments(), Some(Tax.Rate(0.1)), 0.2);
      r.Success? && r.value.billSubtotal == 1500 && r.value.totalTax == 150 && r.value.totalTip == 300
      && r.value.personBreakdowns
         == [PersonBreakdown("p1", "Alice", [PersonItemDetail("i1", "Assigned Item", 1000, 1000, 1, false)],
                             1000, 150, 300, 1450)]
      && r.value.grandTotal == 1450
  {
    MixedDetails();
    MixedBillTotals();
    MixedDistributions();
    var details := [PersonItemDetail("i1", "Assigned Item", 1000, 1000, 1, false)];
    assert Breakdown(MixedAssignments(), MixedItems(), MixedPeople()[0])
        == PersonBreakdown("p1", "Alice", details, 1000, 0, 0, 1000);
    var b := PersonBreakdown("p1", "Alice", details, 1000, 150, 300, 1450);
    var r := Summary(MixedPeople(), MixedItems(), MixedAssignments(), Some(Tax.Rate(0.1)), 0.2);
    assert r.Success? && r.value.personBreakdowns[0] == b;
    assert r.value.personBreakdowns == [b];
    assert TotalsOf([b]) == [1450];
    SumSingleton(1450);
  }

  /** Without any positive item subtotal the tax is not distributed at all: an exact tax of
      500 cents on a bill with no items shows in the summary's tax, but the one person pays
      nothing and the grand total is 0. */
  lemma ExactTaxWithoutSubtotalsIsDropped()
    ensures var r := Summary(MixedPeople(), [], map[], Some(Tax.Exact(500)), 0.18);
      r.Success? && r.value.totalTax == 500 && r.value.totalTip == 0 && r.value.grandTotal == 0
  {
    var subtotals := PersonSubtotals(MixedPeople(), [], map[]);
    assert subtotals == [0];
    assert !HasAnySubtotal(subtotals);
    var r := Summary(MixedPeople(), [], map[], Some(Tax.Exact(500)), 0.18);
    assert TotalsOf(r.value.personBreakdowns) == [0];
    SumSingleton(0);
  }
}
