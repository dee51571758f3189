/** Tip: a rate applied to the pre-tax subtotal, rounded to the cent, and its proportional
    distribution over the people. Rates are exact reals. */
module Tip {
  import opened Common
  import Allocate
  import AllocateExamples

  /** `calculateTip(subtotal, rate)`: the nearest cent to `subtotal * rate`, halves up. */
  function CalculateTip(subtotal: int, rate: real): (r: int)
    ensures subtotal as real * rate - 0.5 < r as real <= subtotal as real * rate + 0.5
  {
    Round(subtotal as real * rate)
  }

  /** A zero rate or a zero subtotal gives no tip; a rate in `[0, 1]` (the store's clamp) on
      a non-negative subtotal gives a tip between zero and the subtotal. */
  lemma TipBounds(subtotal: int, rate: real)
    ensures rate == 0.0 || subtotal == 0 ==> CalculateTip(subtotal, rate) == 0
    ensures subtotal >= 0 && 0.0 <= rate <= 1.0 ==> 0 <= CalculateTip(subtotal, rate) <= subtotal
  {
    if subtotal >= 0 && 0.0 <= rate <= 1.0 {
      RateBounds(subtotal, rate);
    }
  }

  /** A non-negative rate on a non-negative subtotal never gives a negative tip. */
  lemma TipNonNegative(subtotal: int, rate: real)
    requires subtotal >= 0 && rate >= 0.0
    ensures CalculateTip(subtotal, rate) >= 0
  {
    RateBounds(subtotal, rate);
  }

  lemma CalculateTipExamples()
    ensures CalculateTip(10000, 0.18) == 1800
    ensures CalculateTip(10000, 0.2) == 2000
    ensures CalculateTip(5000, 0.15) == 750
    ensures CalculateTip(3333, 0.18) == 600
    ensures CalculateTip(10000, 0.0) == 0
    ensures CalculateTip(0, 0.2) == 0
    ensures CalculateTip(8750, 0.22) == 1925
  {
    assert 10000.0 * 0.18 == 1800.0;
    assert 10000.0 * 0.2 == 2000.0;
    assert 5000.0 * 0.15 == 750.0;
    assert 3333.0 * 0.18 == 599.94;
    assert 8750.0 * 0.22 == 1925.0;
  }

  /** `distributeTip`: exactly the proportional allocation, failures included. */
  function DistributeTip(totalTip: int, personSubtotals: seq<int>): (r: Result<seq<int>, Allocate.AllocError>)
    ensures r == Allocate.Allocation(totalTip, personSubtotals)
  {
    Allocate.Allocation(totalTip, personSubtotals)
  }

  /** The distributed tip sums to the total tip, one share per person. */
  lemma DistributeTipSum(totalTip: int, personSubtotals: seq<int>)
    requires |personSubtotals| > 0 && Sum(personSubtotals) != 0
    ensures DistributeTip(totalTip, personSubtotals).Success?
    ensures |DistributeTip(totalTip, personSubtotals).value| == |personSubtotals|
    ensures Sum(DistributeTip(totalTip, personSubtotals).value) == totalTip
  {
    Allocate.AllocationSum(totalTip, personSubtotals);
  }

  lemma DistributeTipExamples()
    ensures DistributeTip(1000, [5000, 3000, 2000]) == Success([500, 300, 200])
    ensures DistributeTip(1800, [4500, 3000, 1500, 1000]) == Success([810, 540, 270, 180])
  {
    AllocateExamples.UnequalSubtotals();
    AllocateExamples.ExactFourWay();
  }
}
