/** Tax: a rate applied to the pre-tax subtotal and rounded to the cent, or an exact amount;
    its distribution over the people is the proportional allocation. Rates are exact reals
    (the source's are binary floating point). */
module Tax {
  import opened Common
  import Allocate
  import AllocateExamples

  /** `TaxInput`: `{ type: "rate", rate }` or `{ type: "exact", amount }`. */
  datatype TaxInput = Rate(rate: real) | Exact(amount: int)

  /** `calculateTax(subtotal, input)`: the rate applied to the subtotal, rounded to the
      nearest cent (halves up); an exact amount whatever the subtotal. */
  function CalculateTax(subtotal: int, input: TaxInput): (r: int)
    ensures input.Rate? ==> r == Round(subtotal as real * input.rate)
    ensures input.Exact? ==> r == input.amount
  {
    match input
    case Rate(rate) => Round(subtotal as real * rate)
    case Exact(amount) => amount
  }

  /** In rate mode the tax is the nearest cent to the exact tax. */
  lemma RateTaxNearest(subtotal: int, rate: real)
    ensures var t := CalculateTax(subtotal, Rate(rate));
      subtotal as real * rate - 0.5 < t as real <= subtotal as real * rate + 0.5
  {
  }

  /** A non-negative rate on a non-negative subtotal gives a non-negative tax, and a rate of
      at most 100% never more than the subtotal. */
  lemma RateTaxBounds(subtotal: int, rate: real)
    requires subtotal >= 0 && 0.0 <= rate
    ensures CalculateTax(subtotal, Rate(rate)) >= 0
    ensures rate <= 1.0 ==> CalculateTax(subtotal, Rate(rate)) <= subtotal
  {
    RateBounds(subtotal, rate);
  }

  /** Nothing is taxed when the subtotal is zero. */
  lemma ZeroSubtotalNoTax(rate: real)
    ensures CalculateTax(0, Rate(rate)) == 0
  {
  }

  lemma CalculateTaxExamples()
    ensures CalculateTax(10000, Rate(0.08)) == 800
    ensures CalculateTax(1250, Rate(0.0875)) == 109
    ensures CalculateTax(0, Rate(0.08)) == 0
    ensures CalculateTax(10000, Exact(825)) == 825
    ensures CalculateTax(5000, Exact(0)) == 0
  {
    assert 10000.0 * 0.08 == 800.0;
    assert 1250.0 * 0.0875 == 109.375;
  }

  /** `distributeTax`: exactly the proportional allocation, failures included. */
  function DistributeTax(totalTax: int, personSubtotals: seq<int>): (r: Result<seq<int>, Allocate.AllocError>)
    ensures r == Allocate.Allocation(totalTax, personSubtotals)
  {
    Allocate.Allocation(totalTax, personSubtotals)
  }

  /** The distributed tax sums to the total tax, one share per person. */
  lemma DistributeTaxSum(totalTax: int, personSubtotals: seq<int>)
    requires |personSubtotals| > 0 && Sum(personSubtotals) != 0
    ensures DistributeTax(totalTax, personSubtotals).Success?
    ensures |DistributeTax(totalTax, personSubtotals).value| == |personSubtotals|
    ensures Sum(DistributeTax(totalTax, personSubtotals).value) == totalTax
  {
    Allocate.AllocationSum(totalTax, personSubtotals);
  }

  lemma DistributeTaxExamples()
    ensures DistributeTax(300, [1000, 1000, 1000]) == Success([100, 100, 100])
    ensures DistributeTax(825, [4000, 3000, 2000, 1000]) == Success([330, 248, 165, 82])
  {
    AllocateExamples.EqualSubtotals();
    AllocateExamples.TieGoesToEarlierPosition();
  }
}
