/** `splitEqually`: an integer amount split into `numPeople` shares that differ by at most
    one cent, the extra cents going to the first positions. */
module Split {
  import opened Common

  /** The error `splitEqually` throws ("Number of people must be greater than 0"). */
  datatype SplitError = NonPositiveCount

  /** JavaScript's `a % b`: truncating, so the remainder takes the sign of `a`. */
  function JsRem(a: int, b: int): (r: int)
    requires b != 0
    ensures a >= 0 ==> r == a % Abs(b)
    ensures a < 0 ==> r == -((-a) % Abs(b))
  {
    var m := Abs(a) % Abs(b);
    if a < 0 then -m else m
  }

  /** `n` shares of `base`, of which the first `extra` (if positive) carry one more cent. */
  function Steps(n: nat, base: int, extra: int): (r: seq<int>)
    ensures |r| == n
    ensures forall i :: 0 <= i < n ==> r[i] == if i < extra then base + 1 else base
  {
    seq(n, i => if i < extra then base + 1 else base)
  }

  /** The sum of `Steps`: `n * base` plus the number of positions that got the extra cent. */
  lemma {:induction false} StepsSum(n: nat, base: int, extra: int)
    ensures Sum(Steps(n, base, extra)) == n * base + (if extra <= 0 then 0 else Min(extra, n))
  {
    if n > 0 {
      assert Steps(n, base, extra)[..n - 1] == Steps(n - 1, base, extra);
      StepsSum(n - 1, base, extra);
    }
  }

  /** The shares the source computes, as written: `Math.floor(total / n)` each, plus one
      for the positions below the JavaScript remainder `total % n`. (Dafny's `/` with a
      positive divisor is floor division.) */
  function EqualShares(total: int, n: nat): (r: seq<int>)
    requires n > 0
    ensures |r| == n
    ensures forall i :: 0 <= i < n ==> r[i] == total / n || r[i] == total / n + 1
  {
    Steps(n, total / n, JsRem(total, n))
  }

  /** `splitEqually(total, numPeople)`: throws for `numPeople <= 0`; otherwise fills the
      shares array one position at a time. */
  method SplitEqually(total: int, numPeople: int) returns (r: Result<seq<int>, SplitError>)
    ensures numPeople <= 0 ==> r == Failure(NonPositiveCount)
    ensures numPeople > 0 ==> r == Success(EqualShares(total, numPeople))
    ensures r.Success? ==> |r.value| == numPeople
    ensures r.Success? && total >= 0 ==> Sum(r.value) == total
  {
    if numPeople <= 0 {
      return Failure(NonPositiveCount);
    }
    var baseShare := total / numPeople;
    var remainder := JsRem(total, numPeople);
    var shares: seq<int> := [];
    for i := 0 to numPeople
      invariant |shares| == i
      invariant forall j :: 0 <= j < i ==> shares[j] == if j < remainder then baseShare + 1 else baseShare
    {
      var share := if i < remainder then baseShare + 1 else baseShare;
      shares := shares + [share];
    }
    assert shares == EqualShares(total, numPeople);
    if total >= 0 {
      EqualSharesSum(total, numPeople);
    }
    return Success(shares);
  }

  /** For a non-negative total the shares add up to the total exactly. */
  lemma EqualSharesSum(total: int, n: nat)
    requires n > 0
    requires total >= 0
    ensures Sum(EqualShares(total, n)) == total
  {
    StepsSum(n, total / n, JsRem(total, n));
  }

  /** Position `i` gets `total / n + 1` when it is below the remainder, else `total / n`. */
  lemma EqualSharesAt(total: int, n: nat, i: nat)
    requires n > 0 && total >= 0 && i < n
    ensures |EqualShares(total, n)| == n
    ensures EqualShares(total, n)[i] == if i < total % n then total / n + 1 else total / n
  {
  }

  /** The shares never increase along the sequence and differ by at most one cent. */
  lemma EqualSharesShape(total: int, n: nat)
    requires n > 0
    ensures forall i, j :: 0 <= i <= j < n ==>
      0 <= EqualShares(total, n)[i] - EqualShares(total, n)[j] <= 1
  {
  }

  lemma SplitExamples()
    ensures EqualShares(1000, 3) == [334, 333, 333]
    ensures EqualShares(1001, 2) == [501, 500]
    ensures EqualShares(1250, 1) == [1250]
    ensures EqualShares(1800, 3) == [600, 600, 600]
    ensures EqualShares(1200, 3) == [400, 400, 400]
  {
    assert EqualShares(1000, 3) == Steps(3, 333, 1);
    assert EqualShares(1001, 2) == Steps(2, 500, 1);
  }

  // ---- Finding: negative totals -------------------------------------------------------

  /** As written, a negative total that `n` does not divide loses cents: JavaScript's
      remainder is negative, so no position gets the extra cent while the base was already
      rounded down. `splitEqually(-1000, 3)` gives `[-334, -334, -334]`, which sums to -1002. */
  lemma NegativeTotalLosesCents()
    ensures EqualShares(-1000, 3) == [-334, -334, -334]
    ensures Sum(EqualShares(-1000, 3)) == -1002
  {
    assert EqualShares(-1000, 3) == Steps(3, -334, -1);
    StepsSum(3, -334, -1);
  }

  /** The evidently intended split: the floor quotient with the matching (Euclidean)
      remainder, which is never negative. */
  function EqualSharesEuclid(total: int, n: nat): (r: seq<int>)
    requires n > 0
    ensures |r| == n
    ensures Sum(r) == total
    ensures forall i, j :: 0 <= i <= j < n ==> 0 <= r[i] - r[j] <= 1
  {
    StepsSum(n, total / n, total % n);
    Steps(n, total / n, total % n)
  }

  /** On every total the source is used with (prices are never negative) the two agree. */
  lemma EuclidAgreesOnNonNegative(total: int, n: nat)
    requires n > 0 && total >= 0
    ensures EqualSharesEuclid(total, n) == EqualShares(total, n)
  {
  }
}
