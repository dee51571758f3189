/** `allocateProportionally`: the largest-remainder method. Each share is the floor of its
    exact proportional share `subtotal / total * amount`; the cents the floors leave over go,
    one each, to the positions whose exact shares have the largest fractional parts (ties
    to the earlier position, as the stable sort leaves them).

    The exact shares are rationals. Writing `n = subtotal * amount` and `T = total`, the
    exact share is `n / T`; its floor is `FloorDiv(n, T)` and its fractional part is
    `FracNum(n, T) / |T|`, so all the arithmetic below is on integers. */
module Allocate {
  import opened Common

  /** The two errors the source throws. */
  datatype AllocError = EmptySubtotals | ZeroTotal

  /** `Math.floor(n / d)` for a non-zero divisor of either sign. */
  function FloorDiv(n: int, d: int): int
    requires d != 0
  {
    if d > 0 then n / d else (-n) / (-d)
  }

  /** `|d|` times the fractional part of `n / d`. */
  function FracNum(n: int, d: int): (r: int)
    requires d != 0
    ensures 0 <= r < Abs(d)
  {
    if d > 0 then n % d else (-n) % (-d)
  }

  /** Floor and fractional part reassemble the quotient. */
  lemma FloorDivFrac(n: int, d: int)
    requires d != 0
    ensures Abs(d) * FloorDiv(n, d) + FracNum(n, d) == (if d > 0 then n else -n)
  {
  }

  /** `FloorDiv` is the floor of the exact quotient, and `FracNum / |d|` what is left of it. */
  lemma ExactQuotient(n: int, d: int)
    requires d != 0
    ensures (n as real) / (d as real) == FloorDiv(n, d) as real + (FracNum(n, d) as real) / (Abs(d) as real)
    ensures FloorDiv(n, d) as real <= (n as real) / (d as real) < FloorDiv(n, d) as real + 1.0
  {
    var q, r, a := FloorDiv(n, d), FracNum(n, d), Abs(d);
    FloorDivFrac(n, d);
    var s := if d > 0 then n else -n;
    assert (s as real) / (a as real) == (n as real) / (d as real);
    assert (a as real) * (q as real) + (r as real) == s as real;
    assert (s as real) / (a as real) == q as real + (r as real) / (a as real);
    assert 0.0 <= (r as real) / (a as real) < 1.0;
  }

  /** The floored shares, `Math.floor(subtotal / total * amount)` for each subtotal. */
  function Floors(amount: int, w: seq<int>, total: int): (r: seq<int>)
    requires total != 0
    ensures |r| == |w|
    ensures forall i :: 0 <= i < |w| ==> r[i] == FloorDiv(w[i] * amount, total)
  {
    seq(|w|, i requires 0 <= i < |w| => FloorDiv(w[i] * amount, total))
  }

  /** The remainders `exact - floored`, scaled by `|total|`. */
  function Remainders(amount: int, w: seq<int>, total: int): (r: seq<int>)
    requires total != 0
    ensures |r| == |w|
    ensures forall i :: 0 <= i < |w| ==> r[i] == FracNum(w[i] * amount, total)
    ensures forall i :: 0 <= i < |w| ==> 0 <= r[i] < Abs(total)
  {
    seq(|w|, i requires 0 <= i < |w| => FracNum(w[i] * amount, total))
  }

  lemma Distribute(a: int, b: int, c: int)
    ensures a * (b + c) == a * b + a * c
    ensures a * (b - c) == a * b - a * c
  {
  }

  /** Summing `a * q[i] + r[i] == x[i]` over all positions. */
  lemma {:induction false} SumLinear(a: int, q: seq<int>, r: seq<int>, x: seq<int>)
    requires |q| == |r| == |x|
    requires forall i :: 0 <= i < |x| ==> a * q[i] + r[i] == x[i]
    ensures a * Sum(q) + Sum(r) == Sum(x)
  {
    if |x| > 0 {
      var n := |x| - 1;
      SumLinear(a, q[..n], r[..n], x[..n]);
      Distribute(a, Sum(q[..n]), q[n]);
    }
  }

  /** Scaling every element scales the sum. */
  lemma {:induction false} SumScale(c: int, w: seq<int>, x: seq<int>)
    requires |w| == |x|
    requires forall i :: 0 <= i < |x| ==> x[i] == c * w[i]
    ensures Sum(x) == c * Sum(w)
  {
    if |x| > 0 {
      var n := |x| - 1;
      SumScale(c, w[..n], x[..n]);
      Distribute(c, Sum(w[..n]), w[n]);
    }
  }

  /** Floors and remainders together account for the whole amount:
      `|T| * Sum(floors) + Sum(remainders) == |T| * amount` when `T` is the sum of the
      subtotals. */
  lemma FloorsAndRemainders(amount: int, w: seq<int>)
    requires Sum(w) != 0
    ensures Abs(Sum(w)) * Sum(Floors(amount, w, Sum(w))) + Sum(Remainders(amount, w, Sum(w)))
         == Abs(Sum(w)) * amount
  {
    var t := Sum(w);
    var c := if t > 0 then amount else -amount;
    var x := seq(|w|, i requires 0 <= i < |w| => c * w[i]);
    var F := Floors(amount, w, t);
    var R := Remainders(amount, w, t);
    ShareDecomposition(amount, w, t, c, x);
    SumLinear(Abs(t), F, R, x);
    SumScale(c, w, x);
    assert c * t == Abs(t) * amount;
  }

  /** At each position, `|T|` times the floor plus the scaled remainder is the signed
      product `c * subtotal`. */
  lemma ShareDecomposition(amount: int, w: seq<int>, t: int, c: int, x: seq<int>)
    requires t != 0 && c == (if t > 0 then amount else -amount)
    requires |x| == |w| && forall i :: 0 <= i < |w| ==> x[i] == c * w[i]
    ensures forall i :: 0 <= i < |w| ==> Abs(t) * Floors(amount, w, t)[i] + Remainders(amount, w, t)[i] == x[i]
  {
    forall i | 0 <= i < |w|
      ensures Abs(t) * Floors(amount, w, t)[i] + Remainders(amount, w, t)[i] == x[i]
    {
      var n := w[i] * amount;
      FloorDivFrac(n, t);
      assert c * w[i] == if t > 0 then n else -n;
    }
  }

  /** The elements of `s` all lie in `[0, hi)`, so their sum lies in `[0, |s| * (hi - 1)]`. */
  lemma {:induction false} SumBelow(s: seq<int>, hi: int)
    requires hi > 0
    requires forall i :: 0 <= i < |s| ==> 0 <= s[i] < hi
    ensures 0 <= Sum(s) <= |s| * (hi - 1)
  {
    if |s| > 0 {
      SumBelow(s[..|s| - 1], hi);
      Distribute(|s| - 1, hi - 1, 0);
      assert |s| * (hi - 1) == (|s| - 1) * (hi - 1) + (hi - 1);
    }
  }

  /** A positive factor keeps the sign of the other. */
  lemma PositiveFactor(k: int, z: int)
    requires k > 0
    ensures z >= 0 ==> k * z >= 0
    ensures z < 0 ==> k * z < 0
  {
  }

  /** `k * x` in `[0, k * y)` for positive `k` puts `x` in `[0, y)`. */
  lemma ScaledBounds(k: int, x: int, y: int)
    requires k > 0 && 0 <= k * x && k * x < k * y
    ensures 0 <= x < y
  {
    PositiveFactor(k, x);
    PositiveFactor(k, y - x);
    Distribute(k, y, x);
  }

  /** The integer reasoning behind `LeftoverBounds`, on plain numbers. */
  lemma LeftoverArithmetic(a: int, amount: int, f: int, rs: int, n: int)
    requires a > 0 && n > 0
    requires a * f + rs == a * amount
    requires 0 <= rs <= n * (a - 1)
    ensures a * (amount - f) == rs
    ensures 0 <= amount - f < n
  {
    Distribute(a, amount, f);
    Distribute(n, a, 1);
    assert n * (a - 1) < a * n;
    ScaledBounds(a, amount - f, n);
  }

  /** The cents left after flooring, `amount - Sum(floors)`, are always in `[0, |subtotals|)`:
      `|total|` times them is the sum of the remainders, each below `|total|`. */
  lemma LeftoverBounds(amount: int, w: seq<int>)
    requires |w| > 0 && Sum(w) != 0
    ensures 0 <= amount - Sum(Floors(amount, w, Sum(w))) < |w|
  {
    var t := Sum(w);
    FloorsAndRemainders(amount, w);
    SumBelow(Remainders(amount, w, t), Abs(t));
    LeftoverArithmetic(Abs(t), amount, Sum(Floors(amount, w, t)), Sum(Remainders(amount, w, t)), |w|);
  }

  // ---- Ranking by remainder -----------------------------------------------------------

  /** Position `j` is ranked before position `k`: a larger remainder, or an equal remainder
      and an earlier position. This is `sort((a, b) => b.remainder - a.remainder)`, which
      is stable. */
  predicate Beats(rem: seq<int>, j: int, k: int)
  {
    0 <= j < |rem| && 0 <= k < |rem| && (rem[j] > rem[k] || (rem[j] == rem[k] && j < k))
  }

  /** Every earlier entry of `s` is ranked before every later one. */
  predicate Ranked(rem: seq<int>, s: seq<int>)
  {
    forall p, q :: 0 <= p < q < |s| ==> Beats(rem, s[p], s[q])
  }

  /** Inserts position `x` into a ranked sequence. */
  function Insert(rem: seq<int>, x: int, s: seq<int>): (r: seq<int>)
    ensures |r| == |s| + 1
    ensures multiset(r) == multiset(s) + multiset{x}
  {
    if |s| == 0 then [x]
    else if Beats(rem, x, s[0]) then [x] + s
    else
      assert s == [s[0]] + s[1..];
      [s[0]] + Insert(rem, x, s[1..])
  }

  /** Insertion sort of positions by `Beats`. */
  function SortByRemainder(rem: seq<int>, s: seq<int>): (r: seq<int>)
    ensures |r| == |s|
    ensures multiset(r) == multiset(s)
  {
    if |s| == 0 then []
    else
      assert s == [s[0]] + s[1..];
      Insert(rem, s[0], SortByRemainder(rem, s[1..]))
  }

  /** The positions `0 .. n - 1`. */
  function Range(n: nat): (r: seq<int>)
    ensures |r| == n
    ensures forall i :: 0 <= i < n ==> r[i] == i
  {
    seq(n, i => i)
  }

  /** The positions in the order the source visits them when handing out the leftover cents. */
  function Order(rem: seq<int>): (r: seq<int>)
    ensures |r| == |rem|
    ensures multiset(r) == multiset(Range(|rem|))
  {
    SortByRemainder(rem, Range(|rem|))
  }

  lemma BeatsTransitive(rem: seq<int>, a: int, b: int, c: int)
    requires Beats(rem, a, b) && Beats(rem, b, c)
    ensures Beats(rem, a, c)
  {
  }

  /** A position ranked before every entry of a ranked sequence can go in front of it. */
  lemma RankedCons(rem: seq<int>, y: int, t: seq<int>)
    requires Ranked(rem, t)
    requires forall q :: 0 <= q < |t| ==> Beats(rem, y, t[q])
    ensures Ranked(rem, [y] + t)
  {
    var r := [y] + t;
    forall p, q | 0 <= p < q < |r|
      ensures Beats(rem, r[p], r[q])
    {
      if p > 0 {
        assert r[p] == t[p - 1] && r[q] == t[q - 1];
      } else {
        assert r[q] == t[q - 1];
      }
    }
  }

  /** The head of a ranked sequence beats everything its tail becomes after an insertion of
      a position it beats. */
  lemma HeadBeatsInserted(rem: seq<int>, x: int, s: seq<int>)
    requires |s| > 0 && Ranked(rem, s) && Beats(rem, s[0], x)
    ensures forall q :: 0 <= q < |Insert(rem, x, s[1..])| ==> Beats(rem, s[0], Insert(rem, x, s[1..])[q])
  {
    var t := Insert(rem, x, s[1..]);
    forall q | 0 <= q < |t|
      ensures Beats(rem, s[0], t[q])
    {
      var y := t[q];
      assert y in multiset(t);
      if y != x {
        assert y in multiset(s[1..]);
        var i :| 0 <= i < |s[1..]| && s[1..][i] == y;
        assert s[i + 1] == y;
      }
    }
  }

  lemma {:induction false} InsertRanked(rem: seq<int>, x: int, s: seq<int>)
    requires Ranked(rem, s)
    requires 0 <= x < |rem| && x !in s
    requires forall p :: 0 <= p < |s| ==> 0 <= s[p] < |rem|
    ensures Ranked(rem, Insert(rem, x, s))
  {
    if |s| > 0 {
      if Beats(rem, x, s[0]) {
        forall q | 0 < q < |s|
          ensures Beats(rem, x, s[q])
        {
          BeatsTransitive(rem, x, s[0], s[q]);
        }
        RankedCons(rem, x, s);
      } else {
        assert x != s[0];
        assert Beats(rem, s[0], x);
        assert Ranked(rem, s[1..]);
        InsertRanked(rem, x, s[1..]);
        HeadBeatsInserted(rem, x, s);
        RankedCons(rem, s[0], Insert(rem, x, s[1..]));
      }
    }
  }

  lemma {:induction false} SortRanked(rem: seq<int>, s: seq<int>)
    requires Distinct(s)
    requires forall p :: 0 <= p < |s| ==> 0 <= s[p] < |rem|
    ensures Ranked(rem, SortByRemainder(rem, s))
  {
    if |s| > 0 {
      SortRanked(rem, s[1..]);
      var t := SortByRemainder(rem, s[1..]);
      forall p | 0 <= p < |t|
        ensures 0 <= t[p] < |rem| && t[p] != s[0]
      {
        assert t[p] in multiset(s[1..]);
        var q :| 0 <= q < |s[1..]| && s[1..][q] == t[p];
        assert s[q + 1] == t[p];
      }
      assert s[0] !in t;
      InsertRanked(rem, s[0], t);
    }
  }

  /** The leftover order ranks the positions and lists each of them exactly once. */
  lemma OrderFacts(rem: seq<int>)
    ensures Ranked(rem, Order(rem))
    ensures forall p :: 0 <= p < |rem| ==> 0 <= Order(rem)[p] < |rem|
    ensures Distinct(Order(rem))
    ensures forall j :: 0 <= j < |rem| ==> j in Order(rem)
  {
    var o := Order(rem);
    SortRanked(rem, Range(|rem|));
    forall p | 0 <= p < |rem|
      ensures 0 <= o[p] < |rem|
    {
      assert o[p] in multiset(Range(|rem|));
    }
    forall j | 0 <= j < |rem|
      ensures j in o
    {
      assert Range(|rem|)[j] == j;
      assert j in multiset(o);
    }
  }

  /** In a ranked sequence, every entry of a prefix beats every entry after it. */
  lemma RankedPrefix(rem: seq<int>, o: seq<int>, m: int, j: int, k: int)
    requires Ranked(rem, o) && 0 <= m <= |o|
    requires j in o[..m] && k in o && k !in o[..m]
    ensures Beats(rem, j, k)
  {
    var p :| 0 <= p < m && o[p] == j;
    var q :| 0 <= q < |o| && o[q] == k;
    forall i | 0 <= i < m
      ensures o[i] != k
    {
      assert o[i] == o[..m][i];
    }
    assert p < q;
  }

  // ---- The allocation -----------------------------------------------------------------

  /** The cents the floors leave over, `amount - Sum(floors)`: fewer than there are positions. */
  function Leftover(amount: int, w: seq<int>): (k: int)
    requires |w| > 0 && Sum(w) != 0
    ensures 0 <= k < |w|
  {
    LeftoverBounds(amount, w);
    amount - Sum(Floors(amount, w, Sum(w)))
  }

  /** The positions that get an extra cent: the first `Leftover` in remainder order. */
  function Picked(amount: int, w: seq<int>): (p: seq<int>)
    requires |w| > 0 && Sum(w) != 0
    ensures |p| == Leftover(amount, w)
    ensures Distinct(p)
    ensures forall i :: 0 <= i < |p| ==> 0 <= p[i] < |w|
  {
    var rem := Remainders(amount, w, Sum(w));
    OrderFacts(rem);
    Order(rem)[..Leftover(amount, w)]
  }

  /** The floors, with one more cent at each picked position. */
  function Shares(floors: seq<int>, picked: seq<int>): (r: seq<int>)
    ensures |r| == |floors|
    ensures forall j :: 0 <= j < |r| ==> r[j] == floors[j] + Bonus(|floors|, picked)[j]
  {
    seq(|floors|, j requires 0 <= j < |floors| => floors[j] + if j in picked then 1 else 0)
  }

  /** One extra cent for each position among `picked`. */
  function Bonus(n: nat, picked: seq<int>): (r: seq<int>)
    ensures |r| == n
    ensures forall j :: 0 <= j < n ==> r[j] == if j in picked then 1 else 0
  {
    seq(n, j => if j in picked then 1 else 0)
  }

  /** Distinct positions in range get one cent each: the bonus sums to their number. */
  lemma {:induction false} BonusSum(n: nat, picked: seq<int>)
    requires Distinct(picked)
    requires forall p :: 0 <= p < |picked| ==> 0 <= picked[p] < n
    ensures Sum(Bonus(n, picked)) == |picked|
  {
    if |picked| == 0 {
      SumZeros(Bonus(n, picked));
    } else {
      var m := |picked| - 1;
      var x := picked[m];
      var front := picked[..m];
      assert picked == front + [x];
      assert x !in front;
      BonusSum(n, front);
      assert Bonus(n, picked) == Bonus(n, front)[x := 1];
      SumUpdate(Bonus(n, front), x, 1);
    }
  }

  /** `allocateProportionally(amount, subtotals)`: a failure for an empty list or a zero
      total, and otherwise the floors plus one cent for each picked position. */
  function Allocation(amount: int, subtotals: seq<int>): (r: Result<seq<int>, AllocError>)
    ensures |subtotals| == 0 <==> r == Failure(EmptySubtotals)
    ensures |subtotals| > 0 && Sum(subtotals) == 0 <==> r == Failure(ZeroTotal)
    ensures r.Success? ==> |r.value| == |subtotals|
  {
    if |subtotals| == 0 then Failure(EmptySubtotals)
    else if Sum(subtotals) == 0 then Failure(ZeroTotal)
    else Success(Shares(Floors(amount, subtotals, Sum(subtotals)), Picked(amount, subtotals)))
  }

  /** The source's loop `for (let i = 0; i < remaining; i++) floored[remainders[i].index]++`:
      one more cent at each of the first `count` positions of `order`. */
  method AddLeftoverCents(floored: array<int>, order: seq<int>, count: int)
    requires 0 <= count <= |order|
    requires Distinct(order)
    requires forall p :: 0 <= p < |order| ==> 0 <= order[p] < floored.Length
    modifies floored
    ensures floored[..] == Shares(old(floored[..]), order[..count])
  {
    ghost var base := floored[..];
    var i := 0;
    while i < count
      invariant 0 <= i <= count
      invariant forall j :: 0 <= j < floored.Length ==> floored[j] == base[j] + if j in order[..i] then 1 else 0
    {
      var k := order[i];
      assert order[..i + 1] == order[..i] + [k];
      assert k !in order[..i];
      floored[k] := floored[k] + 1;
      i := i + 1;
    }
  }

  /** `allocateProportionally`: the two failures, then the floors in a fresh array, the
      remainder order, and the loop that hands out the leftover cents. */
  method AllocateProportionally(amount: int, subtotals: seq<int>) returns (r: Result<seq<int>, AllocError>)
    ensures r == Allocation(amount, subtotals)
  {
    if |subtotals| == 0 {
      return Failure(EmptySubtotals);
    }
    var total := Sum(subtotals);
    if total == 0 {
      return Failure(ZeroTotal);
    }
    var n := |subtotals|;
    var base := Floors(amount, subtotals, total);
    var floored := new int[n](j requires 0 <= j < n => base[j]);
    assert floored[..] == base;
    var remaining := amount - Sum(base);
    var rem := Remainders(amount, subtotals, total);
    var order := Order(rem);
    assert remaining == Leftover(amount, subtotals);
    OrderFacts(rem);
    AddLeftoverCents(floored, order, remaining);
    assert order[..remaining] == Picked(amount, subtotals);
    return Success(floored[..]);
  }

  // ---- Properties ----------------------------------------------------------------------

  /** The shares add up to the amount exactly: no cent is lost or created. */
  lemma AllocationSum(amount: int, subtotals: seq<int>)
    requires |subtotals| > 0 && Sum(subtotals) != 0
    ensures Allocation(amount, subtotals).Success?
    ensures Sum(Allocation(amount, subtotals).value) == amount
  {
    var floors := Floors(amount, subtotals, Sum(subtotals));
    var picked := Picked(amount, subtotals);
    BonusSum(|subtotals|, picked);
    SumPointwise(floors, Bonus(|subtotals|, picked), Shares(floors, picked));
  }

  /** `subtotal / total * amount` as the source's expression, in exact arithmetic. */
  lemma ExactShare(w: int, total: int, amount: int)
    requires total != 0
    ensures (w as real) / (total as real) * (amount as real) == ((w * amount) as real) / (total as real)
  {
    assert (w * amount) as real == (w as real) * (amount as real);
  }

  /** A single non-zero subtotal takes the whole amount. */
  lemma SingleSubtotal(amount: int, w: int)
    requires w != 0
    ensures Allocation(amount, [w]) == Success([amount])
  {
    SumSingleton(w);
    AllocationSum(amount, [w]);
    var v := Allocation(amount, [w]).value;
    assert v == [v[0]];
    SumSingleton(v[0]);
  }

  /** Each share is its floor or its floor plus one. */
  lemma AllocationAt(amount: int, subtotals: seq<int>, j: int)
    requires |subtotals| > 0 && Sum(subtotals) != 0 && 0 <= j < |subtotals|
    ensures Allocation(amount, subtotals).Success?
    ensures var s := Allocation(amount, subtotals).value[j];
      var floor := FloorDiv(subtotals[j] * amount, Sum(subtotals));
      s == floor || s == floor + 1
  {
  }

  /** A whole number equal to the floor of `e`, or one more, is within one of `e`. */
  lemma WithinOne(s: int, q: int, e: real)
    requires s == q || s == q + 1
    requires q as real <= e < q as real + 1.0
    ensures e - 1.0 < s as real <= e + 1.0
  {
  }

  /** `s` is within one of `w / total * amount`: strictly above it minus one, at most it plus one. */
  predicate NearExact(s: int, w: int, total: int, amount: int)
    requires total != 0
  {
    var exact := (w as real) / (total as real) * (amount as real);
    exact - 1.0 < s as real <= exact + 1.0
  }

  /** The same bound on plain numbers: the floor of `w / total * amount`, or one more. */
  lemma FloorWithinOne(w: int, total: int, amount: int, s: int)
    requires total != 0
    requires s == FloorDiv(w * amount, total) || s == FloorDiv(w * amount, total) + 1
    ensures NearExact(s, w, total, amount)
  {
    var n := w * amount;
    ExactQuotient(n, total);
    ExactShare(w, total, amount);
    WithinOne(s, FloorDiv(n, total), (n as real) / (total as real));
  }

  /** Each share is within one cent of the exact proportional share `subtotal / total * amount`
      (strictly below it plus one, at most one above). */
  lemma AllocationNearExact(amount: int, subtotals: seq<int>, j: int)
    requires |subtotals| > 0 && Sum(subtotals) != 0 && 0 <= j < |subtotals|
    ensures Allocation(amount, subtotals).Success?
    ensures NearExact(Allocation(amount, subtotals).value[j], subtotals[j], Sum(subtotals), amount)
  {
    AllocationAt(amount, subtotals, j);
    FloorWithinOne(subtotals[j], Sum(subtotals), amount, Allocation(amount, subtotals).value[j]);
  }

  /** The extra cents go to the largest remainders: a position that got one never has a
      smaller fractional part than a position that did not, and on equal fractional parts
      the earlier position wins. */
  lemma AllocationLargestRemainders(amount: int, subtotals: seq<int>, j: int, k: int)
    requires |subtotals| > 0 && Sum(subtotals) != 0
    requires 0 <= j < |subtotals| && 0 <= k < |subtotals|
    requires Allocation(amount, subtotals).value[j] == FloorDiv(subtotals[j] * amount, Sum(subtotals)) + 1
    requires Allocation(amount, subtotals).value[k] == FloorDiv(subtotals[k] * amount, Sum(subtotals))
    ensures var rem := Remainders(amount, subtotals, Sum(subtotals));
      rem[j] > rem[k] || (rem[j] == rem[k] && j < k)
  {
    var rem := Remainders(amount, subtotals, Sum(subtotals));
    OrderFacts(rem);
    var picked := Picked(amount, subtotals);
    assert j in picked && k !in picked;
    RankedPrefix(rem, Order(rem), Leftover(amount, subtotals), j, k);
  }

  /** The scaled remainders are the fractional parts of the exact shares times `|total|`,
      so they rank the positions as the fractional parts do. */
  lemma RemaindersAreFractions(amount: int, subtotals: seq<int>, j: int)
    requires |subtotals| > 0 && Sum(subtotals) != 0 && 0 <= j < |subtotals|
    ensures var total := Sum(subtotals);
      var exact := ((subtotals[j] * amount) as real) / (total as real);
      exact - FloorDiv(subtotals[j] * amount, total) as real
        == (Remainders(amount, subtotals, total)[j] as real) / (Abs(total) as real)
  {
    ExactQuotient(subtotals[j] * amount, Sum(subtotals));
  }
}

module AllocateExamples {
  import opened Common
  import opened Allocate

  /** Equal subtotals split the amount equally. */
  lemma EqualSubtotals()
    ensures Allocation(300, [1000, 1000, 1000]) == Success([100, 100, 100])
  {
    SumThree(1000, 1000, 1000);
    assert Floors(300, [1000, 1000, 1000], 3000) == [100, 100, 100];
    SumThree(100, 100, 100);
    assert Leftover(300, [1000, 1000, 1000]) == 0;
    assert Shares([100, 100, 100], []) == [100, 100, 100];
  }

  /** The position that beats every other one comes first in the remainder order. */
  lemma OrderFirst(rem: seq<int>, j: int)
    requires 0 <= j < |rem|
    requires forall k :: 0 <= k < |rem| && k != j ==> Beats(rem, j, k)
    ensures Order(rem)[0] == j
  {
    OrderFacts(rem);
    var o := Order(rem);
    forall q | 0 < q < |o|
      ensures o[q] != j
    {
      assert Beats(rem, o[0], o[q]) && o[0] != o[q];
      assert o[0] != j ==> Beats(rem, j, o[0]);
    }
    assert j in o;
  }

  /** Proportional subtotals whose shares come out whole need no extra cents. */
  lemma UnequalSubtotals()
    ensures Allocation(100, [5000, 3000, 2000]) == Success([50, 30, 20])
    ensures Allocation(1000, [6000, 3000, 1000]) == Success([600, 300, 100])
    ensures Allocation(1000, [5000, 3000, 2000]) == Success([500, 300, 200])
  {
    SumThree(5000, 3000, 2000);
    SumThree(6000, 3000, 1000);
    assert Floors(100, [5000, 3000, 2000], 10000) == [50, 30, 20];
    assert Floors(1000, [6000, 3000, 1000], 10000) == [600, 300, 100];
    assert Floors(1000, [5000, 3000, 2000], 10000) == [500, 300, 200];
    SumThree(50, 30, 20);
    SumThree(600, 300, 100);
    SumThree(500, 300, 200);
    assert Leftover(100, [5000, 3000, 2000]) == 0;
    assert Leftover(1000, [6000, 3000, 1000]) == 0;
    assert Leftover(1000, [5000, 3000, 2000]) == 0;
    assert Shares([50, 30, 20], []) == [50, 30, 20];
    assert Shares([600, 300, 100], []) == [600, 300, 100];
    assert Shares([500, 300, 200], []) == [500, 300, 200];
  }

  lemma ExactFourWay()
    ensures Allocation(1800, [4500, 3000, 1500, 1000]) == Success([810, 540, 270, 180])
  {
    var w := [4500, 3000, 1500, 1000];
    SumFour(4500, 3000, 1500, 1000);
    assert Floors(1800, w, 10000) == [810, 540, 270, 180];
    SumFour(810, 540, 270, 180);
    assert Leftover(1800, w) == 0;
    assert Shares([810, 540, 270, 180], []) == [810, 540, 270, 180];
  }

  lemma SinglePerson()
    ensures Allocation(500, [1000]) == Success([500])
  {
    SumSingleton(1000);
    SumSingleton(500);
    assert Floors(500, [1000], 1000) == [500];
    assert Leftover(500, [1000]) == 0;
    assert Shares([500], []) == [500];
  }

  /** The leftover cent goes to the largest remainder. */
  lemma LargestRemainderGetsTheCent()
    ensures Allocation(100, [3333, 3333, 3334]) == Success([33, 33, 34])
  {
    var w := [3333, 3333, 3334];
    SumThree(3333, 3333, 3334);
    assert Floors(100, w, 10000) == [33, 33, 33];
    SumThree(33, 33, 33);
    assert Leftover(100, w) == 1;
    var rem := Remainders(100, w, 10000);
    assert rem == [3300, 3300, 3400];
    OrderFirst(rem, 2);
    assert Picked(100, w) == [2];
    assert Shares([33, 33, 33], [2]) == [33, 33, 34];
  }

  /** Equal remainders: the earlier position gets the cent (the sort is stable). */
  lemma TieGoesToEarlierPosition()
    ensures Allocation(825, [4000, 3000, 2000, 1000]) == Success([330, 248, 165, 82])
  {
    var w := [4000, 3000, 2000, 1000];
    SumFour(4000, 3000, 2000, 1000);
    assert Floors(825, w, 10000) == [330, 247, 165, 82];
    SumFour(330, 247, 165, 82);
    assert Leftover(825, w) == 1;
    var rem := Remainders(825, w, 10000);
    assert rem == [0, 5000, 0, 5000];
    OrderFirst(rem, 1);
    assert Picked(825, w) == [1];
    assert Shares([330, 247, 165, 82], [1]) == [330, 248, 165, 82];
  }

  lemma Failures()
    ensures Allocation(100, []) == Failure(EmptySubtotals)
    ensures Allocation(100, [0, 0]) == Failure(ZeroTotal)
    ensures Allocation(100, [0, 0, 0]) == Failure(ZeroTotal)
  {
    SumThree(0, 0, 0);
    assert [0, 0][..1] == [0];
    SumSingleton(0);
  }
}
