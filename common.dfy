/** Small value types and sequence helpers shared by every module of the model. */
module Common {

  /** A value that may be absent (JavaScript `undefined` / `null`). */
  datatype Option<+T> = None | Some(value: T)

  /** The outcome of an operation that can throw. */
  datatype Result<+T, +E> = Success(value: T) | Failure(error: E)

  function Abs(x: int): (r: nat)
    ensures r == x || r == -x
  {
    if x < 0 then -x else x
  }

  function Min(a: int, b: int): (r: int)
    ensures r <= a && r <= b && (r == a || r == b)
  {
    if a <= b then a else b
  }

  /** Sum of a sequence of integers (`reduce((sum, x) => sum + x, 0)`). */
  function Sum(s: seq<int>): int
  {
    if |s| == 0 then 0 else Sum(s[..|s| - 1]) + s[|s| - 1]
  }

  lemma {:induction false} SumAppend(a: seq<int>, b: seq<int>)
    ensures Sum(a + b) == Sum(a) + Sum(b)
  {
    if |b| == 0 {
      assert a + b == a;
    } else {
      assert (a + b)[..|a + b| - 1] == a + b[..|b| - 1];
      SumAppend(a, b[..|b| - 1]);
    }
  }

  lemma SumSingleton(x: int)
    ensures Sum([x]) == x
  {
    assert [x][..0] == [];
  }

  lemma SumThree(a: int, b: int, c: int)
    ensures Sum([a, b, c]) == a + b + c
  {
    assert [a, b, c][..2] == [a, b];
    assert [a, b][..1] == [a];
    SumSingleton(a);
  }

  lemma SumFour(a: int, b: int, c: int, d: int)
    ensures Sum([a, b, c, d]) == a + b + c + d
  {
    assert [a, b, c, d][..3] == [a, b, c];
    SumThree(a, b, c);
  }

  /** Replacing one element changes the sum by the difference. */
  lemma {:induction false} SumUpdate(s: seq<int>, i: int, v: int)
    requires 0 <= i < |s|
    ensures Sum(s[i := v]) == Sum(s) - s[i] + v
  {
    var n := |s| - 1;
    if i == n {
      assert s[i := v][..n] == s[..n];
    } else {
      assert s[i := v][..n] == s[..n][i := v];
      SumUpdate(s[..n], i, v);
    }
  }

  /** The sum of a pointwise sum is the sum of the two sums. */
  lemma {:induction false} SumPointwise(a: seq<int>, b: seq<int>, c: seq<int>)
    requires |a| == |b| == |c|
    requires forall i :: 0 <= i < |c| ==> c[i] == a[i] + b[i]
    ensures Sum(c) == Sum(a) + Sum(b)
  {
    if |c| > 0 {
      var n := |c| - 1;
      SumPointwise(a[..n], b[..n], c[..n]);
    }
  }

  /** Every element non-negative implies a non-negative sum, and a positive element a positive sum. */
  lemma {:induction false} SumNonNegative(s: seq<int>)
    requires forall i :: 0 <= i < |s| ==> s[i] >= 0
    ensures Sum(s) >= 0
    ensures (exists i :: 0 <= i < |s| && s[i] > 0) ==> Sum(s) > 0
  {
    if |s| > 0 {
      var n := |s| - 1;
      SumNonNegative(s[..n]);
      if exists i :: 0 <= i < |s| && s[i] > 0 {
        var i :| 0 <= i < |s| && s[i] > 0;
        if i < n {
          assert s[..n][i] > 0;
        }
      }
    }
  }

  /** A sequence of zeros sums to zero. */
  lemma {:induction false} SumZeros(s: seq<int>)
    requires forall i :: 0 <= i < |s| ==> s[i] == 0
    ensures Sum(s) == 0
  {
    if |s| > 0 {
      SumZeros(s[..|s| - 1]);
    }
  }

  function Zeros(n: nat): (r: seq<int>)
    ensures |r| == n && Sum(r) == 0
    ensures forall i :: 0 <= i < n ==> r[i] == 0
  {
    var r := seq(n, i => 0);
    SumZeros(r);
    r
  }

  /** The positions of `s` whose element satisfies `keep`, in increasing order. */
  function KeptPositions<T>(s: seq<T>, keep: T -> bool): (p: seq<nat>)
    ensures forall i, j :: 0 <= i < j < |p| ==> p[i] < p[j]
    ensures forall i :: 0 <= i < |p| ==> p[i] < |s| && keep(s[p[i]])
  {
    if |s| == 0 then []
    else
      var n := |s| - 1;
      var t := KeptPositions(s[..n], keep);
      assert forall i :: 0 <= i < |t| ==> s[t[i]] == s[..n][t[i]];
      if keep(s[n]) then t + [n] else t
  }

  /** No position whose element satisfies `keep` is missing. */
  lemma {:induction false} KeptPositionsComplete<T>(s: seq<T>, keep: T -> bool, j: int)
    requires 0 <= j < |s| && keep(s[j])
    ensures j in KeptPositions(s, keep)
  {
    var n := |s| - 1;
    if j < n {
      assert s[..n][j] == s[j];
      KeptPositionsComplete(s[..n], keep, j);
    }
  }

  /** `r` holds exactly the elements of `s` that satisfy `keep`, each occurrence once and in
      the order of `s`. */
  predicate KeptInOrder<T(==)>(r: seq<T>, s: seq<T>, keep: T -> bool)
  {
    var p := KeptPositions(s, keep);
    |r| == |p| && forall i :: 0 <= i < |r| ==> r[i] == s[p[i]]
  }

  /** `Array.prototype.filter`: the elements satisfying `keep`, in their original order. */
  function Filter<T(==,!new)>(s: seq<T>, keep: T -> bool): (r: seq<T>)
    ensures |r| <= |s|
    ensures forall x :: x in r <==> x in s && keep(x)
    ensures forall i :: 0 <= i < |r| ==> keep(r[i])
  {
    if |s| == 0 then []
    else
      var n := |s| - 1;
      var rest := Filter(s[..n], keep);
      assert s == s[..n] + [s[n]];
      if keep(s[n]) then rest + [s[n]] else rest
  }

  /** The filter keeps exactly the elements that satisfy `keep`, in order. */
  lemma {:induction false} FilterKeptInOrder<T(!new)>(s: seq<T>, keep: T -> bool)
    ensures KeptInOrder(Filter(s, keep), s, keep)
  {
    if |s| > 0 {
      var n := |s| - 1;
      FilterKeptInOrder(s[..n], keep);
      var rest, t := Filter(s[..n], keep), KeptPositions(s[..n], keep);
      var r, p := Filter(s, keep), KeptPositions(s, keep);
      assert |rest| == |t| && forall i :: 0 <= i < |rest| ==> rest[i] == s[..n][t[i]];
      assert r == if keep(s[n]) then rest + [s[n]] else rest;
      assert p == if keep(s[n]) then t + [n] else t;
      forall i | 0 <= i < |r|
        ensures r[i] == s[p[i]]
      {
        if i < |rest| {
          assert r[i] == rest[i] && p[i] == t[i];
        }
      }
    }
  }

  /** Only one sequence keeps the right elements in order: it is the filter. */
  lemma KeptInOrderIsFilter<T(!new)>(r: seq<T>, s: seq<T>, keep: T -> bool)
    requires KeptInOrder(r, s, keep)
    ensures r == Filter(s, keep)
  {
    FilterKeptInOrder(s, keep);
  }

  /** The filter keeps every occurrence of a kept value and none of the others. */
  lemma {:induction false} FilterCounts<T(!new)>(s: seq<T>, keep: T -> bool, x: T)
    ensures multiset(Filter(s, keep))[x] == if keep(x) then multiset(s)[x] else 0
  {
    if |s| > 0 {
      var n := |s| - 1;
      FilterCounts(s[..n], keep, x);
      assert s == s[..n] + [s[n]];
      assert multiset(s) == multiset(s[..n]) + multiset([s[n]]);
    }
  }

  /** Filtering with a predicate every element satisfies changes nothing. */
  lemma {:induction false} FilterKeepsAll<T(!new)>(s: seq<T>, keep: T -> bool)
    requires forall i :: 0 <= i < |s| ==> keep(s[i])
    ensures Filter(s, keep) == s
  {
    if |s| > 0 {
      var n := |s| - 1;
      FilterKeepsAll(s[..n], keep);
      assert Filter(s, keep) == Filter(s[..n], keep) + [s[n]];
      assert s == s[..n] + [s[n]];
    }
  }

  /** Filtering out the one element that fails `keep` shortens the sequence by one. */
  lemma {:induction false} FilterOneOut<T(!new)>(s: seq<T>, keep: T -> bool, m: int)
    requires 0 <= m < |s| && !keep(s[m])
    requires forall i :: 0 <= i < |s| && i != m ==> keep(s[i])
    ensures |Filter(s, keep)| == |s| - 1
  {
    var n := |s| - 1;
    var init := s[..n];
    forall i | 0 <= i < n && i != m
      ensures keep(init[i])
    {
      assert init[i] == s[i];
    }
    if m == n {
      FilterKeepsAll(init, keep);
    } else {
      FilterOneOut(init, keep, m);
    }
  }

  /** Filtering a concatenation filters each part: the kept elements stay in order. */
  lemma {:induction false} FilterAppend<T(!new)>(s: seq<T>, t: seq<T>, keep: T -> bool)
    ensures Filter(s + t, keep) == Filter(s, keep) + Filter(t, keep)
  {
    if |t| == 0 {
      assert s + t == s;
    } else {
      var n := |t| - 1;
      assert (s + t)[..|s + t| - 1] == s + t[..n];
      FilterAppend(s, t[..n], keep);
    }
  }

  /** `Array.prototype.slice(0, n)`. */
  function Take<T>(s: seq<T>, n: nat): (r: seq<T>)
    ensures |r| == Min(|s|, n)
    ensures forall i :: 0 <= i < |r| ==> r[i] == s[i]
  {
    if |s| <= n then s else s[..n]
  }

  /** `indexOf`: the position of the first occurrence of `x`, or `|s|` when absent. */
  function IndexOf<T(==)>(s: seq<T>, x: T): (k: nat)
    ensures k <= |s|
    ensures k < |s| <==> x in s
    ensures k < |s| ==> s[k] == x
    ensures forall j :: 0 <= j < k ==> s[j] != x
  {
    if |s| == 0 then 0
    else if s[0] == x then 0
    else 1 + IndexOf(s[1..], x)
  }

  predicate Distinct<T(==)>(s: seq<T>)
  {
    forall i, j :: 0 <= i < j < |s| ==> s[i] != s[j]
  }

  /** In a sequence without repetitions, an element's first occurrence is its position. */
  lemma IndexOfDistinct<T>(s: seq<T>, i: int)
    requires Distinct(s) && 0 <= i < |s|
    ensures IndexOf(s, s[i]) == i
  {
  }

  /** The sum of a sequence is the sum without position `m` plus the element at `m`. */
  lemma {:induction false} SumRemove(s: seq<int>, m: int)
    requires 0 <= m < |s|
    ensures Sum(s) == Sum(s[..m] + s[m + 1..]) + s[m]
  {
    var n := |s| - 1;
    if m == n {
      assert s[..m] + s[m + 1..] == s[..n];
    } else {
      SumRemove(s[..n], m);
      var t := s[..m] + s[m + 1..];
      assert t[..|t| - 1] == s[..n][..m] + s[..n][m + 1..];
      assert t[|t| - 1] == s[n];
    }
  }

  /** A positive sum has a positive element. */
  lemma {:induction false} PositiveSumHasPositive(s: seq<int>)
    requires Sum(s) > 0
    ensures exists i :: 0 <= i < |s| && s[i] > 0
  {
    var n := |s| - 1;
    if s[n] <= 0 {
      PositiveSumHasPositive(s[..n]);
      var i :| 0 <= i < n && s[..n][i] > 0;
      assert s[i] > 0;
    }
  }

  /** For each key of `ys`, the value `vals` gives it in `xs`, or 0 when `xs` lacks the key. */
  function Gather<K(==)>(ys: seq<K>, xs: seq<K>, vals: seq<int>): (r: seq<int>)
    requires |vals| == |xs|
    ensures |r| == |ys|
    ensures forall k :: 0 <= k < |ys| ==> r[k] == if ys[k] in xs then vals[IndexOf(xs, ys[k])] else 0
  {
    seq(|ys|, k requires 0 <= k < |ys| => if ys[k] in xs then vals[IndexOf(xs, ys[k])] else 0)
  }

  /** Removing position `m` from a sequence without repetitions keeps every other element
      and its value. */
  lemma IndexOfRemove<K>(xs: seq<K>, vals: seq<int>, m: int, z: K)
    requires |vals| == |xs| && Distinct(xs) && 0 <= m < |xs| && z != xs[m]
    ensures z in xs[..m] + xs[m + 1..] <==> z in xs
    ensures z in xs ==> (vals[..m] + vals[m + 1..])[IndexOf(xs[..m] + xs[m + 1..], z)] == vals[IndexOf(xs, z)]
  {
    var xs', vals' := xs[..m] + xs[m + 1..], vals[..m] + vals[m + 1..];
    if z in xs {
      var i := IndexOf(xs, z);
      var i' := if i < m then i else i - 1;
      assert xs'[i'] == xs[i] && vals'[i'] == vals[i];
      RemoveDistinct(xs, m);
      IndexOfDistinct(xs', i');
    }
  }

  /** Removing an element keeps a sequence free of repetitions. */
  lemma RemoveDistinct<K>(xs: seq<K>, m: int)
    requires Distinct(xs) && 0 <= m < |xs|
    ensures Distinct(xs[..m] + xs[m + 1..])
  {
    var xs' := xs[..m] + xs[m + 1..];
    forall i, j | 0 <= i < j < |xs'|
      ensures xs'[i] != xs'[j]
    {
      var i0 := if i < m then i else i + 1;
      var j0 := if j < m then j else j + 1;
      assert xs'[i] == xs[i0] && xs'[j] == xs[j0] && i0 < j0;
    }
  }

  /** Every key of `xs` other than `y` occurs in `ys` before its last position, `y`. */
  lemma KeysBeforeLast<K>(ys: seq<K>, xs: seq<K>)
    requires |ys| > 0
    requires forall i :: 0 <= i < |xs| ==> xs[i] in ys && xs[i] != ys[|ys| - 1]
    ensures forall i :: 0 <= i < |xs| ==> xs[i] in ys[..|ys| - 1]
  {
    var n := |ys| - 1;
    forall i | 0 <= i < |xs|
      ensures xs[i] in ys[..n]
    {
      var q :| 0 <= q < |ys| && ys[q] == xs[i];
      assert ys[..n][q] == xs[i];
    }
  }

  /** Mentions the first element of a non-empty `xs` so that a `forall` over its positions
      can be applied to it. */
  lemma FirstIn<K>(xs: seq<K>, ys: seq<K>)
    ensures (forall i :: 0 <= i < |xs| ==> xs[i] in ys) && |xs| > 0 ==> xs[0] in ys
  {
  }

  /** The last key of `ys` is `xs[m]`: dropping it from both sides keeps the gathered prefix. */
  lemma GatherRemoveKey<K>(ys: seq<K>, xs: seq<K>, vals: seq<int>, m: int)
    requires |vals| == |xs| && Distinct(ys) && Distinct(xs) && |ys| > 0
    requires 0 <= m < |xs| && xs[m] == ys[|ys| - 1]
    ensures Gather(ys[..|ys| - 1], xs[..m] + xs[m + 1..], vals[..m] + vals[m + 1..])
         == Gather(ys, xs, vals)[..|ys| - 1]
  {
    var n := |ys| - 1;
    forall k | 0 <= k < n
      ensures Gather(ys[..n], xs[..m] + xs[m + 1..], vals[..m] + vals[m + 1..])[k] == Gather(ys, xs, vals)[k]
    {
      IndexOfRemove(xs, vals, m, ys[k]);
    }
  }

  /** Gathering by key loses nothing: when the keys of `xs` are distinct and all occur
      (once) in `ys`, the gathered values sum to the sum of `vals`. */
  lemma {:induction false} GatherSum<K>(ys: seq<K>, xs: seq<K>, vals: seq<int>)
    requires |vals| == |xs| && Distinct(ys) && Distinct(xs)
    requires forall i :: 0 <= i < |xs| ==> xs[i] in ys
    ensures Sum(Gather(ys, xs, vals)) == Sum(vals)
  {
    var g := Gather(ys, xs, vals);
    if |ys| == 0 {
      FirstIn(xs, ys);
      assert vals == [] && g == [];
    } else {
      var n := |ys| - 1;
      var y := ys[n];
      if y in xs {
        var m := IndexOf(xs, y);
        var xs', vals' := xs[..m] + xs[m + 1..], vals[..m] + vals[m + 1..];
        GatherRemoveKey(ys, xs, vals, m);
        RemoveDistinct(xs, m);
        forall i | 0 <= i < |xs'|
          ensures xs'[i] in ys && xs'[i] != y
        {
          IndexOfRemove(xs, vals, m, xs'[i]);
        }
        KeysBeforeLast(ys, xs');
        GatherSum(ys[..n], xs', vals');
        SumRemove(vals, m);
      } else {
        assert Gather(ys[..n], xs, vals) == g[..n];
        KeysBeforeLast(ys, xs);
        GatherSum(ys[..n], xs, vals);
      }
    }
  }

  /** A non-negative rate scales a non-negative amount to a non-negative value, and a rate
      of at most one to no more than the amount. */
  lemma RateBounds(amount: int, rate: real)
    ensures amount >= 0 && rate >= 0.0 ==> amount as real * rate >= 0.0
    ensures amount >= 0 && 0.0 <= rate <= 1.0 ==> amount as real * rate <= amount as real
  {
    var x := amount as real;
    if amount >= 0 && rate >= 0.0 {
      assert x * rate >= 0.0;
      if rate <= 1.0 {
        assert x * (1.0 - rate) >= 0.0;
        assert x * rate == x - x * (1.0 - rate);
      }
    }
  }

  /** `Math.round(x)` on an exact real: the nearest integer, halves rounded up. */
  function Round(x: real): (r: int)
    ensures x - 0.5 < r as real <= x + 0.5
  {
    (x + 0.5).Floor
  }
}
