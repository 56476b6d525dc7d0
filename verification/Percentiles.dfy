/** Percentiles, means and worst-fraction means of measured times, with doubles as reals. */
module Percentiles {
  import opened Sequences

  predicate Ascending(s: seq<nat>) {
    forall i, j :: 0 <= i <= j < |s| ==> s[i] <= s[j]
  }

  function Insert(s: seq<nat>, x: nat): (r: seq<nat>)
    ensures |r| == |s| + 1
  {
    if s == [] || s[|s| - 1] <= x then s + [x] else Insert(s[..|s| - 1], x) + [s[|s| - 1]]
  }

  function Sort(s: seq<nat>): (r: seq<nat>)
    ensures |r| == |s|
  {
    if s == [] then [] else Insert(Sort(s[..|s| - 1]), s[|s| - 1])
  }

  lemma {:induction false} InsertKeeps(s: seq<nat>, x: nat)
    ensures multiset(Insert(s, x)) == multiset(s) + multiset{x}
  {
    if s != [] && s[|s| - 1] > x {
      InsertKeeps(s[..|s| - 1], x);
      assert s == s[..|s| - 1] + [s[|s| - 1]];
    }
  }

  lemma {:induction false} InsertAscends(s: seq<nat>, x: nat)
    requires Ascending(s)
    ensures Ascending(Insert(s, x))
  {
    if s != [] && s[|s| - 1] > x {
      var n := |s| - 1;
      InsertAscends(s[..n], x);
      InsertBelow(s[..n], x, s[n]);
    }
  }

  lemma {:induction false} InsertBelow(s: seq<nat>, x: nat, top: nat)
    requires x <= top && forall k :: 0 <= k < |s| ==> s[k] <= top
    ensures forall k :: 0 <= k < |Insert(s, x)| ==> Insert(s, x)[k] <= top
  {
    if s != [] && s[|s| - 1] > x {
      InsertBelow(s[..|s| - 1], x, top);
    }
  }

  /** Sorting orders the values and keeps each as often as it was there. */
  lemma {:induction false} SortIsSort(s: seq<nat>)
    ensures Ascending(Sort(s)) && multiset(Sort(s)) == multiset(s)
  {
    if s != [] {
      var n := |s| - 1;
      SortIsSort(s[..n]);
      InsertKeeps(Sort(s[..n]), s[n]);
      InsertAscends(Sort(s[..n]), s[n]);
      assert s == s[..n] + [s[n]];
    }
  }

  /** There is only one sorted arrangement, so it does not matter which algorithm qsort or
      std::sort uses. */
  lemma {:induction false} SortedIsUnique(a: seq<nat>, b: seq<nat>)
    requires Ascending(a) && Ascending(b) && multiset(a) == multiset(b)
    ensures a == b
    decreases |a|
  {
    SameLength(a, b);
    if a != [] {
      LastIsLargest(a, b);
      LastIsLargest(b, a);
      hide Ascending;
      AllButLast(a);
      AllButLast(b);
      AscendingPrefix(a);
      AscendingPrefix(b);
      SortedIsUnique(a[..|a| - 1], b[..|b| - 1]);
      SameFrontAndLast(a, b);
    }
  }

  lemma SameLength(a: seq<nat>, b: seq<nat>)
    requires multiset(a) == multiset(b)
    ensures |a| == |b|
  {
    assert |a| == |multiset(a)| == |multiset(b)| == |b|;
  }

  lemma SameFrontAndLast(a: seq<nat>, b: seq<nat>)
    requires |a| == |b| > 0 && a[..|a| - 1] == b[..|b| - 1] && a[|a| - 1] == b[|b| - 1]
    ensures a == b
  {
    assert a == a[..|a| - 1] + [a[|a| - 1]] && b == b[..|b| - 1] + [b[|b| - 1]];
  }

  lemma AllButLast(a: seq<nat>)
    requires a != []
    ensures multiset(a[..|a| - 1]) == multiset(a) - multiset{a[|a| - 1]}
  {
    assert a == a[..|a| - 1] + [a[|a| - 1]];
  }

  lemma AscendingPrefix(a: seq<nat>)
    requires a != [] && Ascending(a)
    ensures Ascending(a[..|a| - 1])
  {
  }

  lemma LastIsLargest(a: seq<nat>, b: seq<nat>)
    requires a != [] && b != [] && Ascending(b) && multiset(a) == multiset(b)
    ensures a[|a| - 1] <= b[|b| - 1]
  {
    assert a[|a| - 1] in multiset(b);
  }

  // ---------- interpolation ----------

  function Ceil(r: real): int {
    -((-r).Floor)
  }

  function Blend(a: nat, b: nat, f: real): real {
    (a as real) * (1.0 - f) + (b as real) * f
  }

  /** The C and Python form: between floor and ceiling of the rank. */
  function AtRank(s: seq<nat>, rank: real): real
    requires s != [] && 0.0 <= rank <= (|s| - 1) as real
  {
    var lo, hi := rank.Floor, Ceil(rank);
    Blend(s[lo], s[hi], rank - lo as real)
  }

  /** The C++ form: between the truncated position and the one above, capped at the last. */
  function AtPosition(s: seq<nat>, position: real): real
    requires s != [] && 0.0 <= position <= (|s| - 1) as real
  {
    var lower := position.Floor;
    var upper := if lower + 1 < |s| - 1 then lower + 1 else |s| - 1;
    Blend(s[lower], s[upper], position - lower as real)
  }

  lemma FormsAgree(s: seq<nat>, rank: real)
    requires s != [] && 0.0 <= rank <= (|s| - 1) as real
    ensures AtRank(s, rank) == AtPosition(s, rank)
  {
    var lo := rank.Floor;
    if rank == lo as real {
      assert Ceil(rank) == lo;
      var upper := if lo + 1 < |s| - 1 then lo + 1 else |s| - 1;
      assert Blend(s[lo], s[upper], 0.0) == Blend(s[lo], s[lo], 0.0);
    } else {
      assert Ceil(rank) == lo + 1;
    }
  }

  lemma BlendBounds(a: nat, b: nat, f: real)
    requires a <= b && 0.0 <= f <= 1.0
    ensures a as real <= Blend(a, b, f) <= b as real
  {
    BlendMonotone(a, b, 0.0, f);
    BlendMonotone(a, b, f, 1.0);
  }

  lemma BlendMonotone(a: nat, b: nat, f: real, g: real)
    requires a <= b && f <= g
    ensures Blend(a, b, f) <= Blend(a, b, g)
  {
    var x, y := a as real, b as real;
    assert (y - x) * (g - f) >= 0.0;
    assert Blend(a, b, g) - Blend(a, b, f) == (y - x) * (g - f);
  }

  /** The interpolated value grows with the rank and stays between the least and greatest values. */
  lemma AtRankMonotone(s: seq<nat>, q: real, r: real)
    requires s != [] && Ascending(s) && 0.0 <= q <= r <= (|s| - 1) as real
    ensures AtRank(s, q) <= AtRank(s, r)
  {
    FormsAgree(s, q);
    FormsAgree(s, r);
    var a, b := q.Floor, r.Floor;
    var up := if a + 1 < |s| - 1 then a + 1 else |s| - 1;
    var vp := if b + 1 < |s| - 1 then b + 1 else |s| - 1;
    if a == b {
      BlendMonotone(s[a], s[up], q - a as real, r - a as real);
    } else {
      BlendBounds(s[a], s[up], q - a as real);
      BlendBounds(s[b], s[vp], r - b as real);
    }
  }

  lemma AtRankBounds(s: seq<nat>, r: real)
    requires s != [] && Ascending(s) && 0.0 <= r <= (|s| - 1) as real
    ensures s[0] as real <= AtRank(s, r) <= s[|s| - 1] as real
  {
    FormsAgree(s, r);
    var b := r.Floor;
    BlendBounds(s[b], s[if b + 1 < |s| - 1 then b + 1 else |s| - 1], r - b as real);
  }

  // ---------- the three percentile functions ----------

  function Clamped(percentile: real): real {
    if percentile < 0.0 then 0.0 else if percentile > 100.0 then 100.0 else percentile
  }

  /** The rank of a fraction among n values. */
  function Rank(fraction: real, n: nat): (r: real)
    requires 0.0 <= fraction <= 1.0 && n > 0
    ensures 0.0 <= r <= (n - 1) as real
  {
    ScaleBounds(fraction, (n - 1) as real);
    fraction * (n - 1) as real
  }

  lemma ScaleBounds(f: real, m: real)
    requires 0.0 <= f <= 1.0 && m >= 0.0
    ensures 0.0 <= f * m <= m
  {
    ScaleMonotone(0.0, f, m);
    ScaleMonotone(f, 1.0, m);
  }

  lemma ScaleMonotone(f: real, g: real, m: real)
    requires f <= g && m >= 0.0
    ensures f * m <= g * m
  {
    assert g * m - f * m == (g - f) * m;
    assert (g - f) * m >= 0.0;
  }

  lemma RankMonotone(f: real, g: real, n: nat)
    requires 0.0 <= f <= g <= 1.0 && n > 0
    ensures Rank(f, n) <= Rank(g, n)
  {
    ScaleMonotone(f, g, (n - 1) as real);
  }

  /** hfior_percentile_ns: 0 on no data, the percentile clamped to [0, 100]. */
  function PercentileC(values: seq<nat>, percentile: real): real
  {
    if values == [] then 0.0
    else AtRank(Sort(values), Rank(Clamped(percentile) / 100.0, |values|))
  }

  /** The game benchmark's Percentile: a fraction in [0, 1]. */
  function PercentileCxx(values: seq<nat>, fraction: real): real
    requires 0.0 <= fraction <= 1.0
  {
    if values == [] then 0.0 else AtPosition(Sort(values), Rank(fraction, |values|))
  }

  /** The analysis script's percentile: in [0, 100], not clamped. */
  function PercentilePython(values: seq<nat>, p: real): real
    requires 0.0 <= p <= 100.0
  {
    if values == [] then 0.0 else AtRank(Sort(values), Rank(p / 100.0, |values|))
  }

  lemma ThreePercentilesAgree(values: seq<nat>, p: real)
    requires 0.0 <= p <= 100.0
    ensures PercentileC(values, p) == PercentilePython(values, p) == PercentileCxx(values, p / 100.0)
  {
    hide Rank, AtRank, AtPosition, Sort;
    if values != [] {
      FormsAgree(Sort(values), Rank(p / 100.0, |values|));
    }
  }

  lemma PercentileMonotone(values: seq<nat>, p: real, q: real)
    requires p <= q
    ensures PercentileC(values, p) <= PercentileC(values, q)
  {
    hide AtRank, Sort, Ascending, Rank;
    if values != [] {
      SortIsSort(values);
      RankMonotone(Clamped(p) / 100.0, Clamped(q) / 100.0, |values|);
      AtRankMonotone(Sort(values), Rank(Clamped(p) / 100.0, |values|), Rank(Clamped(q) / 100.0, |values|));
    }
  }

  /** Every percentile lies between any bounds on the values. */
  lemma PercentileBounds(values: seq<nat>, p: real, low: nat, high: nat)
    requires values != [] && forall v :: v in values ==> low <= v <= high
    ensures low as real <= PercentileC(values, p) <= high as real
  {
    hide AtRank, Sort, Ascending, Rank;
    SortIsSort(values);
    var s := Sort(values);
    SameMembers(values, s);
    AtRankBounds(s, Rank(Clamped(p) / 100.0, |values|));
  }

  lemma SameMembers(a: seq<nat>, b: seq<nat>)
    requires multiset(a) == multiset(b)
    ensures forall k :: 0 <= k < |b| ==> b[k] in a
  {
    forall k | 0 <= k < |b| ensures b[k] in a { assert b[k] in multiset(a); }
  }

  // ---------- means ----------

  function Sum(s: seq<nat>): nat
  {
    if s == [] then 0 else Sum(s[..|s| - 1]) + s[|s| - 1]
  }

  function Mean(s: seq<nat>): real
  {
    if s == [] then 0.0 else Sum(s) as real / |s| as real
  }

  function WorstCount(fraction: real, n: nat): nat
    requires n > 0
  {
    var f := if fraction <= 0.0 then 1.0 / n as real else if fraction > 1.0 then 1.0 else fraction;
    var count := Ceil(f * n as real);
    if count <= 0 then 1 else count
  }

  lemma WorstCountInRange(fraction: real, n: nat)
    requires n > 0
    ensures 1 <= WorstCount(fraction, n) <= n
    ensures fraction <= 0.0 ==> WorstCount(fraction, n) == 1
  {
    var m := n as real;
    var f := if fraction <= 0.0 then 1.0 / m else if fraction > 1.0 then 1.0 else fraction;
    if fraction <= 0.0 {
      assert f * m == 1.0;
    } else {
      assert (1.0 - f) * m >= 0.0;
    }
  }

  lemma WorstCountMonotone(f: real, g: real, n: nat)
    requires 0.0 < f <= g && n > 0
    ensures WorstCount(f, n) <= WorstCount(g, n)
  {
    var a, b, m := if f > 1.0 then 1.0 else f, if g > 1.0 then 1.0 else g, n as real;
    assert (b - a) * m >= 0.0;
  }

  /** The mean of the `count` greatest values of an ascending list. */
  function TopMean(s: seq<nat>, count: nat): real
    requires 0 < count <= |s|
  {
    Sum(s[|s| - count..]) as real / count as real
  }

  /** hfior_worst_fraction_mean_ns */
  function WorstFractionMean(values: seq<nat>, fraction: real): real
  {
    if values == [] then 0.0
    else
      SortIsSort(values);
      WorstCountInRange(fraction, |values|);
      TopMean(Sort(values), WorstCount(fraction, |values|))
  }

  lemma {:induction false} SumPrepend(x: nat, s: seq<nat>)
    ensures Sum([x] + s) == x + Sum(s)
  {
    if s == [] {
      assert [x] + s == [x] && [x][..0] == [];
    } else {
      assert ([x] + s)[..|s|] == [x] + s[..|s| - 1];
      SumPrepend(x, s[..|s| - 1]);
    }
  }

  lemma {:induction false} SumAtLeast(s: seq<nat>, x: nat)
    requires forall v :: v in s ==> x <= v
    ensures Sum(s) >= x * |s|
  {
    if s != [] {
      var n := |s| - 1;
      forall v | v in s[..n] ensures x <= v { assert v in s; }
      assert s[n] in s;
      SumAtLeast(s[..n], x);
      assert x * |s| == x * n + x;
    }
  }

  lemma TopMeanStep(s: seq<nat>, count: nat)
    requires Ascending(s) && 0 < count < |s|
    ensures TopMean(s, count + 1) <= TopMean(s, count)
  {
    var k := |s| - count;
    var top, x := s[k..], s[k - 1];
    assert s[k - 1..] == [x] + top;
    SumPrepend(x, top);
    SumAtLeast(top, x);
    AddLess(Sum(top) as real, x as real, count as real);
  }

  lemma AddLess(total: real, x: real, n: real)
    requires n > 0.0 && total >= x * n
    ensures (total + x) / (n + 1.0) <= total / n
  {
    var a, b := total / n, (total + x) / (n + 1.0);
    assert a * n == total && b * (n + 1.0) == total + x;
    CancelFactor(x, a, n);
    assert a * (n + 1.0) == total + a;
    CancelFactor(b, a, n + 1.0);
  }

  lemma CancelFactor(a: real, b: real, m: real)
    requires m > 0.0 && a * m <= b * m
    ensures a <= b
  {
    assert (a - b) * m == a * m - b * m;
    if a > b { Positive(a - b, m); }
  }

  lemma Positive(a: real, b: real)
    requires a > 0.0 && b > 0.0
    ensures a * b > 0.0
  {
  }

  lemma {:induction false} TopMeanDecreases(s: seq<nat>, j: nat, k: nat)
    requires Ascending(s) && 0 < j <= k <= |s|
    ensures TopMean(s, k) <= TopMean(s, j)
    decreases k - j
  {
    if j < k {
      TopMeanStep(s, j);
      TopMeanDecreases(s, j + 1, k);
    }
  }

  lemma {:induction false} SumIgnoresOrder(a: seq<nat>, b: seq<nat>)
    requires multiset(a) == multiset(b)
    ensures Sum(a) == Sum(b)
    decreases |a|
  {
    assert |a| == |multiset(a)| == |multiset(b)| == |b|;
    if a != [] {
      var n := |a| - 1;
      AllButLast(a);
      assert a[n] in multiset(b);
      var k :| 0 <= k < |b| && b[k] == a[n];
      Without(b, k);
      SumIgnoresOrder(a[..n], b[..k] + b[k + 1..]);
      SumWithout(b, k);
    }
  }

  lemma {:induction false} SumConcat(a: seq<nat>, b: seq<nat>)
    ensures Sum(a + b) == Sum(a) + Sum(b)
    decreases |b|
  {
    if b == [] {
      assert a + b == a;
    } else {
      assert (a + b)[..|a + b| - 1] == a + b[..|b| - 1];
      SumConcat(a, b[..|b| - 1]);
    }
  }

  lemma SumWithout(b: seq<nat>, k: nat)
    requires k < |b|
    ensures Sum(b) == Sum(b[..k] + b[k + 1..]) + b[k]
  {
    assert b == b[..k + 1] + b[k + 1..] && b[..k + 1][..k] == b[..k];
    SumOfLast(b[..k + 1]);
    hide Sum;
    SumConcat(b[..k + 1], b[k + 1..]);
    SumConcat(b[..k], b[k + 1..]);
  }

  lemma SumOfLast(s: seq<nat>)
    requires s != []
    ensures Sum(s) == Sum(s[..|s| - 1]) + s[|s| - 1]
  {
  }

  /** The mean of the slowest fraction never grows with the fraction and is never below the mean. */
  lemma WorstFractionLaws(values: seq<nat>, f: real, g: real)
    requires values != [] && 0.0 < f <= g
    ensures WorstFractionMean(values, g) <= WorstFractionMean(values, f)
    ensures Mean(values) <= WorstFractionMean(values, g)
  {
    var s, n := Sort(values), |values|;
    SortIsSort(values);
    WorstCountInRange(f, n);
    WorstCountInRange(g, n);
    WorstCountMonotone(f, g, n);
    TopMeanDecreases(s, WorstCount(f, n), WorstCount(g, n));
    TopMeanDecreases(s, WorstCount(g, n), n);
    assert s[0..] == s;
    SumIgnoresOrder(values, s);
  }

  // ---------- in place, as the harness runs them ----------

  /** Stands for the library's sort: the result is all that matters, and there is only one. */
  method Qsort(vec: array<nat>)
    modifies vec
    ensures vec[..] == Sort(old(vec[..]))
  {
    var sorted := Sort(vec[..]);
    SortIsSort(vec[..]);
    var i := 0;
    while i < vec.Length
      invariant 0 <= i <= vec.Length
      invariant vec[..i] == sorted[..i]
    {
      vec[i] := sorted[i];
      i := i + 1;
    }
    assert sorted[..vec.Length] == sorted;
  }

  method WorstFractionMeanNs(vec: array<nat>, fraction: real) returns (mean: real)
    modifies vec
    ensures vec.Length > 0 ==> vec[..] == Sort(old(vec[..]))
    ensures mean == WorstFractionMean(old(vec[..]), fraction)
  {
    if vec.Length == 0 {
      return 0.0;
    }
    hide Sort, WorstCount, Sum, WorstFractionMean;
    UnfoldWorst(vec[..], fraction);
    Qsort(vec);
    var count := WorstCount(fraction, vec.Length);
    var sum := SumFrom(vec, vec.Length - count);
    mean := sum as real / count as real;
  }

  lemma UnfoldWorst(values: seq<nat>, fraction: real)
    requires values != []
    ensures var count := WorstCount(fraction, |values|);
      && 1 <= count <= |values|
      && WorstFractionMean(values, fraction) == Sum(Sort(values)[|values| - count..]) as real / count as real
  {
    WorstCountInRange(fraction, |values|);
    hide Sort, Sum, WorstCount;
  }

  method SumFrom(vec: array<nat>, start: nat) returns (sum: nat)
    requires start <= vec.Length
    ensures sum == Sum(vec[..][start..])
  {
    sum := 0;
    var i := start;
    while i < vec.Length
      invariant start <= i <= vec.Length
      invariant sum == Sum(vec[start..i])
    {
      assert vec[start..i + 1][..i - start] == vec[start..i];
      sum := sum + vec[i];
      i := i + 1;
    }
    assert vec[..][start..] == vec[start..vec.Length];
  }

  /** hfior_percentile_ns sorts the caller's vector in place. */
  method PercentileNs(vec: array<nat>, percentile: real) returns (value: real)
    modifies vec
    ensures vec.Length > 0 ==> vec[..] == Sort(old(vec[..]))
    ensures value == PercentileC(old(vec[..]), percentile)
  {
    if vec.Length == 0 {
      return 0.0;
    }
    var p := percentile;
    if p < 0.0 {
      p := 0.0;
    }
    if p > 100.0 {
      p := 100.0;
    }
    assert p == Clamped(percentile);
    p := p / 100.0;
    hide Sort, PercentileC, Clamped, Rank, Blend;
    UnfoldPercentile(vec[..], percentile, p);
    Qsort(vec);
    var rank := Rank(p, vec.Length);
    var lo, hi := rank.Floor, Ceil(rank);
    value := Blend(vec[lo], vec[hi], rank - lo as real);
  }

  lemma UnfoldPercentile(values: seq<nat>, percentile: real, p: real)
    requires values != [] && p == Clamped(percentile) / 100.0
    ensures var r := Rank(p, |values|);
      PercentileC(values, percentile) == Blend(Sort(values)[r.Floor], Sort(values)[Ceil(r)], r - r.Floor as real)
  {
    hide Sort, Clamped, Rank, Blend;
  }

  // ---------- slowest-frames rate ----------

  function Reverse(s: seq<nat>): seq<nat> {
    seq(|s|, i requires 0 <= i < |s| => s[|s| - 1 - i])
  }

  function FpsFromNs(ns: real): real {
    if ns > 0.0 then 1000000000.0 / ns else 0.0
  }

  function CxxCount(fraction: real, n: nat): nat {
    var c := Ceil(n as real * fraction);
    if c > 1 then c else 1
  }

  lemma CountsAgree(fraction: real, n: nat)
    requires 0.0 <= fraction <= 1.0 && n > 0
    ensures CxxCount(fraction, n) == WorstCount(fraction, n) <= n
  {
    WorstCountInRange(fraction, n);
    if fraction == 0.0 {
      assert n as real * fraction == 0.0;
    } else {
      assert n as real * fraction == fraction * n as real;
    }
  }

  /** The game benchmark's LowFps: sort descending, average the first count, invert. */
  function LowFps(values: seq<nat>, fraction: real): real
    requires 0.0 <= fraction <= 1.0
  {
    if values == [] then 0.0
    else
      CountsAgree(fraction, |values|);
      var count := CxxCount(fraction, |values|);
      FpsFromNs(Sum(Reverse(Sort(values))[..count]) as real / count as real)
  }

  lemma {:induction false} SumOfReversedPrefix(s: seq<nat>, k: nat)
    requires k <= |s|
    ensures Sum(Reverse(s)[..k]) == Sum(s[|s| - k..])
  {
    if k > 0 {
      var r := Reverse(s);
      SumOfReversedPrefix(s, k - 1);
      assert r[..k][..k - 1] == r[..k - 1];
      assert s[|s| - k..] == [s[|s| - k]] + s[|s| - (k - 1)..];
      SumPrepend(s[|s| - k], s[|s| - (k - 1)..]);
    }
  }

  /** The C++ and the C harness report the same low frame rate. */
  lemma LowFpsIsWorstFraction(values: seq<nat>, fraction: real)
    requires 0.0 <= fraction <= 1.0
    ensures LowFps(values, fraction) == FpsFromNs(WorstFractionMean(values, fraction))
  {
    if values != [] {
      CountsAgree(fraction, |values|);
      WorstCountInRange(fraction, |values|);
      SumOfReversedPrefix(Sort(values), WorstCount(fraction, |values|));
      hide Sort, Reverse, Sum, WorstCount, CxxCount;
    }
  }
}
