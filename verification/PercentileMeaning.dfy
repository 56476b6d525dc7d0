/** What the percentiles and worst-fraction means are, told over the values themselves: order statistics,
    straight lines between them, and the best choice of a number of values. */
module PercentileMeaning {
  import opened Sequences
  import opened Percentiles

  // ---------- order statistics ----------

  /** How many of the values lie below v. */
  function Below(values: seq<nat>, v: nat): nat
  {
    if values == [] then 0
    else Below(values[..|values| - 1], v) + if values[|values| - 1] < v then 1 else 0
  }

  function Above(values: seq<nat>, v: nat): nat
  {
    if values == [] then 0
    else Above(values[..|values| - 1], v) + if values[|values| - 1] > v then 1 else 0
  }

  lemma {:induction false} InsertCounts(s: seq<nat>, x: nat, v: nat)
    ensures Below(Insert(s, x), v) == Below(s, v) + if x < v then 1 else 0
    ensures Above(Insert(s, x), v) == Above(s, v) + if x > v then 1 else 0
  {
    if s == [] || s[|s| - 1] <= x {
      assert (s + [x])[..|s|] == s;
    } else {
      var front, last := s[..|s| - 1], s[|s| - 1];
      InsertCounts(front, x, v);
      assert Insert(s, x)[..|s|] == Insert(front, x);
    }
  }

  lemma {:induction false} SortCounts(values: seq<nat>, v: nat)
    ensures Below(Sort(values), v) == Below(values, v) && Above(Sort(values), v) == Above(values, v)
  {
    if values != [] {
      var n := |values| - 1;
      SortCounts(values[..n], v);
      InsertCounts(Sort(values[..n]), values[n], v);
    }
  }

  lemma {:induction false} SortedBelow(s: seq<nat>, k: nat)
    requires Ascending(s) && k < |s|
    ensures Below(s, s[k]) <= k
    decreases |s|
  {
    var n := |s| - 1;
    if k < n {
      SortedBelow(s[..n], k);
    } else {
      AtMost(s[..n], s[k]);
    }
  }

  lemma {:induction false} AtMost(s: seq<nat>, v: nat)
    ensures Below(s, v) <= |s| && Above(s, v) <= |s|
  {
    if s != [] { AtMost(s[..|s| - 1], v); }
  }

  lemma {:induction false} SortedAbove(s: seq<nat>, k: nat)
    requires Ascending(s) && k < |s|
    ensures Above(s, s[k]) <= |s| - 1 - k
    decreases |s|
  {
    var n := |s| - 1;
    if k < n {
      SortedAbove(s[..n], k);
    } else {
      NoneAbove(s, s[k]);
    }
  }

  lemma {:induction false} NoneAbove(s: seq<nat>, v: nat)
    requires forall k :: 0 <= k < |s| ==> s[k] <= v
    ensures Above(s, v) == 0
  {
    if s != [] { NoneAbove(s[..|s| - 1], v); }
  }

  /** The k-th sorted value is one of the values, with at most k of them below it and at most n - 1 - k
      above it. */
  lemma OrderStatistic(values: seq<nat>, k: nat)
    requires k < |values|
    ensures var v := Sort(values)[k];
      v in values && Below(values, v) <= k && Above(values, v) <= |values| - 1 - k
  {
    var s := Sort(values);
    SortIsSort(values);
    SameMembers(values, s);
    SortCounts(values, s[k]);
    SortedBelow(s, k);
    SortedAbove(s, k);
  }

  // ---------- percentiles ----------

  /** The percentile of position k + t among n values, counted from 0. */
  function PercentOf(k: nat, t: real, n: nat): real
    requires n >= 2
  {
    100.0 * (k as real + t) / (n - 1) as real
  }

  lemma PercentIsRank(k: nat, t: real, n: nat)
    requires n >= 2 && k <= n - 2 && 0.0 <= t <= 1.0
    ensures 0.0 <= PercentOf(k, t, n) <= 100.0
    ensures Rank(PercentOf(k, t, n) / 100.0, n) == k as real + t
  {
    var x, m := k as real + t, (n - 1) as real;
    assert 0.0 <= x <= m;
    var q := x / m;
    assert q * m == x;
    CancelFactor(q, 1.0, m);
    if q < 0.0 { Positive(-q, m); }
    assert PercentOf(k, t, n) == 100.0 * q by {
      assert PercentOf(k, t, n) * m == 100.0 * x;
      Same(PercentOf(k, t, n), 100.0 * q, m);
    }
  }

  lemma Same(a: real, b: real, m: real)
    requires m > 0.0 && a * m == b * m
    ensures a == b
  {
    CancelFactor(a, b, m);
    CancelFactor(b, a, m);
  }

  lemma FractionOf(k: nat, t: real, n: nat) returns (f: real)
    requires n >= 2 && k <= n - 2 && 0.0 <= t <= 1.0
    ensures f == Clamped(PercentOf(k, t, n)) / 100.0 && 0.0 <= f <= 1.0 && Rank(f, n) == k as real + t
  {
    PercentIsRank(k, t, n);
    hide PercentOf, Rank;
    f := PercentOf(k, t, n) / 100.0;
  }

  lemma InterpolatesBlend(values: seq<nat>, k: nat, t: real)
    requires |values| >= 2 && k <= |values| - 2 && 0.0 <= t <= 1.0
    ensures PercentileC(values, PercentOf(k, t, |values|)) == Blend(Sort(values)[k], Sort(values)[k + 1], t)
  {
    hide *;
    var p := PercentOf(k, t, |values|);
    var f := FractionOf(k, t, |values|);
    UnfoldPercentile(values, p, f);
    BlendBetween(Sort(values), k, t);
  }

  /** Between consecutive sorted values the percentile runs along the straight line; at the ends of the
      stretch it is those values. */
  lemma PercentileInterpolates(values: seq<nat>, k: nat, t: real)
    requires |values| >= 2 && k <= |values| - 2 && 0.0 <= t <= 1.0
    ensures PercentileC(values, PercentOf(k, t, |values|))
         == Sort(values)[k] as real * (1.0 - t) + Sort(values)[k + 1] as real * t
  {
    InterpolatesBlend(values, k, t);
    hide Sort, PercentileC, PercentOf;
  }

  lemma BlendBetween(s: seq<nat>, k: nat, t: real)
    requires k + 1 < |s| && 0.0 <= t <= 1.0
    ensures var r := k as real + t;
      && 0 <= r.Floor < |s| && 0 <= Ceil(r) < |s|
      && Blend(s[r.Floor], s[Ceil(r)], r - r.Floor as real) == Blend(s[k], s[k + 1], t)
  {
    FloorAndCeil(k, t);
  }

  lemma FloorAndCeil(k: nat, t: real)
    requires 0.0 <= t <= 1.0
    ensures var r := k as real + t;
      && r.Floor == (if t == 1.0 then k + 1 else k) && Ceil(r) == (if t == 0.0 then k else k + 1)
  {
  }

  /** Percentile 0 and anything below it is the least value, 100 and anything above it the greatest; a
      single value is every percentile. */
  lemma ExtremePercentiles(values: seq<nat>, p: real)
    requires values != []
    ensures p <= 0.0 ==> PercentileC(values, p) == Sort(values)[0] as real
    ensures p >= 100.0 ==> PercentileC(values, p) == Sort(values)[|values| - 1] as real
    ensures |values| == 1 ==> PercentileC(values, p) == values[0] as real
  {
    hide *;
    var n := |values|;
    if n == 1 { OneSorted(values); }
    var f := ClampEnds(p);
    EndRanks(n, f);
    UnfoldPercentile(values, p, f);
    WholeRank(Sort(values), 0);
    WholeRank(Sort(values), n - 1);
  }

  lemma ClampEnds(p: real) returns (f: real)
    ensures f == Clamped(p) / 100.0 && 0.0 <= f <= 1.0
    ensures (p <= 0.0 ==> f == 0.0) && (p >= 100.0 ==> f == 1.0)
  {
    f := Clamped(p) / 100.0;
  }

  lemma OneSorted(values: seq<nat>)
    requires |values| == 1
    ensures Sort(values)[0] == values[0]
  {
    SortIsSort(values);
    SameMembers(values, Sort(values));
  }

  lemma WholeRank(s: seq<nat>, k: nat)
    requires k < |s|
    ensures (k as real).Floor == k == Ceil(k as real) && Blend(s[k], s[k], 0.0) == s[k] as real
  {
  }

  lemma EndRanks(n: nat, f: real)
    requires n > 0 && 0.0 <= f <= 1.0
    ensures Rank(0.0, n) == 0.0 && Rank(1.0, n) == (n - 1) as real
    ensures n == 1 ==> Rank(f, n) == 0.0
  {
  }

  // ---------- worst fractions ----------

  /** No choice of as many values has a greater sum than the top of the sorted list. */
  lemma {:induction false} TopIsBest(t: seq<nat>, s: seq<nat>)
    requires Ascending(t) && Ascending(s) && multiset(t) <= multiset(s)
    ensures |t| <= |s| && Sum(t) <= Sum(s[|s| - |t|..])
    decreases |t|
  {
    Fewer(t, s);
    if t != [] {
      var k, n := |t| - 1, |s| - 1;
      LastFits(t, s);
      TopIsBest(t[..k], s[..n]);
      assert s[|s| - |t|..][..k] == s[..n][n - k..];
      hide Ascending, Sum;
      LastOfSum(t);
      LastOfSum(s[|s| - |t|..]);
    }
  }

  lemma Fewer(t: seq<nat>, s: seq<nat>)
    requires multiset(t) <= multiset(s)
    ensures |t| <= |s|
  {
    var rest := multiset(s) - multiset(t);
    assert multiset(s) == multiset(t) + rest;
    assert |multiset(s)| == |multiset(t)| + |rest|;
  }

  lemma LastOfSum(s: seq<nat>)
    requires s != []
    ensures Sum(s) == Sum(s[..|s| - 1]) + s[|s| - 1]
  {
  }

  /** The greatest chosen value is at most the greatest value, and the other choices are among the rest. */
  lemma LastFits(t: seq<nat>, s: seq<nat>)
    requires t != [] && s != [] && Ascending(t) && Ascending(s) && multiset(t) <= multiset(s)
    ensures t[|t| - 1] <= s[|s| - 1]
    ensures multiset(t[..|t| - 1]) <= multiset(s[..|s| - 1])
    ensures Ascending(t[..|t| - 1]) && Ascending(s[..|s| - 1])
  {
    var last, top := t[|t| - 1], s[|s| - 1];
    assert last in multiset(t) && last in multiset(s);
    assert last in s;
    AllButLast(t);
    AllButLast(s);
    if last != top {
      assert top !in t;
      assert top !in multiset(t);
    }
  }

  /** The fraction of n values is more than k - 1 and at most k. */
  predicate Covers(fraction: real, n: nat, k: nat)
  {
    0 < k <= n && fraction > 0.0 && (k - 1) as real < fraction * n as real <= k as real
  }

  /** With the fraction between (k - 1) / n and k / n, the worst-fraction mean is the k-th part of the
      greatest sum that any k of the values have. */
  lemma WorstFractionIsBest(values: seq<nat>, fraction: real, k: nat, chosen: seq<nat>)
    requires k <= |values| && Covers(fraction, |values|, k)
    requires |chosen| == k && multiset(chosen) <= multiset(values)
    ensures Sum(chosen) as real <= WorstFractionMean(values, fraction) * k as real
    ensures var best := Sort(values)[|values| - k..];
      |best| == k && multiset(best) <= multiset(values)
      && Sum(best) as real == WorstFractionMean(values, fraction) * k as real
  {
    hide *;
    CountIs(fraction, |values|, k);
    BestChoice(values, chosen);
    MeanTimesCount(values, fraction);
    BelowProduct(Sum(chosen), Sum(Sort(values)[|values| - k..]), WorstFractionMean(values, fraction) * k as real);
  }

  lemma BestChoice(values: seq<nat>, chosen: seq<nat>)
    requires multiset(chosen) <= multiset(values)
    ensures |chosen| <= |values| && Sum(chosen) <= Sum(Sort(values)[|values| - |chosen|..])
    ensures multiset(Sort(values)[|values| - |chosen|..]) <= multiset(values)
  {
    hide Sort, Sum, Ascending;
    SortIsSort(values);
    SortIsSort(chosen);
    TopIsBest(Sort(chosen), Sort(values));
    SumIgnoresOrder(chosen, Sort(chosen));
    SliceOf(Sort(values), |values| - |chosen|);
  }

  lemma BelowProduct(a: nat, b: nat, p: real)
    requires a <= b && b as real == p
    ensures a as real <= p
  {
  }

  lemma MeanTimesCount(values: seq<nat>, fraction: real)
    requires values != []
    ensures var count := WorstCount(fraction, |values|);
      && 1 <= count <= |values|
      && Sum(Sort(values)[|values| - count..]) as real == WorstFractionMean(values, fraction) * count as real
  {
    hide Sort, Sum, WorstCount, WorstFractionMean;
    UnfoldWorst(values, fraction);
    var count := WorstCount(fraction, |values|);
    DivideBack(Sum(Sort(values)[|values| - count..]) as real, count as real);
  }

  lemma DivideBack(x: real, m: real)
    requires m > 0.0
    ensures x / m * m == x
  {
  }

  lemma SliceOf(s: seq<nat>, from: nat)
    requires from <= |s|
    ensures multiset(s[from..]) <= multiset(s)
  {
    assert s == s[..from] + s[from..];
  }

  lemma CountIs(fraction: real, n: nat, k: nat)
    requires Covers(fraction, n, k)
    ensures n > 0 && WorstCount(fraction, n) == k
  {
    if fraction > 1.0 {
      assert (fraction - 1.0) * n as real > 0.0;
    }
  }

  /** A fraction of zero or less takes the single worst value, one of 1 or more all of them. */
  lemma WorstFractionEnds(values: seq<nat>, fraction: real)
    requires values != []
    ensures fraction <= 0.0 ==> WorstFractionMean(values, fraction) == Sort(values)[|values| - 1] as real
    ensures fraction >= 1.0 ==> WorstFractionMean(values, fraction) == Mean(values)
  {
    hide *;
    EndCounts(fraction, |values|);
    SortIsSort(values);
    SumIgnoresOrder(values, Sort(values));
    OnlyLast(Sort(values));
    WholeMean(values);
    UnfoldWorst(values, fraction);
    assert Sort(values)[0..] == Sort(values);
  }

  lemma EndCounts(fraction: real, n: nat)
    requires n > 0
    ensures (fraction <= 0.0 ==> WorstCount(fraction, n) == 1) && (fraction >= 1.0 ==> WorstCount(fraction, n) == n)
  {
    if fraction <= 0.0 { WorstCountInRange(fraction, n); }
  }

  lemma WholeMean(values: seq<nat>)
    requires values != []
    ensures Mean(values) == Sum(values) as real / |values| as real
  {
  }

  lemma OnlyLast(s: seq<nat>)
    requires s != []
    ensures Sum(s[|s| - 1..]) == s[|s| - 1]
  {
    assert s[|s| - 1..] == [s[|s| - 1]] && [s[|s| - 1]][..0] == [];
  }

  /** The low frame rate is a thousand million nanoseconds divided by the worst-fraction mean. */
  lemma LowFpsIsInverse(values: seq<nat>, fraction: real)
    requires 0.0 <= fraction <= 1.0
    ensures WorstFractionMean(values, fraction) > 0.0 ==>
      LowFps(values, fraction) * WorstFractionMean(values, fraction) == 1000000000.0
    ensures WorstFractionMean(values, fraction) <= 0.0 ==> LowFps(values, fraction) == 0.0
  {
    hide *;
    LowFpsIsWorstFraction(values, fraction);
    InverseOf(WorstFractionMean(values, fraction));
  }

  lemma InverseOf(ns: real)
    ensures (ns > 0.0 ==> FpsFromNs(ns) * ns == 1000000000.0) && (ns <= 0.0 ==> FpsFromNs(ns) == 0.0)
  {
  }
}
