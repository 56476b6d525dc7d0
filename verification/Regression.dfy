/** The least-squares line of the scaling model, with doubles as reals. */
module Regression {

  datatype Fit = Fit(intercept: real, slope: real, rSquared: real)

  function Times(x: real, y: real): real {
    x * y
  }

  function Square(x: real): (r: real)
    ensures r >= 0.0
  {
    x * x
  }

  /** What is left of y above the line. */
  function Residue(x: real, y: real, a: real, b: real): real {
    y - (a + b * x)
  }

  function Sum(s: seq<real>): real
  {
    if s == [] then 0.0 else Sum(s[..|s| - 1]) + s[|s| - 1]
  }

  function Mean(s: seq<real>): real
    requires s != []
  {
    Sum(s) / |s| as real
  }

  /** sum((x - mx) * (y - my)); with ys = xs this is the sum of squared deviations. */
  function CrossDeviation(xs: seq<real>, ys: seq<real>, mx: real, my: real): real
    requires |xs| == |ys|
  {
    if xs == [] then 0.0
    else
      var n := |xs| - 1;
      CrossDeviation(xs[..n], ys[..n], mx, my) + Times(xs[n] - mx, ys[n] - my)
  }

  /** Sum of squared residuals of the line a + b*x. */
  function Residuals(xs: seq<real>, ys: seq<real>, a: real, b: real): real
    requires |xs| == |ys|
  {
    if xs == [] then 0.0
    else
      var n := |xs| - 1;
      Residuals(xs[..n], ys[..n], a, b) + Square(Residue(xs[n], ys[n], a, b))
  }

  function Slope(xs: seq<real>, ys: seq<real>): real
    requires |xs| == |ys| > 0
  {
    var ss := CrossDeviation(xs, xs, Mean(xs), Mean(xs));
    if ss != 0.0 then CrossDeviation(xs, ys, Mean(xs), Mean(ys)) / ss else 0.0
  }

  function FitLine(xs: seq<real>, ys: seq<real>): Fit
    requires |xs| == |ys| > 0
  {
    var b := Slope(xs, ys);
    var a := Mean(ys) - Times(b, Mean(xs));
    var sst := CrossDeviation(ys, ys, Mean(ys), Mean(ys));
    Fit(a, b, if sst != 0.0 then 1.0 - Residuals(xs, ys, a, b) / sst else 1.0)
  }

  // ---------- the normal equations ----------

  function SumResidues(xs: seq<real>, ys: seq<real>, a: real, b: real): real
    requires |xs| == |ys|
  {
    if xs == [] then 0.0
    else
      var n := |xs| - 1;
      SumResidues(xs[..n], ys[..n], a, b) + Residue(xs[n], ys[n], a, b)
  }

  /** sum(residue * (x - mx)) */
  function Tilt(xs: seq<real>, ys: seq<real>, a: real, b: real, mx: real): real
    requires |xs| == |ys|
  {
    if xs == [] then 0.0
    else
      var n := |xs| - 1;
      Tilt(xs[..n], ys[..n], a, b, mx) + Times(Residue(xs[n], ys[n], a, b), xs[n] - mx)
  }

  /** sum of squares of p + q*(x - mx) */
  function Spread(xs: seq<real>, p: real, q: real, mx: real): real
  {
    if xs == [] then 0.0
    else
      var n := |xs| - 1;
      Spread(xs[..n], p, q, mx) + Square(p + Times(q, xs[n] - mx))
  }

  lemma {:induction false} SpreadNonnegative(xs: seq<real>, p: real, q: real, mx: real)
    ensures Spread(xs, p, q, mx) >= 0.0
  {
    if xs != [] { SpreadNonnegative(xs[..|xs| - 1], p, q, mx); }
  }

  /** Another line differs from (a, b) by p + q*(x - mx): its residuals are those of (a, b) plus
      the spread between the lines, up to the sum and the tilt of the residues. */
  lemma {:induction false} OtherLine(xs: seq<real>, ys: seq<real>, a: real, b: real, p: real, q: real, mx: real)
    requires |xs| == |ys|
    ensures Residuals(xs, ys, a - p + Times(q, mx), b - q) ==
      Residuals(xs, ys, a, b) + Spread(xs, p, q, mx)
      + 2.0 * (Times(p, SumResidues(xs, ys, a, b)) + Times(q, Tilt(xs, ys, a, b, mx)))
  {
    if xs == [] {
      Spreading(p, 0.0, 0.0);
      Spreading(q, 0.0, 0.0);
    } else {
      var n := |xs| - 1;
      OtherLine(xs[..n], ys[..n], a, b, p, q, mx);
      var e, d := Residue(xs[n], ys[n], a, b), xs[n] - mx;
      OtherTerm(xs[n], ys[n], a, b, p, q, mx);
      Spreading(p, SumResidues(xs[..n], ys[..n], a, b), e);
      Spreading(q, Tilt(xs[..n], ys[..n], a, b, mx), Times(e, d));
    }
    hide Times, Square, Residue;
  }

  lemma OtherTerm(x: real, y: real, a: real, b: real, p: real, q: real, mx: real)
    ensures var e, d := Residue(x, y, a, b), x - mx;
      Square(Residue(x, y, a - p + Times(q, mx), b - q))
        == Square(e) + Square(p + Times(q, d)) + 2.0 * (Times(p, e) + Times(q, Times(e, d)))
  {
    ShiftedResidue(x, y, a, b, p, q, mx);
    SquareOfSum(Residue(x, y, a, b), p, q, x - mx);
    hide Residue;
  }

  lemma ShiftedResidue(x: real, y: real, a: real, b: real, p: real, q: real, mx: real)
    ensures Residue(x, y, a - p + Times(q, mx), b - q) == Residue(x, y, a, b) + (p + Times(q, x - mx))
  {
    assert (b - q) * x == b * x - q * x;
    assert q * (x - mx) == q * x - q * mx;
  }

  lemma SquareOfSum(e: real, p: real, q: real, d: real)
    ensures Square(e + (p + Times(q, d)))
         == Square(e) + Square(p + Times(q, d)) + 2.0 * (Times(p, e) + Times(q, Times(e, d)))
  {
    var s := p + q * d;
    assert (e + s) * (e + s) == e * e + s * s + 2.0 * (e * s);
    assert e * s == e * p + e * (q * d);
    assert e * (q * d) == q * (e * d);
  }

  lemma Spreading(k: real, u: real, v: real)
    ensures Times(k, u + v) == Times(k, u) + Times(k, v)
    ensures Times(k, 0.0) == 0.0
  {
  }

  lemma {:induction false} SumOfResidues(xs: seq<real>, ys: seq<real>, a: real, b: real)
    requires |xs| == |ys|
    ensures SumResidues(xs, ys, a, b) == Sum(ys) - Times(a, |xs| as real) - Times(b, Sum(xs))
  {
    if xs == [] {
      Spreading(a, 0.0, 0.0);
      Spreading(b, 0.0, 0.0);
    } else {
      var n := |xs| - 1;
      SumOfResidues(xs[..n], ys[..n], a, b);
      Spreading(b, Sum(xs[..n]), xs[n]);
      Spreading(a, n as real, 1.0);
      assert Residue(xs[n], ys[n], a, b) == ys[n] - Times(a, 1.0) - Times(b, xs[n]);
    }
    hide Times, Residue;
  }

  /** About the means, the tilt is the covariance not explained by the slope. */
  lemma {:induction false} TiltIsCovariance(xs: seq<real>, ys: seq<real>, b: real, mx: real, my: real)
    requires |xs| == |ys|
    ensures Tilt(xs, ys, my - Times(b, mx), b, mx)
         == CrossDeviation(xs, ys, mx, my) - Times(b, CrossDeviation(xs, xs, mx, mx))
  {
    if xs == [] {
      Spreading(b, 0.0, 0.0);
    } else {
      var n := |xs| - 1;
      TiltIsCovariance(xs[..n], ys[..n], b, mx, my);
      TiltTerm(xs[n], ys[n], b, mx, my);
      Spreading(b, CrossDeviation(xs[..n], xs[..n], mx, mx), Times(xs[n] - mx, xs[n] - mx));
    }
    hide Times, Residue;
  }

  lemma TiltTerm(x: real, y: real, b: real, mx: real, my: real)
    ensures Times(Residue(x, y, my - Times(b, mx), b), x - mx)
         == Times(x - mx, y - my) - Times(b, Times(x - mx, x - mx))
  {
    var d, f := x - mx, y - my;
    assert b * x == b * mx + b * d;
    assert Residue(x, y, my - b * mx, b) == f - b * d;
    assert (f - b * d) * d == d * f - b * (d * d);
  }

  /** If the squared deviations of x vanish, so do its products with anything. */
  lemma {:induction false} NoDeviation(xs: seq<real>, ys: seq<real>, mx: real, my: real)
    requires |xs| == |ys|
    ensures CrossDeviation(xs, xs, mx, mx) >= 0.0
    ensures CrossDeviation(xs, xs, mx, mx) == 0.0 ==> CrossDeviation(xs, ys, mx, my) == 0.0
  {
    if xs != [] {
      var n := |xs| - 1;
      NoDeviation(xs[..n], ys[..n], mx, my);
      ZeroSquare(xs[n] - mx, ys[n] - my);
    }
    hide Times;
  }

  lemma ZeroSquare(d: real, f: real)
    ensures Times(d, d) >= 0.0
    ensures Times(d, d) == 0.0 ==> Times(d, f) == 0.0
  {
    if d > 0.0 { assert d * d > 0.0; }
    if d < 0.0 { assert d * d > 0.0; }
  }

  lemma MeanTimesCount(s: seq<real>)
    requires s != []
    ensures Times(Mean(s), |s| as real) == Sum(s)
  {
  }

  lemma NormalEquations(xs: seq<real>, ys: seq<real>)
    requires |xs| == |ys| > 0
    ensures var f := FitLine(xs, ys);
      && SumResidues(xs, ys, f.intercept, f.slope) == 0.0
      && Tilt(xs, ys, f.intercept, f.slope, Mean(xs)) == 0.0
  {
    var mx, my, b := Mean(xs), Mean(ys), Slope(xs, ys);
    MeanTimesCount(xs);
    MeanTimesCount(ys);
    SumOfResidues(xs, ys, my - Times(b, mx), b);
    MeansCancel(|xs| as real, mx, my, b, Sum(xs), Sum(ys));
    TiltIsCovariance(xs, ys, b, mx, my);
    SlopeCancels(xs, ys);
    hide Times, Residue, Mean, Slope, Tilt, SumResidues, Sum;
  }

  lemma MeansCancel(n: real, mx: real, my: real, b: real, sx: real, sy: real)
    requires Times(mx, n) == sx && Times(my, n) == sy
    ensures sy - Times(my - Times(b, mx), n) - Times(b, sx) == 0.0
  {
    assert (my - b * mx) * n == my * n - (b * mx) * n;
    assert (b * mx) * n == b * (mx * n);
  }

  lemma SlopeCancels(xs: seq<real>, ys: seq<real>)
    requires |xs| == |ys| > 0
    ensures CrossDeviation(xs, ys, Mean(xs), Mean(ys))
            - Times(Slope(xs, ys), CrossDeviation(xs, xs, Mean(xs), Mean(xs))) == 0.0
  {
    hide Mean, CrossDeviation, Times;
    NoDeviation(xs, ys, Mean(xs), Mean(ys));
    QuotientCancels(CrossDeviation(xs, ys, Mean(xs), Mean(ys)), CrossDeviation(xs, xs, Mean(xs), Mean(xs)));
  }

  lemma QuotientCancels(u: real, v: real)
    requires v == 0.0 ==> u == 0.0
    ensures u - Times(if v != 0.0 then u / v else 0.0, v) == 0.0
  {
  }

  /** No line has a smaller sum of squared residuals than the fit, for any nonempty data, all-equal
      x included. */
  lemma FitMinimises(xs: seq<real>, ys: seq<real>, a: real, b: real)
    requires |xs| == |ys| > 0
    ensures var f := FitLine(xs, ys); Residuals(xs, ys, f.intercept, f.slope) <= Residuals(xs, ys, a, b)
  {
    hide FitLine, Mean, Residuals, Spread, SumResidues, Tilt;
    var f, mx := FitLine(xs, ys), Mean(xs);
    var q := f.slope - b;
    var p := f.intercept + Times(q, mx) - a;
    NormalEquations(xs, ys);
    Spreading(p, 0.0, 0.0);
    Spreading(q, 0.0, 0.0);
    OtherLine(xs, ys, f.intercept, f.slope, p, q, mx);
    SpreadNonnegative(xs, p, q, mx);
    hide Times;
    assert f.intercept - p + Times(q, mx) == a && f.slope - q == b;
  }

  lemma {:induction false} FlatLine(xs: seq<real>, ys: seq<real>, my: real)
    requires |xs| == |ys|
    ensures Residuals(xs, ys, my, 0.0) == CrossDeviation(ys, ys, my, my)
    ensures CrossDeviation(ys, ys, my, my) >= 0.0
  {
    if xs != [] {
      var n := |xs| - 1;
      FlatLine(xs[..n], ys[..n], my);
      FlatTerm(xs[n], ys[n], my);
    }
    hide Times, Square, Residue;
  }

  lemma FlatTerm(x: real, y: real, my: real)
    ensures Square(Residue(x, y, my, 0.0)) == Times(y - my, y - my) >= 0.0
  {
    assert my + 0.0 * x == my;
  }

  lemma {:induction false} ResidualsNonnegative(xs: seq<real>, ys: seq<real>, a: real, b: real)
    requires |xs| == |ys|
    ensures Residuals(xs, ys, a, b) >= 0.0
  {
    hide Square, Residue;
    if xs != [] {
      ResidualsNonnegative(xs[..|xs| - 1], ys[..|xs| - 1], a, b);
    }
  }

  /** The coefficient of determination lies in [0, 1]. */
  lemma RSquaredInUnitInterval(xs: seq<real>, ys: seq<real>)
    requires |xs| == |ys| > 0
    ensures 0.0 <= FitLine(xs, ys).rSquared <= 1.0
  {
    var f, my := FitLine(xs, ys), Mean(ys);
    FlatLine(xs, ys, my);
    FitMinimises(xs, ys, my, 0.0);
    ResidualsNonnegative(xs, ys, f.intercept, f.slope);
    var sst := CrossDeviation(ys, ys, my, my);
    if sst != 0.0 {
      RatioInUnit(Residuals(xs, ys, f.intercept, f.slope), sst);
    }
    hide Residuals, CrossDeviation, Mean, Slope;
  }

  lemma RatioInUnit(s: real, t: real)
    requires 0.0 <= s <= t && t > 0.0
    ensures 0.0 <= s / t <= 1.0
  {
    var r := s / t;
    assert r * t == s;
  }

  // ---------- what the coefficient of determination is ----------

  /** The squared deviations of y split into what the line leaves and what it explains. */
  lemma DeviationSplits(xs: seq<real>, ys: seq<real>)
    requires |xs| == |ys| > 0
    ensures var f, my := FitLine(xs, ys), Mean(ys);
      CrossDeviation(ys, ys, my, my)
        == Residuals(xs, ys, f.intercept, f.slope) + Spread(xs, 0.0, f.slope, Mean(xs))
  {
    var f, mx, my := FitLine(xs, ys), Mean(xs), Mean(ys);
    FlatLine(xs, ys, my);
    NormalEquations(xs, ys);
    InterceptOf(xs, ys);
    hide FitLine, Mean, Residuals, Spread, SumResidues, Tilt, CrossDeviation;
    OtherLine(xs, ys, f.intercept, f.slope, 0.0, f.slope, mx);
    Spreading(0.0, 0.0, 0.0);
    Spreading(f.slope, 0.0, 0.0);
    hide Times;
  }

  lemma InterceptOf(xs: seq<real>, ys: seq<real>)
    requires |xs| == |ys| > 0
    ensures var f := FitLine(xs, ys); f.intercept + Times(f.slope, Mean(xs)) == Mean(ys)
  {
    hide Times, Mean, Slope, Residuals, CrossDeviation;
  }

  /** rSquared is the explained part of the deviations; and unless y is constant it is 1 exactly when the
      line leaves nothing. */
  lemma RSquaredIsExplained(xs: seq<real>, ys: seq<real>)
    requires |xs| == |ys| > 0
    ensures var f, sst := FitLine(xs, ys), CrossDeviation(ys, ys, Mean(ys), Mean(ys));
      && Times(f.rSquared, sst) == Spread(xs, 0.0, f.slope, Mean(xs))
      && (sst != 0.0 ==> (f.rSquared == 1.0 <==> Residuals(xs, ys, f.intercept, f.slope) == 0.0))
      && (sst == 0.0 ==> f.rSquared == 1.0)
  {
    var f, sst := FitLine(xs, ys), CrossDeviation(ys, ys, Mean(ys), Mean(ys));
    DeviationSplits(xs, ys);
    ResidualsNonnegative(xs, ys, f.intercept, f.slope);
    SpreadNonnegative(xs, 0.0, f.slope, Mean(xs));
    hide Residuals, CrossDeviation, Mean, Slope, Spread;
    Explained(f.rSquared, Residuals(xs, ys, f.intercept, f.slope), sst);
  }

  lemma Explained(r: real, sse: real, sst: real)
    requires r == if sst != 0.0 then 1.0 - sse / sst else 1.0
    ensures sst != 0.0 ==> Times(r, sst) == sst - sse && (r == 1.0 <==> sse == 0.0)
    ensures sst == 0.0 ==> Times(r, sst) == 0.0
  {
    if sst != 0.0 {
      assert sse / sst * sst == sse;
      assert (1.0 - sse / sst) * sst == sst - sse / sst * sst;
    }
  }

  /** For all-equal x the slope is 0 and the line is the mean of y. */
  lemma EqualXs(xs: seq<real>, ys: seq<real>)
    requires |xs| == |ys| > 0 && forall i :: 0 <= i < |xs| ==> xs[i] == xs[0]
    ensures FitLine(xs, ys).slope == 0.0 && FitLine(xs, ys).intercept == Mean(ys)
  {
    ConstantSum(xs, xs[0]);
    MeanTimesCount(xs);
    Cancel(Mean(xs), xs[0], |xs| as real);
    NoSpread(xs, xs[0]);
    InterceptOf(xs, ys);
    Spreading(Mean(xs), 0.0, 0.0);
    assert Times(0.0, Mean(xs)) == 0.0;
    hide Times, Mean, Residuals;
  }

  lemma Cancel(a: real, b: real, n: real)
    requires n > 0.0 && Times(a, n) == Times(b, n)
    ensures a == b
  {
    assert (a - b) * n == 0.0;
  }

  lemma {:induction false} ConstantSum(xs: seq<real>, x: real)
    requires forall i :: 0 <= i < |xs| ==> xs[i] == x
    ensures Sum(xs) == Times(x, |xs| as real)
  {
    if xs != [] {
      ConstantSum(xs[..|xs| - 1], x);
      Spreading(x, (|xs| - 1) as real, 1.0);
    }
  }

  lemma {:induction false} NoSpread(xs: seq<real>, x: real)
    requires forall i :: 0 <= i < |xs| ==> xs[i] == x
    ensures CrossDeviation(xs, xs, x, x) == 0.0
  {
    if xs != [] {
      NoSpread(xs[..|xs| - 1], x);
      assert Times(0.0, 0.0) == 0.0;
    }
  }
}
