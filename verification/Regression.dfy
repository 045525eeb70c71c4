/** The weighted straight-line fit of tools/ha_history.py, over the reals. */
module Regression {

  /** A sample and its weight. */
  datatype Point = Point(w: real, x: real, y: real)

  datatype Fit = NoWeight | NoSpan | Line(slope: real, intercept: real)

  // ---- the fit -------------------------------------------------------------------------------------------

  function SumW(ps: seq<Point>): (s: real) {
    if ps == [] then 0.0 else SumW(ps[1..]) + ps[0].w
  }

  function SumWX(ps: seq<Point>): (s: real) {
    if ps == [] then 0.0 else SumWX(ps[1..]) + ps[0].w * ps[0].x
  }

  function SumWY(ps: seq<Point>): (s: real) {
    if ps == [] then 0.0 else SumWY(ps[1..]) + ps[0].w * ps[0].y
  }

  function Square(r: real): (s: real) {
    r * r
  }

  /** The sum of w (x - mx)^2. */
  function Variance(ps: seq<Point>, mx: real): (s: real) {
    if ps == [] then 0.0 else Variance(ps[1..], mx) + ps[0].w * Square(ps[0].x - mx)
  }

  /** The sum of w f(x, y). */
  function WeightedSum(ps: seq<Point>, f: (real, real) -> real): (s: real) {
    if ps == [] then 0.0 else WeightedSum(ps[1..], f) + ps[0].w * f(ps[0].x, ps[0].y)
  }

  function Deviations(mx: real, my: real): (f: (real, real) -> real) {
    (x, y) => (x - mx) * (y - my)
  }

  /** The sum of w (x - mx) (y - my). */
  function Covariance(ps: seq<Point>, mx: real, my: real): (s: real) {
    WeightedSum(ps, Deviations(mx, my))
  }

  function WeightedFit(ps: seq<Point>): (f: Fit) {
    var total := SumW(ps);
    if total <= 0.0 then NoWeight
    else
      var mx, my := SumWX(ps) / total, SumWY(ps) / total;
      var variance := Variance(ps, mx);
      if variance <= 0.0 then NoSpan
      else
        var slope := Covariance(ps, mx, my) / variance;
        Line(slope, my - slope * mx)
  }

  /** The weighted squared error of the line y = a x + b. */
  function Error(ps: seq<Point>, a: real, b: real): (e: real) {
    if ps == [] then 0.0 else Error(ps[1..], a, b) + ps[0].w * Square(ps[0].y - a * ps[0].x - b)
  }

  // ---- centring --------------------------------------------------------------------------------------------

  /** The sum of w (y - my)^2. */
  function SpreadY(ps: seq<Point>, my: real): (s: real) {
    if ps == [] then 0.0 else SpreadY(ps[1..], my) + ps[0].w * Square(ps[0].y - my)
  }

  /** The sums of w (x - mx) and w (y - my). */
  function OffX(ps: seq<Point>, mx: real): (s: real) {
    if ps == [] then 0.0 else OffX(ps[1..], mx) + ps[0].w * (ps[0].x - mx)
  }

  function OffY(ps: seq<Point>, my: real): (s: real) {
    if ps == [] then 0.0 else OffY(ps[1..], my) + ps[0].w * (ps[0].y - my)
  }

  lemma OffAdds(off: real, s: real, m: real, t: real, w: real, x: real, off1: real, s1: real, t1: real)
    requires off == s - m * t && off1 == off + w * (x - m) && s1 == s + w * x && t1 == t + w
    ensures off1 == s1 - m * t1
  {
    assert m * t1 == m * t + m * w;
    assert w * (x - m) == w * x - m * w;
  }

  lemma {:induction false} OffXFromSums(ps: seq<Point>, m: real)
    ensures OffX(ps, m) == SumWX(ps) - m * SumW(ps)
  {
    if ps != [] {
      var r := ps[1..];
      OffXFromSums(r, m);
      OffAdds(OffX(r, m), SumWX(r), m, SumW(r), ps[0].w, ps[0].x, OffX(ps, m), SumWX(ps), SumW(ps));
    }
  }

  lemma {:induction false} OffYFromSums(ps: seq<Point>, m: real)
    ensures OffY(ps, m) == SumWY(ps) - m * SumW(ps)
  {
    if ps != [] {
      var r := ps[1..];
      OffYFromSums(r, m);
      OffAdds(OffY(r, m), SumWY(r), m, SumW(r), ps[0].w, ps[0].y, OffY(ps, m), SumWY(ps), SumW(ps));
    }
  }

  /** About the weighted means, the first moments vanish. */
  lemma Centred(ps: seq<Point>)
    requires SumW(ps) > 0.0
    ensures OffX(ps, SumWX(ps) / SumW(ps)) == 0.0 && OffY(ps, SumWY(ps) / SumW(ps)) == 0.0
  {
    OffXFromSums(ps, SumWX(ps) / SumW(ps));
    OffYFromSums(ps, SumWY(ps) / SumW(ps));
  }

  /** The error of the line with slope `a` and offset `c`, in moments about the centre. */
  function Moments(a: real, c: real, vv: real, uv: real, uu: real, v: real, u: real, w: real): (e: real) {
    vv - 2.0 * a * uv + a * a * uu - 2.0 * c * v + 2.0 * a * c * u + c * c * w
  }

  /** The square of a residual, written with u = x - mx, v = y - my and the line's offset at the means. */
  lemma ResidualSquared(u: real, v: real, a: real, c: real, r: real)
    requires r == v - a * u - c
    ensures Square(r) == Moments(a, c, Square(v), u * v, Square(u), v, u, 1.0)
  {
    var au := a * u;
    assert Square(r) == v * v + au * au + c * c - 2.0 * (v * au) - 2.0 * (v * c) + 2.0 * (au * c);
    assert au * au == a * a * (u * u);
    assert v * au == a * (u * v);
    assert au * c == a * c * u;
  }

  lemma MomentsScale(k: real, a: real, c: real, vv: real, uv: real, uu: real, v: real, u: real, e: real)
    requires e == Moments(a, c, vv, uv, uu, v, u, 1.0)
    ensures k * e == Moments(a, c, k * vv, k * uv, k * uu, k * v, k * u, k)
  {
    Distributed(k, a, c, vv, uv, uu, v, u);
  }

  lemma Distributed(k: real, a: real, c: real, vv: real, uv: real, uu: real, v: real, u: real)
    ensures k * Moments(a, c, vv, uv, uu, v, u, 1.0) == Moments(a, c, k * vv, k * uv, k * uu, k * v, k * u, k)
  {
  }

  lemma ResidualInMoments(w: real, u: real, v: real, a: real, c: real, r: real)
    requires r == v - a * u - c
    ensures w * Square(r) == Moments(a, c, w * Square(v), w * (u * v), w * Square(u), w * v, w * u, w)
  {
    ResidualSquared(u, v, a, c, r);
    MomentsScale(w, a, c, Square(v), u * v, Square(u), v, u, Square(r));
  }

  lemma ResidualAt(x: real, y: real, mx: real, my: real, a: real, b: real, c: real)
    requires c == b + a * mx - my
    ensures y - a * x - b == (y - my) - a * (x - mx) - c
  {
    assert a * (x - mx) == a * x - a * mx;
  }

  /** The moments about a centre, and one point's share of them. */
  datatype Sums = Sums(vv: real, uv: real, uu: real, v: real, u: real, w: real)

  function Of(m: Sums, a: real, c: real): (e: real) {
    Moments(a, c, m.vv, m.uv, m.uu, m.v, m.u, m.w)
  }

  function Plus(m: Sums, n: Sums): (s: Sums) {
    Sums(m.vv + n.vv, m.uv + n.uv, m.uu + n.uu, m.v + n.v, m.u + n.u, m.w + n.w)
  }

  function SumsOf(ps: seq<Point>, mx: real, my: real): (m: Sums) {
    Sums(SpreadY(ps, my), Covariance(ps, mx, my), Variance(ps, mx), OffY(ps, my), OffX(ps, mx), SumW(ps))
  }

  function Share(p: Point, mx: real, my: real): (m: Sums) {
    Sums(p.w * Square(p.y - my), p.w * ((p.x - mx) * (p.y - my)), p.w * Square(p.x - mx), p.w * (p.y - my),
         p.w * (p.x - mx), p.w)
  }

  lemma MomentsAdd(m: Sums, n: Sums, a: real, c: real)
    ensures Of(Plus(m, n), a, c) == Of(m, a, c) + Of(n, a, c)
  {
  }

  lemma WeightedStep(ps: seq<Point>, f: (real, real) -> real, t: real)
    requires ps != [] && t == f(ps[0].x, ps[0].y)
    ensures WeightedSum(ps, f) == WeightedSum(ps[1..], f) + ps[0].w * t
  {
  }

  lemma DeviationsAt(mx: real, my: real, x: real, y: real)
    ensures Deviations(mx, my)(x, y) == (x - mx) * (y - my)
  {
  }

  lemma CovarianceStep(ps: seq<Point>, mx: real, my: real)
    requires ps != []
    ensures Covariance(ps, mx, my) == Covariance(ps[1..], mx, my) + Share(ps[0], mx, my).uv
  {
    DeviationsAt(mx, my, ps[0].x, ps[0].y);
    WeightedStep(ps, Deviations(mx, my), (ps[0].x - mx) * (ps[0].y - my));
  }

  lemma SumsStep(ps: seq<Point>, mx: real, my: real)
    requires ps != []
    ensures SumsOf(ps, mx, my) == Plus(SumsOf(ps[1..], mx, my), Share(ps[0], mx, my))
  {
    CovarianceStep(ps, mx, my);
  }

  lemma PointInMoments(p: Point, mx: real, my: real, a: real, b: real, c: real, r: real)
    requires c == b + a * mx - my && r == p.y - a * p.x - b
    ensures p.w * Square(r) == Of(Share(p, mx, my), a, c)
  {
    ResidualAt(p.x, p.y, mx, my, a, b, c);
    ResidualInMoments(p.w, p.x - mx, p.y - my, a, c, r);
  }

  lemma ErrorAdds(e: real, t: real, m: Sums, n: Sums, s: Sums, a: real, c: real)
    requires e == Of(m, a, c) && t == Of(n, a, c) && s == Plus(m, n)
    ensures e + t == Of(s, a, c)
  {
    MomentsAdd(m, n, a, c);
  }

  lemma {:induction false} ErrorInMoments(ps: seq<Point>, mx: real, my: real, a: real, b: real, c: real)
    requires c == b + a * mx - my
    ensures Error(ps, a, b) == Of(SumsOf(ps, mx, my), a, c)
  {
    if ps != [] {
      var r, residual := ps[1..], ps[0].y - a * ps[0].x - b;
      ErrorInMoments(r, mx, my, a, b, c);
      PointInMoments(ps[0], mx, my, a, b, c, residual);
      SumsStep(ps, mx, my);
      ErrorAdds(Error(r, a, b), ps[0].w * Square(residual), SumsOf(r, mx, my), Share(ps[0], mx, my),
                SumsOf(ps, mx, my), a, c);
    } else {
      assert SumsOf(ps, mx, my) == Sums(0.0, 0.0, 0.0, 0.0, 0.0, 0.0);
    }
  }

  // ---- optimality -------------------------------------------------------------------------------------------

  /** The line in the result, its variance and its centre. */
  lemma FitIsLine(ps: seq<Point>)
    requires WeightedFit(ps).Line?
    ensures var mx, my := SumWX(ps) / SumW(ps), SumWY(ps) / SumW(ps);
            && SumW(ps) > 0.0 && Variance(ps, mx) > 0.0
            && WeightedFit(ps).slope * Variance(ps, mx) == Covariance(ps, mx, my)
            && WeightedFit(ps).intercept == my - WeightedFit(ps).slope * mx
  {
  }

  lemma PositiveTimes(k: real, s: real)
    requires k > 0.0 && s >= 0.0
    ensures k * s >= 0.0 && (k * s == 0.0 <==> s == 0.0)
  {
  }

  lemma SquareNonNegative(r: real)
    ensures Square(r) >= 0.0 && (Square(r) == 0.0 <==> r == 0.0)
  {
    if r > 0.0 {
      PositiveTimes(r, r);
    } else if r < 0.0 {
      PositiveTimes(-r, -r);
      assert r * r == (-r) * (-r);
    }
  }

  /** Away from the best slope `s`, a quadratic in the slope grows by its leading term. */
  lemma CompleteSquare(vv: real, cov: real, variance: real, w: real, s: real, a: real, c: real)
    requires s * variance == cov
    ensures Moments(a, c, vv, cov, variance, 0.0, 0.0, w)
            == Moments(s, 0.0, vv, cov, variance, 0.0, 0.0, w) + variance * Square(a - s) + w * Square(c)
  {
    assert variance * Square(a - s) == a * a * variance - 2.0 * a * (s * variance) + s * (s * variance);
    assert s * s * variance == s * (s * variance);
    assert c * c * w == w * Square(c);
  }

  lemma ExcessInMoments(m: Sums, s: real, a: real, c: real)
    requires m.v == 0.0 && m.u == 0.0 && s * m.uu == m.uv
    ensures Of(m, a, c) == Of(m, s, 0.0) + m.uu * Square(a - s) + m.w * Square(c)
  {
    CompleteSquare(m.vv, m.uv, m.uu, m.w, s, a, c);
  }

  lemma ExcessOfSums(m: Sums, e: real, e0: real, s: real, a: real, c: real)
    requires m.v == 0.0 && m.u == 0.0 && s * m.uu == m.uv && e == Of(m, a, c) && e0 == Of(m, s, 0.0)
    ensures e == e0 + m.uu * Square(a - s) + m.w * Square(c)
  {
    ExcessInMoments(m, s, a, c);
  }

  lemma ErrorOf(ps: seq<Point>, m: Sums, mx: real, my: real, a: real, b: real, c: real)
    requires m == SumsOf(ps, mx, my) && c == b + a * mx - my
    ensures Error(ps, a, b) == Of(m, a, c)
  {
    ErrorInMoments(ps, mx, my, a, b, c);
  }

  lemma ExcessAt(ps: seq<Point>, m: Sums, mx: real, my: real, s: real, i: real, a: real, b: real, c: real)
    requires m == SumsOf(ps, mx, my) && m.u == 0.0 && m.v == 0.0 && s * m.uu == m.uv
    requires c == b + a * mx - my && 0.0 == i + s * mx - my
    ensures Error(ps, a, b) == Error(ps, s, i) + m.uu * Square(a - s) + m.w * Square(c)
  {
    ErrorOf(ps, m, mx, my, a, b, c);
    ErrorOf(ps, m, mx, my, s, i, 0.0);
    ExcessOfSums(m, Error(ps, a, b), Error(ps, s, i), s, a, c);
  }

  /**
   * The error of any line exceeds the fit's by exactly what its slope and its height over the weighted
   * centre are off.
   */
  lemma ExcessError(ps: seq<Point>, a: real, b: real, mx: real, my: real, c: real)
    requires WeightedFit(ps).Line?
    requires mx == SumWX(ps) / SumW(ps) && my == SumWY(ps) / SumW(ps) && c == b + a * mx - my
    ensures var f := WeightedFit(ps);
            Error(ps, a, b) == Error(ps, f.slope, f.intercept)
                               + Variance(ps, mx) * Square(a - f.slope) + SumW(ps) * Square(c)
  {
    FitIsLine(ps);
    Centred(ps);
    ExcessAt(ps, SumsOf(ps, mx, my), mx, my, WeightedFit(ps).slope, WeightedFit(ps).intercept, a, b, c);
  }

  lemma SmallestAtZero(e: real, e0: real, variance: real, w: real, d: real, c: real)
    requires variance > 0.0 && w > 0.0 && e == e0 + variance * Square(d) + w * Square(c)
    ensures e0 <= e && (e == e0 <==> d == 0.0 && c == 0.0)
  {
    SquareNonNegative(d);
    SquareNonNegative(c);
    PositiveTimes(variance, Square(d));
    PositiveTimes(w, Square(c));
  }

  lemma SameLine(a: real, s: real, b: real, i: real, mx: real, my: real)
    requires i == my - s * mx
    ensures a - s == 0.0 && b + a * mx - my == 0.0 <==> a == s && b == i
  {
  }

  /** The fit is the one line with the smallest weighted squared error, over all lines. */
  lemma FitIsOptimal(ps: seq<Point>, a: real, b: real)
    requires WeightedFit(ps).Line?
    ensures var f := WeightedFit(ps);
            && Error(ps, f.slope, f.intercept) <= Error(ps, a, b)
            && (Error(ps, a, b) == Error(ps, f.slope, f.intercept) <==> a == f.slope && b == f.intercept)
  {
    var f := WeightedFit(ps);
    var mx, my := SumWX(ps) / SumW(ps), SumWY(ps) / SumW(ps);
    var c := b + a * mx - my;
    ExcessError(ps, a, b, mx, my, c);
    FitIsLine(ps);
    SmallestAtZero(Error(ps, a, b), Error(ps, f.slope, f.intercept), Variance(ps, mx), SumW(ps), a - f.slope, c);
    SameLine(a, f.slope, b, f.intercept, mx, my);
  }

  // ---- exact data --------------------------------------------------------------------------------------------

  ghost predicate OnLine(ps: seq<Point>, a: real, b: real) {
    forall i :: 0 <= i < |ps| ==> ps[i].y == a * ps[i].x + b
  }

  lemma {:induction false} NoErrorOnLine(ps: seq<Point>, a: real, b: real)
    requires OnLine(ps, a, b)
    ensures Error(ps, a, b) == 0.0
  {
    if ps != [] {
      NoErrorOnLine(ps[1..], a, b);
      assert ps[0].y - a * ps[0].x - b == 0.0;
    }
  }

  ghost predicate NonNegative(ps: seq<Point>) {
    forall i :: 0 <= i < |ps| ==> ps[i].w >= 0.0
  }

  lemma {:induction false} ErrorNonNegative(ps: seq<Point>, a: real, b: real)
    requires NonNegative(ps)
    ensures Error(ps, a, b) >= 0.0
  {
    if ps != [] {
      ErrorNonNegative(ps[1..], a, b);
      SquareNonNegative(ps[0].y - a * ps[0].x - b);
      NonNegativeTimes(ps[0].w, Square(ps[0].y - a * ps[0].x - b));
    }
  }

  lemma NonNegativeTimes(k: real, s: real)
    requires k >= 0.0 && s >= 0.0
    ensures k * s >= 0.0
  {
  }

  /** Exactly linear data is recovered exactly, whatever the weights. */
  lemma LinearDataRecovered(ps: seq<Point>, a: real, b: real)
    requires WeightedFit(ps).Line? && NonNegative(ps) && OnLine(ps, a, b)
    ensures WeightedFit(ps) == Line(a, b)
  {
    var f := WeightedFit(ps);
    NoErrorOnLine(ps, a, b);
    ErrorNonNegative(ps, f.slope, f.intercept);
    FitIsOptimal(ps, a, b);
  }

  // ---- weights -------------------------------------------------------------------------------------------------

  function Scaled(ps: seq<Point>, k: real): (qs: seq<Point>)
    ensures |qs| == |ps|
  {
    if ps == [] then [] else [ps[0].(w := k * ps[0].w)] + Scaled(ps[1..], k)
  }

  /** One more term keeps a sum the multiple of its unscaled self. */
  lemma ScaledSum(k: real, w: real, t: real, s: real, s1: real, q: real, q1: real)
    requires q == k * s && s1 == s + w * t && q1 == q + (k * w) * t
    ensures q1 == k * s1
  {
    assert k * (w * t) == (k * w) * t;
    assert k * (s + w * t) == k * s + k * (w * t);
  }

  lemma {:induction false} ScaledW(ps: seq<Point>, k: real)
    ensures SumW(Scaled(ps, k)) == k * SumW(ps)
  {
    if ps != [] {
      ScaledW(ps[1..], k);
      assert Scaled(ps, k)[1..] == Scaled(ps[1..], k);
      ScaledSum(k, ps[0].w, 1.0, SumW(ps[1..]), SumW(ps), SumW(Scaled(ps[1..], k)), SumW(Scaled(ps, k)));
    }
  }

  lemma {:induction false} ScaledWX(ps: seq<Point>, k: real)
    ensures SumWX(Scaled(ps, k)) == k * SumWX(ps)
  {
    if ps != [] {
      ScaledWX(ps[1..], k);
      assert Scaled(ps, k)[1..] == Scaled(ps[1..], k);
      ScaledSum(k, ps[0].w, ps[0].x, SumWX(ps[1..]), SumWX(ps), SumWX(Scaled(ps[1..], k)), SumWX(Scaled(ps, k)));
    }
  }

  lemma {:induction false} ScaledWY(ps: seq<Point>, k: real)
    ensures SumWY(Scaled(ps, k)) == k * SumWY(ps)
  {
    if ps != [] {
      ScaledWY(ps[1..], k);
      assert Scaled(ps, k)[1..] == Scaled(ps[1..], k);
      ScaledSum(k, ps[0].w, ps[0].y, SumWY(ps[1..]), SumWY(ps), SumWY(Scaled(ps[1..], k)), SumWY(Scaled(ps, k)));
    }
  }

  lemma {:induction false} ScaledVariance(ps: seq<Point>, k: real, mx: real)
    ensures Variance(Scaled(ps, k), mx) == k * Variance(ps, mx)
  {
    if ps != [] {
      ScaledVariance(ps[1..], k, mx);
      assert Scaled(ps, k)[1..] == Scaled(ps[1..], k);
      ScaledSum(k, ps[0].w, Square(ps[0].x - mx), Variance(ps[1..], mx), Variance(ps, mx),
                Variance(Scaled(ps[1..], k), mx), Variance(Scaled(ps, k), mx));
    }
  }

  lemma {:induction false} ScaledWeightedSum(ps: seq<Point>, k: real, f: (real, real) -> real)
    ensures WeightedSum(Scaled(ps, k), f) == k * WeightedSum(ps, f)
  {
    if ps != [] {
      ScaledWeightedSum(ps[1..], k, f);
      assert Scaled(ps, k)[1..] == Scaled(ps[1..], k);
      ScaledSum(k, ps[0].w, f(ps[0].x, ps[0].y), WeightedSum(ps[1..], f), WeightedSum(ps, f),
                WeightedSum(Scaled(ps[1..], k), f), WeightedSum(Scaled(ps, k), f));
    }
  }

  lemma ScaledCovariance(ps: seq<Point>, k: real, mx: real, my: real)
    ensures Covariance(Scaled(ps, k), mx, my) == k * Covariance(ps, mx, my)
  {
    ScaledWeightedSum(ps, k, Deviations(mx, my));
  }

  lemma SameQuotient(k: real, a: real, b: real, ka: real, kb: real)
    requires k > 0.0 && b > 0.0 && ka == k * a && kb == k * b
    ensures kb > 0.0 && ka / kb == a / b
  {
    var q := a / b;
    assert q * b == a;
    assert q * kb == k * (q * b);
  }

  lemma SameSign(k: real, b: real)
    requires k > 0.0
    ensures k * b <= 0.0 <==> b <= 0.0
  {
  }

  lemma ScaledMeanX(ps: seq<Point>, k: real)
    requires k > 0.0 && SumW(ps) > 0.0
    ensures SumW(Scaled(ps, k)) > 0.0 && SumWX(Scaled(ps, k)) / SumW(Scaled(ps, k)) == SumWX(ps) / SumW(ps)
  {
    ScaledW(ps, k);
    ScaledWX(ps, k);
    SameQuotient(k, SumWX(ps), SumW(ps), SumWX(Scaled(ps, k)), SumW(Scaled(ps, k)));
  }

  lemma ScaledMeanY(ps: seq<Point>, k: real)
    requires k > 0.0 && SumW(ps) > 0.0
    ensures SumW(Scaled(ps, k)) > 0.0 && SumWY(Scaled(ps, k)) / SumW(Scaled(ps, k)) == SumWY(ps) / SumW(ps)
  {
    ScaledW(ps, k);
    ScaledWY(ps, k);
    SameQuotient(k, SumWY(ps), SumW(ps), SumWY(Scaled(ps, k)), SumW(Scaled(ps, k)));
  }

  lemma ScaledSlope(ps: seq<Point>, k: real, mx: real, my: real)
    requires k > 0.0
    ensures Variance(Scaled(ps, k), mx) <= 0.0 <==> Variance(ps, mx) <= 0.0
    ensures Variance(ps, mx) > 0.0
            ==> Covariance(Scaled(ps, k), mx, my) / Variance(Scaled(ps, k), mx)
                == Covariance(ps, mx, my) / Variance(ps, mx)
  {
    var qs := Scaled(ps, k);
    ScaledVariance(ps, k, mx);
    ScaledCovariance(ps, k, mx, my);
    SameSign(k, Variance(ps, mx));
    if Variance(ps, mx) > 0.0 {
      SameQuotient(k, Covariance(ps, mx, my), Variance(ps, mx), Covariance(qs, mx, my), Variance(qs, mx));
    }
  }

  /** Only the proportions of the weights matter: so equal weights give the unweighted fit. */
  lemma ScalingWeightsChangesNothing(ps: seq<Point>, k: real)
    requires k > 0.0
    ensures WeightedFit(Scaled(ps, k)) == WeightedFit(ps)
  {
    if SumW(ps) > 0.0 {
      ScaledMeanX(ps, k);
      ScaledMeanY(ps, k);
      ScaledSlope(ps, k, SumWX(ps) / SumW(ps), SumWY(ps) / SumW(ps));
    } else {
      ScaledW(ps, k);
      SameSign(k, SumW(ps));
    }
  }

  // ---- the refusals ----------------------------------------------------------------------------------------------

  lemma {:induction false} WeightlessIff(ps: seq<Point>)
    requires NonNegative(ps)
    ensures SumW(ps) >= 0.0
    ensures SumW(ps) == 0.0 <==> forall i :: 0 <= i < |ps| ==> ps[i].w == 0.0
  {
    if ps != [] {
      WeightlessIff(ps[1..]);
      assert forall i :: 0 < i < |ps| ==> ps[i] == ps[1..][i - 1];
    }
  }

  /** Every sample that counts was taken at `t`. */
  ghost predicate TakenAt(ps: seq<Point>, t: real) {
    forall i :: 0 <= i < |ps| ==> ps[i].w == 0.0 || ps[i].x == t
  }

  lemma TakenAtRest(ps: seq<Point>, t: real)
    requires ps != []
    ensures TakenAt(ps, t) <==> TakenAt(ps[1..], t) && (ps[0].w == 0.0 || ps[0].x == t)
  {
    assert forall i :: 0 < i < |ps| ==> ps[i] == ps[1..][i - 1];
  }

  lemma TermVanishes(w: real, d: real)
    requires w >= 0.0
    ensures w * Square(d) >= 0.0 && (w * Square(d) == 0.0 <==> w == 0.0 || d == 0.0)
  {
    SquareNonNegative(d);
    if w > 0.0 {
      PositiveTimes(w, Square(d));
    }
  }

  lemma {:induction false} SpanlessIff(ps: seq<Point>, t: real)
    requires NonNegative(ps)
    ensures Variance(ps, t) >= 0.0
    ensures Variance(ps, t) == 0.0 <==> TakenAt(ps, t)
  {
    if ps != [] {
      SpanlessIff(ps[1..], t);
      TakenAtRest(ps, t);
      TermVanishes(ps[0].w, ps[0].x - t);
    }
  }

  lemma OneTimeStep(x: real, s: real, w: real, t: real)
    requires t == s + w
    ensures x * t == x * s + x * w
  {
  }

  lemma {:induction false} OneTime(ps: seq<Point>, t: real)
    requires TakenAt(ps, t)
    ensures SumWX(ps) == t * SumW(ps)
  {
    if ps != [] {
      TakenAtRest(ps, t);
      OneTime(ps[1..], t);
      OneTimeStep(t, SumW(ps[1..]), ps[0].w, SumW(ps));
      assert ps[0].w * ps[0].x == t * ps[0].w;
    }
  }

  lemma QuotientOf(a: real, t: real, w: real)
    requires w > 0.0 && a == t * w
    ensures a / w == t
  {
  }

  /** Samples all taken at one time have that time as their weighted mean. */
  lemma MeanOfOneTime(ps: seq<Point>, t: real)
    requires TakenAt(ps, t) && SumW(ps) > 0.0
    ensures SumWX(ps) / SumW(ps) == t
  {
    OneTime(ps, t);
    QuotientOf(SumWX(ps), t, SumW(ps));
  }

  /**
   * With nonnegative weights the fit is refused exactly when every weight is zero, or when the samples
   * that count were all taken at one and the same time.
   */
  lemma RefusedIff(ps: seq<Point>)
    requires NonNegative(ps)
    ensures WeightedFit(ps).NoWeight? <==> forall i :: 0 <= i < |ps| ==> ps[i].w == 0.0
    ensures !WeightedFit(ps).NoWeight? ==> (WeightedFit(ps).NoSpan? <==> exists t :: TakenAt(ps, t))
  {
    WeightlessIff(ps);
    if SumW(ps) > 0.0 {
      SpanlessIff(ps, SumWX(ps) / SumW(ps));
      if t :| TakenAt(ps, t) {
        MeanOfOneTime(ps, t);
      }
    }
  }
}
