/** Ridge regression with a free bias: centring removes the bias, rescaling the design rescales the ridge. */
module AffineObjective {
  import opened Prelude
  import opened Vectors
  import opened LeastSquares
  import opened RidgeFit

  /** `n` sources of dimension `d` and one target each. */
  predicate Shaped(xs: Mat, d: nat, y: Vec) {
    Rows(xs, |xs|, d) && |y| == |xs| > 0
  }

  function Mean(v: Vec): real
    requires |v| > 0
  {
    Dot(v, Ones(|v|), |v|) / |v| as real
  }

  function Column(xs: Mat, d: nat, j: nat): (c: Vec)
    requires Rows(xs, |xs|, d) && j < d
    ensures |c| == |xs| && forall r | 0 <= r < |c| :: c[r] == xs[r][j]
  {
    seq(|xs|, r requires 0 <= r < |xs| => xs[r][j])
  }

  function Means(xs: Mat, d: nat): (m: Vec)
    requires Rows(xs, |xs|, d) && |xs| > 0
    ensures |m| == d && forall j | 0 <= j < d :: m[j] == Mean(Column(xs, d, j))
  {
    seq(d, j requires 0 <= j < d => Mean(Column(xs, d, j)))
  }

  /** Every row minus the mean row. */
  function Centred(xs: Mat, d: nat): (c: Mat)
    requires Rows(xs, |xs|, d) && |xs| > 0
    ensures Rows(c, |xs|, d) && forall r | 0 <= r < |xs| :: c[r] == Sub(xs[r], Means(xs, d))
  {
    seq(|xs|, r requires 0 <= r < |xs| => Sub(xs[r], Means(xs, d)))
  }

  function CentredTarget(y: Vec): (z: Vec)
    requires |y| > 0
    ensures |z| == |y| && forall r | 0 <= r < |y| :: z[r] == y[r] - Mean(y)
  {
    seq(|y|, r requires 0 <= r < |y| => y[r] - Mean(y))
  }

  /** How far the affine map (w, b) misses each target. */
  function Misses(xs: Mat, d: nat, y: Vec, w: Vec, b: real): (m: Vec)
    requires Shaped(xs, d, y) && |w| == d
    ensures |m| == |xs| && forall r | 0 <= r < |xs| :: m[r] == Dot(xs[r], w, d) + b - y[r]
  {
    seq(|xs|, r requires 0 <= r < |xs| => Dot(xs[r], w, d) + b - y[r])
  }

  /** The documented objective: squared misses plus `lambda` times the squared weights. The bias is free. */
  function Objective(xs: Mat, d: nat, y: Vec, lambda: real, w: Vec, b: real): real
    requires Shaped(xs, d, y) && |w| == d
  {
    Dot(Misses(xs, d, y, w, b), Misses(xs, d, y, w, b), |xs|) + Mul(lambda, Dot(w, w, d))
  }

  // ----- centring

  lemma TimesCount(v: Vec, m: real)
    requires |v| > 0 && m == Mean(v)
    ensures Repeated(m, |v|) == Dot(v, Ones(|v|), |v|)
  {
    RepeatedQuotient(Dot(v, Ones(|v|), |v|), |v|);
  }

  /** `x` added up `n` times. */
  function Repeated(x: real, n: nat): real {
    x * n as real
  }

  lemma RepeatedQuotient(s: real, n: nat)
    requires n > 0
    ensures Repeated(s / n as real, n) == s
  {
  }

  lemma RepeatedIs(x: real, n: nat)
    ensures Mul(x, n as real) == Repeated(x, n)
    ensures Repeated(-x, n) == -Repeated(x, n)
  {
  }

  /** Entries minus their mean add up to zero. */
  lemma ShiftedSum(v: Vec, m: real, z: Vec)
    requires |z| == |v| > 0 && m == Mean(v) && forall r | 0 <= r < |v| :: z[r] == v[r] - m
    ensures Dot(z, Ones(|v|), |v|) == 0.0
  {
    var n, s := |v|, AddScaled(v, -m, Ones(|v|));
    TimesCount(v, m);
    DotAddScaled(v, -m, Ones(n), Ones(n), n);
    CountOnes(n, n);
    RepeatedIs(-m, n);
    RepeatedIs(m, n);
    DotSame(z, Ones(n), s, Ones(n), n);
  }

  lemma CentredColumnSum(xs: Mat, d: nat, j: nat)
    requires Rows(xs, |xs|, d) && |xs| > 0 && j < d
    ensures Dot(Column(Centred(xs, d), d, j), Ones(|xs|), |xs|) == 0.0
  {
    var v := Column(xs, d, j);
    ShiftedSum(v, Means(xs, d)[j], Column(Centred(xs, d), d, j));
  }

  lemma CentredTargetSum(y: Vec)
    requires |y| > 0
    ensures Dot(CentredTarget(y), Ones(|y|), |y|) == 0.0
  {
    ShiftedSum(y, Mean(y), CentredTarget(y));
  }

  /** Predictions from centred sources add up to zero. */
  lemma CentredPredictionSum(xs: Mat, d: nat, w: Vec)
    requires Rows(xs, |xs|, d) && |xs| > 0 && |w| == d
    ensures Dot(MatVec(Centred(xs, d), w), Ones(|xs|), |xs|) == 0.0
  {
    var n, c := |xs|, Centred(xs, d);
    var t := Transpose(c, n, d);
    DotComm(MatVec(c, w), Ones(n), n);
    TransposeForm(c, t, n, d, Ones(n), w);
    forall j | 0 <= j < d
      ensures MatVec(t, Ones(n))[j] == 0.0
    {
      CentredColumnSum(xs, d, j);
      assert t[j] == Column(c, d, j);
    }
    DotZero(w, MatVec(t, Ones(n)), d);
  }

  /** The misses without the bias, between centred sources and centred targets. */
  function CentredMisses(xs: Mat, d: nat, y: Vec, w: Vec): (m: Vec)
    requires Shaped(xs, d, y) && |w| == d
    ensures |m| == |xs|
  {
    Sub(MatVec(Centred(xs, d), w), CentredTarget(y))
  }

  /** How far the bias is from the best one for these weights. */
  function BiasError(xs: Mat, d: nat, y: Vec, w: Vec, b: real): real
    requires Shaped(xs, d, y) && |w| == d
  {
    b + Dot(Means(xs, d), w, d) - Mean(y)
  }

  lemma MissesSplit(xs: Mat, d: nat, y: Vec, w: Vec, b: real)
    requires Shaped(xs, d, y) && |w| == d
    ensures Misses(xs, d, y, w, b)
         == AddScaled(CentredMisses(xs, d, y, w), BiasError(xs, d, y, w, b), Ones(|xs|))
  {
    var e := BiasError(xs, d, y, w, b);
    forall r | 0 <= r < |xs|
      ensures Misses(xs, d, y, w, b)[r] == AddScaled(CentredMisses(xs, d, y, w), e, Ones(|xs|))[r]
    {
      DotSub(xs[r], Means(xs, d), w, d);
    }
  }

  lemma BiasCost(e: real, n: nat, p: real)
    requires n > 0 && p == e * e * n as real
    ensures p >= 0.0 && (e != 0.0 ==> p > 0.0)
  {
    var q := e * e;
    Square(e, q);
    if e == 0.0 {
      assert p == 0.0;
    } else {
      Positive(q, n as real, p);
    }
  }

  /** What a bias error of `e` costs over `n` targets. */
  function BiasPenalty(e: real, n: nat): (p: real)
    requires n > 0
    ensures p >= 0.0 && (e != 0.0 ==> p > 0.0)
  {
    var p := e * e * n as real;
    BiasCost(e, n, p);
    p
  }

  function CentredObjective(xs: Mat, d: nat, y: Vec, lambda: real, w: Vec): real
    requires Shaped(xs, d, y) && |w| == d
  {
    Dot(CentredMisses(xs, d, y, w), CentredMisses(xs, d, y, w), |xs|) + Mul(lambda, Dot(w, w, d))
  }

  /** The objective is the centred objective plus what the bias error costs. */
  lemma ObjectiveSplits(xs: Mat, d: nat, y: Vec, lambda: real, w: Vec, b: real, e: real)
    requires Shaped(xs, d, y) && |w| == d && e == BiasError(xs, d, y, w, b)
    ensures Objective(xs, d, y, lambda, w, b) == CentredObjective(xs, d, y, lambda, w) + BiasPenalty(e, |xs|)
  {
    var n, p := |xs|, CentredMisses(xs, d, y, w);
    MissesSplit(xs, d, y, w, b);
    CentredCross(xs, d, y, w);
    CountOnes(n, n);
    SplitQuad(p, Ones(n), p, Ones(n), e, 0.0, n);
    BiasAlong(Dot(p, p, n), e, n);
  }

  /** The centred misses add up to zero. */
  lemma CentredCross(xs: Mat, d: nat, y: Vec, w: Vec)
    requires Shaped(xs, d, y) && |w| == d
    ensures Dot(CentredMisses(xs, d, y, w), Ones(|xs|), |xs|) == 0.0
    ensures Dot(Ones(|xs|), CentredMisses(xs, d, y, w), |xs|) == 0.0
  {
    CentredPredictionSum(xs, d, w);
    CentredTargetSum(y);
    DotSub(MatVec(Centred(xs, d), w), CentredTarget(y), Ones(|xs|), |xs|);
    DotComm(CentredMisses(xs, d, y, w), Ones(|xs|), |xs|);
  }

  lemma BiasAlong(c: real, e: real, n: nat)
    requires n > 0
    ensures Along(c, 0.0, n as real, e) == c + BiasPenalty(e, n)
  {
    var m := n as real;
    assert e * e * m == e * (e * m);
  }

  // ----- rescaling

  /** The fit that is actually solved: centred rows in units of `u`. */
  function UnitFit(xs: Mat, d: nat, y: Vec, u: real): (f: Fit)
    requires Shaped(xs, d, y) && u > 0.0
    ensures f.Valid() && f.n == d && |f.xs| == |xs| && f.ys == CentredTarget(y) && f.ws == Ones(|xs|)
    ensures forall r, j | 0 <= r < |xs| && 0 <= j < d :: f.xs[r][j] == Centred(xs, d)[r][j] / u
  {
    Fit(d, seq(|xs|, r requires 0 <= r < |xs| => seq(d, j requires 0 <= j < d => Centred(xs, d)[r][j] / u)),
        Ones(|xs|), CentredTarget(y))
  }

  lemma UnitTerm(c: real, u: real, w: real, x: real)
    requires u > 0.0 && x == c / u
    ensures x * (u * w) == c * w
  {
    assert x * u == c;
    assert x * (u * w) == (x * u) * w;
  }

  lemma {:induction false} UnitRow(row: Vec, c: Vec, u: real, w: Vec, k: nat)
    requires |row| == |c| == |w| && u > 0.0 && k <= |w| && forall j | 0 <= j < |c| :: row[j] == c[j] / u
    ensures Dot(row, Scaled(u, w), k) == Dot(c, w, k)
  {
    if k > 0 {
      UnitRow(row, c, u, w, k - 1);
      UnitTerm(c[k-1], u, w[k-1], row[k-1]);
    }
  }

  lemma UnitResidual(xs: Mat, d: nat, y: Vec, u: real, w: Vec)
    requires Shaped(xs, d, y) && u > 0.0 && |w| == d
    ensures UnitFit(xs, d, y, u).Residual(Scaled(u, w)) == CentredMisses(xs, d, y, w)
  {
    var f := UnitFit(xs, d, y, u);
    forall r | 0 <= r < |xs|
      ensures f.Residual(Scaled(u, w))[r] == CentredMisses(xs, d, y, w)[r]
    {
      UnitRow(f.xs[r], Centred(xs, d)[r], u, w, d);
    }
  }

  lemma OnesWeigh(v: Vec)
    ensures Weighted(Ones(|v|), v) == v
  {
  }

  lemma PenaltyScales(rho: real, u: real, q: real, s: real, lambda: real)
    requires s == Twice(u, q) && lambda == rho * (u * u)
    ensures Mul(rho, s) == Mul(lambda, q)
  {
  }

  lemma UnitPenalty(rho: real, u: real, lambda: real, w: Vec, d: nat)
    requires |w| == d && lambda == rho * (u * u)
    ensures Mul(rho, Dot(Scaled(u, w), Scaled(u, w), d)) == Mul(lambda, Dot(w, w, d))
  {
    ScaledForm(u, w, w, d);
    PenaltyScales(rho, u, Dot(w, w, d), Dot(Scaled(u, w), Scaled(u, w), d), lambda);
  }

  lemma UnitMisfit(xs: Mat, d: nat, y: Vec, u: real, w: Vec)
    requires Shaped(xs, d, y) && u > 0.0 && |w| == d
    ensures UnitFit(xs, d, y, u).Misfit(Scaled(u, w))
         == Dot(CentredMisses(xs, d, y, w), CentredMisses(xs, d, y, w), |xs|)
  {
    UnitResidual(xs, d, y, u, w);
    OnesWeigh(CentredMisses(xs, d, y, w));
  }

  /** Scaling the weights by the unit turns the centred objective into the solved ridge objective. */
  lemma UnitObjective(xs: Mat, d: nat, y: Vec, rho: real, u: real, lambda: real, w: Vec)
    requires Shaped(xs, d, y) && u > 0.0 && |w| == d && lambda == rho * (u * u)
    ensures Ridged(UnitFit(xs, d, y, u), rho).Misfit(Scaled(u, w)) == CentredObjective(xs, d, y, lambda, w)
  {
    RidgedMisfit(UnitFit(xs, d, y, u), rho, Scaled(u, w));
    UnitMisfit(xs, d, y, u, w);
    UnitPenalty(rho, u, lambda, w, d);
  }

  // ----- the minimiser

  /** (w, b) is the only global minimiser. */
  ghost predicate IsBest(xs: Mat, d: nat, y: Vec, lambda: real, w: Vec, b: real) {
    && Shaped(xs, d, y) && |w| == d
    && forall v: Vec, c: real {:trigger Objective(xs, d, y, lambda, v, c)} | |v| == d && (v != w || c != b) ::
         Objective(xs, d, y, lambda, w, b) < Objective(xs, d, y, lambda, v, c)
  }

  /** The best bias for given weights. */
  function BestBias(xs: Mat, d: nat, y: Vec, w: Vec): real
    requires Shaped(xs, d, y) && |w| == d
  {
    Mean(y) - Dot(Means(xs, d), w, d)
  }

  lemma ScaleApart(u: real, v: Vec, w: Vec)
    requires u > 0.0 && |v| == |w| && v != w
    ensures Scaled(u, v) != Scaled(u, w)
  {
    var i :| 0 <= i < |v| && v[i] != w[i];
    assert u * (v[i] - w[i]) != 0.0;
    assert Scaled(u, v)[i] != Scaled(u, w)[i];
  }

  /** The solved system determines the weights strictly. */
  lemma WeightsBest(xs: Mat, d: nat, y: Vec, rho: real, u: real, lambda: real, a: Mat, b: Vec, w: Vec, v: Vec)
    requires Shaped(xs, d, y) && u > 0.0 && rho > 0.0 && |w| == |v| == d && v != w && lambda == rho * (u * u)
    requires IsNormal(Ridged(UnitFit(xs, d, y, u), rho), a, b) && MatVec(a, Scaled(u, w)) == b
    ensures CentredObjective(xs, d, y, lambda, w) < CentredObjective(xs, d, y, lambda, v)
  {
    UnitObjective(xs, d, y, rho, u, lambda, w);
    UnitObjective(xs, d, y, rho, u, lambda, v);
    ScaleApart(u, v, w);
    RidgeStrict(UnitFit(xs, d, y, u), rho, a, b, Scaled(u, w), Scaled(u, v));
  }

  /** A ridge makes the solution the only minimiser. */
  lemma RidgeStrict(f: Fit, rho: real, a: Mat, b: Vec, x: Vec, z: Vec)
    requires f.Valid() && rho > 0.0 && (forall r | 0 <= r < |f.ws| :: f.ws[r] > 0.0)
    requires IsNormal(Ridged(f, rho), a, b) && |x| == |z| == f.n && MatVec(a, x) == b && z != x
    ensures Ridged(f, rho).Misfit(x) < Ridged(f, rho).Misfit(z)
  {
    RidgedDefinite(f, rho, a, b);
    RidgedConvex(f, rho);
    SolutionMinimises(Ridged(f, rho), a, b, x, z);
  }

  lemma RidgedConvex(f: Fit, rho: real)
    requires Convex(f) && rho >= 0.0
    ensures Convex(Ridged(f, rho))
  {
  }

  lemma BetterThan(xs: Mat, d: nat, y: Vec, rho: real, u: real, lambda: real, a: Mat, b: Vec, w: Vec, v: Vec, c: real)
    requires Shaped(xs, d, y) && u > 0.0 && rho > 0.0 && |w| == |v| == d && lambda == rho * (u * u)
    requires IsNormal(Ridged(UnitFit(xs, d, y, u), rho), a, b) && MatVec(a, Scaled(u, w)) == b
    requires v != w || c != BestBias(xs, d, y, w)
    ensures Objective(xs, d, y, lambda, w, BestBias(xs, d, y, w)) < Objective(xs, d, y, lambda, v, c)
  {
    AtBestBias(xs, d, y, lambda, w);
    OffBestBias(xs, d, y, lambda, v, c);
    if v != w {
      WeightsBest(xs, d, y, rho, u, lambda, a, b, w, v);
    }
  }

  lemma AtBestBias(xs: Mat, d: nat, y: Vec, lambda: real, w: Vec)
    requires Shaped(xs, d, y) && |w| == d
    ensures Objective(xs, d, y, lambda, w, BestBias(xs, d, y, w)) == CentredObjective(xs, d, y, lambda, w)
  {
    ObjectiveSplits(xs, d, y, lambda, w, BestBias(xs, d, y, w), 0.0);
  }

  lemma OffBestBias(xs: Mat, d: nat, y: Vec, lambda: real, v: Vec, c: real)
    requires Shaped(xs, d, y) && |v| == d
    ensures Objective(xs, d, y, lambda, v, c) >= CentredObjective(xs, d, y, lambda, v)
    ensures c != BestBias(xs, d, y, v) ==> Objective(xs, d, y, lambda, v, c) > CentredObjective(xs, d, y, lambda, v)
  {
    var e := BiasError(xs, d, y, v, c);
    ObjectiveSplits(xs, d, y, lambda, v, c, e);
  }

  /** What the centred, rescaled solve returns is the unique global minimiser of the documented objective, with
      lambda = rho u^2 and the bias unpenalised. */
  lemma SolveIsBest(xs: Mat, d: nat, y: Vec, rho: real, u: real, lambda: real, a: Mat, b: Vec, w: Vec)
    requires Shaped(xs, d, y) && u > 0.0 && rho > 0.0 && |w| == d && lambda == rho * (u * u)
    requires IsNormal(Ridged(UnitFit(xs, d, y, u), rho), a, b) && MatVec(a, Scaled(u, w)) == b
    ensures IsBest(xs, d, y, lambda, w, BestBias(xs, d, y, w))
  {
    forall v: Vec, c: real | |v| == d && (v != w || c != BestBias(xs, d, y, w))
      ensures Objective(xs, d, y, lambda, w, BestBias(xs, d, y, w)) < Objective(xs, d, y, lambda, v, c)
    {
      BetterThan(xs, d, y, rho, u, lambda, a, b, w, v, c);
    }
  }

  // ----- equivariance

  /** There is only one best map. */
  lemma BestUnique(xs: Mat, d: nat, y: Vec, lambda: real, w: Vec, b: real, v: Vec, c: real)
    requires IsBest(xs, d, y, lambda, w, b) && IsBest(xs, d, y, lambda, v, c)
    ensures v == w && c == b
  {
    var best, other := Objective(xs, d, y, lambda, w, b), Objective(xs, d, y, lambda, v, c);
  }

  /** Every source moved by `s`. */
  function Moved(xs: Mat, d: nat, s: Vec): (r: Mat)
    requires Rows(xs, |xs|, d) && |s| == d
    ensures Rows(r, |xs|, d) && forall i | 0 <= i < |xs| :: r[i] == Add(xs[i], s)
  {
    seq(|xs|, i requires 0 <= i < |xs| => Add(xs[i], s))
  }

  /** Every source multiplied by `k`. */
  function Stretched(xs: Mat, d: nat, k: real): (r: Mat)
    requires Rows(xs, |xs|, d)
    ensures Rows(r, |xs|, d) && forall i | 0 <= i < |xs| :: r[i] == Scaled(k, xs[i])
  {
    seq(|xs|, i requires 0 <= i < |xs| => Scaled(k, xs[i]))
  }

  function Raised(y: Vec, t: real): (z: Vec)
    ensures |z| == |y| && forall i | 0 <= i < |y| :: z[i] == y[i] + t
  {
    seq(|y|, i requires 0 <= i < |y| => y[i] + t)
  }

  /** Moving sources and targets moves the bias. */
  lemma MovedMisses(xs: Mat, d: nat, y: Vec, s: Vec, t: real, w: Vec, b: real, b': real)
    requires Shaped(xs, d, y) && |s| == |w| == d && b' == b - Dot(s, w, d) + t
    ensures Misses(Moved(xs, d, s), d, Raised(y, t), w, b') == Misses(xs, d, y, w, b)
  {
    forall r | 0 <= r < |xs|
      ensures Misses(Moved(xs, d, s), d, Raised(y, t), w, b')[r] == Misses(xs, d, y, w, b)[r]
    {
      DotAdd(xs[r], s, w, d);
    }
  }

  lemma StretchedMisses(xs: Mat, d: nat, y: Vec, k: real, w: Vec, b: real)
    requires Shaped(xs, d, y) && |w| == d
    ensures Misses(Stretched(xs, d, k), d, y, w, b) == Misses(xs, d, y, Scaled(k, w), b)
  {
    forall r | 0 <= r < |xs|
      ensures Misses(Stretched(xs, d, k), d, y, w, b)[r] == Misses(xs, d, y, Scaled(k, w), b)[r]
    {
      DotScaled(k, xs[r], w, d);
      DotScaled(k, w, xs[r], d);
    }
  }

  lemma MovedObjective(xs: Mat, d: nat, y: Vec, lambda: real, s: Vec, t: real, w: Vec, b: real, b': real)
    requires Shaped(xs, d, y) && |s| == |w| == d && b' == b - Dot(s, w, d) + t
    ensures Objective(Moved(xs, d, s), d, Raised(y, t), lambda, w, b') == Objective(xs, d, y, lambda, w, b)
  {
    MovedMisses(xs, d, y, s, t, w, b, b');
  }

  lemma MovedBetter(xs: Mat, d: nat, y: Vec, lambda: real, s: Vec, t: real, w: Vec, b: real, b': real, v: Vec, c: real)
    requires IsBest(xs, d, y, lambda, w, b) && |s| == |v| == d && b' == b - Dot(s, w, d) + t
    requires v != w || c != b'
    ensures Objective(Moved(xs, d, s), d, Raised(y, t), lambda, w, b')
          < Objective(Moved(xs, d, s), d, Raised(y, t), lambda, v, c)
  {
    var c0 := c + Dot(s, v, d) - t;
    MovedObjective(xs, d, y, lambda, s, t, w, b, b');
    MovedObjective(xs, d, y, lambda, s, t, v, c0, c);
  }

  /** The best map after moving sources by `s` and targets by `t`: same weights, moved bias. */
  lemma MovedBest(xs: Mat, d: nat, y: Vec, lambda: real, s: Vec, t: real, w: Vec, b: real, b': real)
    requires IsBest(xs, d, y, lambda, w, b) && |s| == d && b' == b - Dot(s, w, d) + t
    ensures IsBest(Moved(xs, d, s), d, Raised(y, t), lambda, w, b')
  {
    forall v: Vec, c: real | |v| == d && (v != w || c != b')
      ensures Objective(Moved(xs, d, s), d, Raised(y, t), lambda, w, b')
            < Objective(Moved(xs, d, s), d, Raised(y, t), lambda, v, c)
    {
      MovedBetter(xs, d, y, lambda, s, t, w, b, b', v, c);
    }
  }

  lemma StretchedObjective(xs: Mat, d: nat, y: Vec, lambda: real, k: real, w: Vec, b: real, lambda': real)
    requires Shaped(xs, d, y) && |w| == d && lambda' == lambda * (k * k)
    ensures Objective(Stretched(xs, d, k), d, y, lambda', w, b) == Objective(xs, d, y, lambda, Scaled(k, w), b)
  {
    StretchedMisses(xs, d, y, k, w, b);
    UnitPenalty(lambda, k, lambda', w, d);
  }

  lemma ScaledApart(k: real, v: Vec, w: Vec)
    requires k != 0.0 && |v| == |w| && v != w
    ensures Scaled(k, v) != Scaled(k, w)
  {
    var i :| 0 <= i < |v| && v[i] != w[i];
    assert k * (v[i] - w[i]) != 0.0;
    assert Scaled(k, v)[i] != Scaled(k, w)[i];
  }

  /** The best map after stretching the sources by `k`, with the ridge stretched by its square. */
  lemma StretchedBest(xs: Mat, d: nat, y: Vec, lambda: real, k: real, w: Vec, b: real, lambda': real)
    requires k != 0.0 && |w| == d && lambda' == lambda * (k * k)
    requires IsBest(xs, d, y, lambda, Scaled(k, w), b)
    ensures IsBest(Stretched(xs, d, k), d, y, lambda', w, b)
  {
    var xs' := Stretched(xs, d, k);
    forall v: Vec, c: real | |v| == d && (v != w || c != b)
      ensures Objective(xs', d, y, lambda', w, b) < Objective(xs', d, y, lambda', v, c)
    {
      StretchedObjective(xs, d, y, lambda, k, w, b, lambda');
      StretchedObjective(xs, d, y, lambda, k, v, c, lambda');
      if v != w {
        ScaledApart(k, v, w);
      }
      assert Objective(xs, d, y, lambda, Scaled(k, w), b) < Objective(xs, d, y, lambda, Scaled(k, v), c);
    }
  }

  // ----- the ridge follows the data

  /** The squared length of the centred sources. */
  function Energy(c: Mat, d: nat, k: nat): (e: real)
    requires Rows(c, |c|, d) && k <= |c|
    ensures e >= 0.0
  {
    if k == 0 then 0.0
    else
      DotSelf(c[k-1], d);
      Energy(c, d, k - 1) + Dot(c[k-1], c[k-1], d)
  }

  lemma {:induction false} EnergySame(a: Mat, b: Mat, d: nat, k: nat)
    requires Rows(a, |a|, d) && Rows(b, |b|, d) && k <= |a| && k <= |b| && forall r | 0 <= r < k :: a[r] == b[r]
    ensures Energy(a, d, k) == Energy(b, d, k)
  {
    if k > 0 {
      EnergySame(a, b, d, k - 1);
    }
  }

  lemma {:induction false} EnergyScales(a: Mat, b: Mat, d: nat, t: real, k: nat)
    requires Rows(a, |a|, d) && Rows(b, |b|, d) && k <= |a| && k <= |b|
    requires forall r | 0 <= r < k :: b[r] == Scaled(t, a[r])
    ensures Energy(b, d, k) == Twice(t, Energy(a, d, k))
  {
    if k > 0 {
      EnergyScales(a, b, d, t, k - 1);
      StretchedNorm(t, a[k-1], b[k-1], d);
      AddTwice(t, Energy(a, d, k - 1), Dot(a[k-1], a[k-1], d));
    }
  }

  lemma AddTwice(t: real, e: real, q: real)
    ensures Twice(t, e) + Twice(t, q) == Twice(t, e + q)
  {
  }

  lemma StretchedNorm(t: real, v: Vec, z: Vec, d: nat)
    requires |v| == d && z == Scaled(t, v)
    ensures Dot(z, z, d) == Twice(t, Dot(v, v, d))
  {
    ScaledForm(t, v, v, d);
  }

  /** The ridge the policy asks for: relative ridge times the trace of the centred design over its dimension. */
  function TraceRidge(xs: Mat, d: nat, rho: real): real
    requires Rows(xs, |xs|, d) && |xs| > 0 && d > 0
  {
    Ridge(rho, Energy(Centred(xs, d), d, |xs|), d as real)
  }

  function Ridge(rho: real, energy: real, d: real): real
    requires d != 0.0
  {
    rho * (energy / d)
  }

  lemma MeanMoves(v: Vec, s: real, z: Vec)
    requires |z| == |v| > 0 && forall i | 0 <= i < |v| :: z[i] == v[i] + s
    ensures Mean(z) == Mean(v) + s
  {
    var n, ones := |v|, Ones(|v|);
    DotAddScaled(v, s, ones, ones, n);
    CountOnes(n, n);
    RepeatedIs(s, n);
    DotSame(z, ones, AddScaled(v, s, ones), ones, n);
    TimesCount(v, Mean(v));
    TimesCount(z, Mean(z));
    MoveCount(Mean(z), Mean(v), s, n, Dot(v, ones, n));
  }

  lemma MoveCount(a: real, m: real, s: real, n: nat, total: real)
    requires n > 0 && Repeated(a, n) == total + Repeated(s, n) && Repeated(m, n) == total
    ensures a == m + s
  {
    RepeatedAdd(m, s, n);
    CancelCount(a, m + s, n);
  }

  lemma RepeatedAdd(x: real, y: real, n: nat)
    ensures Repeated(x + y, n) == Repeated(x, n) + Repeated(y, n)
  {
  }

  lemma CancelCount(a: real, b: real, n: nat)
    requires n > 0 && Repeated(a, n) == Repeated(b, n)
    ensures a == b
  {
    var d := a - b;
    assert d * n as real == 0.0;
  }

  lemma MeanScales(v: Vec, k: real, z: Vec)
    requires |z| == |v| > 0 && forall i | 0 <= i < |v| :: z[i] == k * v[i]
    ensures Mean(z) == k * Mean(v)
  {
    var n, ones := |v|, Ones(|v|);
    assert z == Scaled(k, v);
    DotScaled(k, v, ones, n);
    TimesCount(v, Mean(v));
    TimesCount(z, Mean(z));
    ScaleCount(Mean(z), Mean(v), k, n, Dot(v, ones, n));
  }

  lemma ScaleCount(a: real, b: real, k: real, n: nat, s: real)
    requires n > 0 && Repeated(a, n) == Mul(k, s) && Repeated(b, n) == s
    ensures a == k * b
  {
    RepeatedMul(k, b, n);
    CancelCount(a, k * b, n);
  }

  lemma RepeatedMul(k: real, b: real, n: nat)
    ensures Repeated(k * b, n) == Mul(k, Repeated(b, n))
  {
  }

  /** Moving the sources does not change the centred ones. */
  lemma MovedCentred(xs: Mat, d: nat, s: Vec)
    requires Rows(xs, |xs|, d) && |xs| > 0 && |s| == d
    ensures Centred(Moved(xs, d, s), d) == Centred(xs, d)
  {
    var xs' := Moved(xs, d, s);
    forall j | 0 <= j < d
      ensures Means(xs', d)[j] == Means(xs, d)[j] + s[j]
    {
      MeanMoves(Column(xs, d, j), s[j], Column(xs', d, j));
    }
    forall r | 0 <= r < |xs|
      ensures Centred(xs', d)[r] == Centred(xs, d)[r]
    {
      assert forall j | 0 <= j < d :: Centred(xs', d)[r][j] == Centred(xs, d)[r][j];
    }
  }

  /** Stretching the sources stretches the centred ones. */
  lemma StretchedCentred(xs: Mat, d: nat, k: real, r: nat)
    requires Rows(xs, |xs|, d) && r < |xs|
    ensures Centred(Stretched(xs, d, k), d)[r] == Scaled(k, Centred(xs, d)[r])
  {
    var xs' := Stretched(xs, d, k);
    forall j | 0 <= j < d
      ensures Means(xs', d)[j] == k * Means(xs, d)[j]
    {
      MeanScales(Column(xs, d, j), k, Column(xs', d, j));
    }
    forall j | 0 <= j < d
      ensures Centred(xs', d)[r][j] == Scaled(k, Centred(xs, d)[r])[j]
    {
      DifferenceScales(k, xs[r][j], Means(xs, d)[j]);
    }
  }

  lemma DifferenceScales(k: real, x: real, m: real)
    ensures k * x - k * m == k * (x - m)
  {
  }

  lemma MovedRidge(xs: Mat, d: nat, rho: real, s: Vec)
    requires Rows(xs, |xs|, d) && |xs| > 0 && d > 0 && |s| == d
    ensures TraceRidge(Moved(xs, d, s), d, rho) == TraceRidge(xs, d, rho)
  {
    MovedCentred(xs, d, s);
  }

  lemma StretchedEnergy(xs: Mat, d: nat, k: real)
    requires Rows(xs, |xs|, d) && |xs| > 0
    ensures Energy(Centred(Stretched(xs, d, k), d), d, |xs|) == Twice(k, Energy(Centred(xs, d), d, |xs|))
  {
    forall r | 0 <= r < |xs|
      ensures Centred(Stretched(xs, d, k), d)[r] == Scaled(k, Centred(xs, d)[r])
    {
      StretchedCentred(xs, d, k, r);
    }
    EnergyScales(Centred(xs, d), Centred(Stretched(xs, d, k), d), d, k, |xs|);
  }

  lemma StretchedRidge(xs: Mat, d: nat, rho: real, k: real, zs: Mat, r: real, r': real)
    requires Rows(xs, |xs|, d) && |xs| > 0 && d > 0 && zs == Stretched(xs, d, k)
    requires r == TraceRidge(xs, d, rho) && r' == TraceRidge(zs, d, rho)
    ensures r' == r * (k * k)
  {
    var e, e' := Energy(Centred(xs, d), d, |xs|), Energy(Centred(zs, d), d, |zs|);
    StretchedEnergy(xs, d, k);
    RidgeOf(xs, d, rho, e);
    RidgeOf(zs, d, rho, e');
    RidgesScale(rho, k, e, e', d as real, r, r');
  }

  lemma RidgesScale(rho: real, k: real, e: real, e': real, d: real, r: real, r': real)
    requires d > 0.0 && e' == Twice(k, e)
    requires r == Ridge(rho, e, d) && r' == Ridge(rho, e', d)
    ensures r' == r * (k * k)
  {
    RidgeScales(rho, k, e, e', d);
  }

  lemma RidgeOf(xs: Mat, d: nat, rho: real, e: real)
    requires Rows(xs, |xs|, d) && |xs| > 0 && d > 0 && e == Energy(Centred(xs, d), d, |xs|)
    ensures TraceRidge(xs, d, rho) == Ridge(rho, e, d as real)
  {
  }

  lemma RidgeScales(rho: real, k: real, e: real, e': real, d: real)
    requires d > 0.0 && e' == Twice(k, e)
    ensures Ridge(rho, e', d) == Ridge(rho, e, d) * (k * k)
  {
    var q, q' := e / d, e' / d;
    assert q * d == e && q' * d == e';
    assert ((k * k) * q) * d == e';
    SameFactor(q', (k * k) * q, d);
    Reorder(rho, k * k, q);
  }

  lemma SameFactor(x: real, y: real, d: real)
    requires d > 0.0 && x * d == y * d
    ensures x == y
  {
    assert (x - y) * d == 0.0;
  }

  lemma Reorder(rho: real, s: real, q: real)
    ensures rho * (s * q) == rho * q * s
  {
  }

  function Predicts(w: Vec, b: real, x: Vec): real
    requires |x| == |w|
  {
    Dot(x, w, |w|) + b
  }

  /** Moving all sources by `s` and all targets by `t` moves every prediction with them. */
  lemma ShiftEquivariance(xs: Mat, d: nat, y: Vec, rho: real, s: Vec, t: real, w: Vec, b: real, w': Vec, b': real,
      x: Vec)
    requires Shaped(xs, d, y) && d > 0 && |s| == |x| == d
    requires IsBest(xs, d, y, TraceRidge(xs, d, rho), w, b)
    requires IsBest(Moved(xs, d, s), d, Raised(y, t), TraceRidge(Moved(xs, d, s), d, rho), w', b')
    ensures Predicts(w', b', Add(x, s)) == Predicts(w, b, x) + t
  {
    var c := b - Dot(s, w, d) + t;
    MovedRidge(xs, d, rho, s);
    MovedBest(xs, d, y, TraceRidge(xs, d, rho), s, t, w, b, c);
    BestUnique(Moved(xs, d, s), d, Raised(y, t), TraceRidge(xs, d, rho), w', b', w, c);
    MovedPrediction(w, b, c, s, t, x);
  }

  lemma MovedPrediction(w: Vec, b: real, c: real, s: Vec, t: real, x: Vec)
    requires |s| == |x| == |w| && c == b - Dot(s, w, |w|) + t
    ensures Predicts(w, c, Add(x, s)) == Predicts(w, b, x) + t
  {
    DotAdd(x, s, w, |w|);
  }

  /** Stretching all sources by any nonzero factor leaves every prediction where it was. */
  lemma ScaleEquivariance(xs: Mat, d: nat, y: Vec, rho: real, k: real, w: Vec, b: real, w': Vec, b': real, x: Vec)
    requires Shaped(xs, d, y) && d > 0 && k != 0.0 && |x| == d
    requires IsBest(xs, d, y, TraceRidge(xs, d, rho), w, b)
    requires IsBest(Stretched(xs, d, k), d, y, TraceRidge(Stretched(xs, d, k), d, rho), w', b')
    ensures Predicts(w', b', Scaled(k, x)) == Predicts(w, b, x)
  {
    var v := Scaled(1.0 / k, w);
    Unscaled(k, w);
    var zs := Stretched(xs, d, k);
    var r, r' := TraceRidge(xs, d, rho), TraceRidge(zs, d, rho);
    StretchedRidge(xs, d, rho, k, zs, r, r');
    StretchedBest(xs, d, y, r, k, v, b, r');
    BestUnique(zs, d, y, r', w', b', v, b);
    DotScaled(k, x, v, d);
    DotScaled(k, v, x, d);
  }

  lemma Unscaled(k: real, w: Vec)
    requires k != 0.0
    ensures Scaled(k, Scaled(1.0 / k, w)) == w
  {
    forall i | 0 <= i < |w|
      ensures Scaled(k, Scaled(1.0 / k, w))[i] == w[i]
    {
      InverseTimes(k, w[i]);
    }
  }

  lemma InverseTimes(k: real, x: real)
    requires k != 0.0
    ensures k * (1.0 / k * x) == x
  {
    var r := 1.0 / k;
    assert r * k == 1.0;
    assert k * (r * x) == (r * k) * x;
  }
}
