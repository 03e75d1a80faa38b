/** Least squares with a ridge: one more row per unknown, pulling it to zero. */
module RidgeFit {
  import opened Prelude
  import opened Vectors
  import opened LeastSquares

  /** The rows of the identity. */
  function Identity(n: nat): (r: Mat)
    ensures Rows(r, n, n) && forall i | 0 <= i < n :: r[i] == Unit(n, i)
  {
    seq(n, i requires 0 <= i < n => Unit(n, i))
  }

  function Constant(n: nat, c: real): (v: Vec)
    ensures |v| == n && forall i | 0 <= i < n :: v[i] == c
  {
    seq(n, _ => c)
  }

  /** The fit with one more row per unknown, pulling it to zero with weight `mu`. */
  function Ridged(f: Fit, mu: real): (r: Fit)
    requires f.Valid()
    ensures r.Valid() && r.n == f.n && |r.xs| == |f.xs| + f.n
  {
    Fit(f.n, f.xs + Identity(f.n), f.ws + Constant(f.n, mu), f.ys + Zeros(f.n))
  }

  // ----- the ridge rows

  lemma RidgedColumn(f: Fit, mu: real, i: nat)
    requires f.Valid() && i < f.n
    ensures Ridged(f, mu).Columns()[i] == f.Columns()[i] + Unit(f.n, i)
  {
    var r := Ridged(f, mu);
    forall k | 0 <= k < |r.xs|
      ensures r.Columns()[i][k] == (f.Columns()[i] + Unit(f.n, i))[k]
    {
      assert r.Columns()[i][k] == r.xs[k][i];
    }
  }

  lemma UnitProduct(n: nat, mu: real, i: nat, j: nat)
    requires i < n && j < n
    ensures Dot(Unit(n, i), Weighted(Constant(n, mu), Unit(n, j)), n) == if i == j then mu else 0.0
  {
    DotUnit(Weighted(Constant(n, mu), Unit(n, j)), n, i, n);
  }

  /** The ridge rows add `mu` on the diagonal and nothing elsewhere. */
  lemma RidgeEntry(f: Fit, mu: real, i: nat, j: nat)
    requires f.Valid() && i < f.n && j < f.n
    ensures Dot(Ridged(f, mu).Columns()[i], Weighted(Ridged(f, mu).ws, Ridged(f, mu).Columns()[j]), |f.xs| + f.n)
         == Dot(f.Columns()[i], Weighted(f.ws, f.Columns()[j]), |f.xs|) + if i == j then mu else 0.0
  {
    var t := f.Columns();
    RidgedColumn(f, mu, i);
    RidgedColumn(f, mu, j);
    WeightedConcat(f.ws, Constant(f.n, mu), t[j], Unit(f.n, j));
    DotConcat(t[i], Unit(f.n, i), Weighted(f.ws, t[j]), Weighted(Constant(f.n, mu), Unit(f.n, j)), f.n);
    UnitProduct(f.n, mu, i, j);
  }

  lemma RidgeRhs(f: Fit, mu: real, i: nat)
    requires f.Valid() && i < f.n
    ensures Dot(Ridged(f, mu).Columns()[i], Weighted(Ridged(f, mu).ws, Ridged(f, mu).ys), |f.xs| + f.n)
         == Dot(f.Columns()[i], Weighted(f.ws, f.ys), |f.xs|)
  {
    var z := Weighted(Constant(f.n, mu), Zeros(f.n));
    RidgedColumn(f, mu, i);
    WeightedConcat(f.ws, Constant(f.n, mu), f.ys, Zeros(f.n));
    DotConcat(f.Columns()[i], Unit(f.n, i), Weighted(f.ws, f.ys), z, f.n);
    DotZero(Unit(f.n, i), z, f.n);
  }

  /** The assembled system: weighted column products, ridge on the diagonal. */
  ghost predicate Assembled(f: Fit, mu: real, a: Mat, b: Vec)
    requires f.Valid()
  {
    && Rows(a, f.n, f.n) && |b| == f.n
    && (forall i, j | 0 <= i < f.n && 0 <= j < f.n ::
          a[i][j] == Dot(f.Columns()[i], Weighted(f.ws, f.Columns()[j]), |f.xs|) + if i == j then mu else 0.0)
    && (forall i | 0 <= i < f.n :: b[i] == Dot(f.Columns()[i], Weighted(f.ws, f.ys), |f.xs|))
  }

  /** The assembled system is the normal system of the ridged fit. */
  lemma AssembledIsNormal(f: Fit, mu: real, a: Mat, b: Vec)
    requires f.Valid() && Assembled(f, mu, a, b)
    ensures IsNormal(Ridged(f, mu), a, b)
    ensures mu == 0.0 ==> IsNormal(f, a, b)
  {
    RidgedMatrixIs(f, mu, a, b, Ridged(f, mu));
    RidgedRhsIs(f, mu, a, b, Ridged(f, mu));
  }

  lemma RidgedMatrixIs(f: Fit, mu: real, a: Mat, b: Vec, r: Fit)
    requires f.Valid() && Assembled(f, mu, a, b) && r == Ridged(f, mu)
    ensures forall i, j | 0 <= i < f.n && 0 <= j < f.n ::
              a[i][j] == Dot(r.Columns()[i], Weighted(r.ws, r.Columns()[j]), |r.xs|)
  {
    forall i, j | 0 <= i < f.n && 0 <= j < f.n
      ensures a[i][j] == Dot(r.Columns()[i], Weighted(r.ws, r.Columns()[j]), |r.xs|)
    {
      RidgedEntryIs(f, mu, a, b, r, i, j);
    }
  }

  lemma RidgedRhsIs(f: Fit, mu: real, a: Mat, b: Vec, r: Fit)
    requires f.Valid() && Assembled(f, mu, a, b) && r == Ridged(f, mu)
    ensures forall i | 0 <= i < f.n :: b[i] == Dot(r.Columns()[i], Weighted(r.ws, r.ys), |r.xs|)
  {
    forall i | 0 <= i < f.n
      ensures b[i] == Dot(r.Columns()[i], Weighted(r.ws, r.ys), |r.xs|)
    {
      RidgeRhs(f, mu, i);
    }
  }

  lemma RidgedEntryIs(f: Fit, mu: real, a: Mat, b: Vec, r: Fit, i: nat, j: nat)
    requires f.Valid() && Assembled(f, mu, a, b) && r == Ridged(f, mu) && i < f.n && j < f.n
    ensures a[i][j] == Dot(r.Columns()[i], Weighted(r.ws, r.Columns()[j]), |f.xs| + f.n)
  {
    RidgeEntry(f, mu, i, j);
  }

  lemma RidgedDefinite(f: Fit, mu: real, a: Mat, b: Vec)
    requires f.Valid() && mu > 0.0 && IsNormal(Ridged(f, mu), a, b)
    requires forall k | 0 <= k < |f.ws| :: f.ws[k] > 0.0
    ensures PositiveDefinite(a, f.n)
  {
    var r := Ridged(f, mu);
    assert forall k | 0 <= k < |r.ws| :: r.ws[k] > 0.0;
    forall h: Vec | |h| == f.n && h != Zeros(f.n)
      ensures r.Predict(h) != Zeros(|r.xs|)
    {
      var i :| 0 <= i < f.n && h[i] != 0.0;
      DotUnit(h, f.n, i, f.n);
      assert r.Predict(h)[|f.xs| + i] == h[i];
    }
    DefiniteIffInjective(r, a, b);
  }

  lemma RidgedResidual(f: Fit, mu: real, x: Vec)
    requires f.Valid() && |x| == f.n
    ensures Ridged(f, mu).Residual(x) == f.Residual(x) + x
  {
    var r := Ridged(f, mu);
    forall k | 0 <= k < |r.xs|
      ensures r.Residual(x)[k] == (f.Residual(x) + x)[k]
    {
      if k >= |f.xs| {
        DotUnit(x, f.n, k - |f.xs|, f.n);
        assert r.xs[k] == Unit(f.n, k - |f.xs|);
      }
    }
  }

  lemma PenaltyTerm(n: nat, mu: real, x: Vec)
    requires |x| == n
    ensures Dot(x, Weighted(Constant(n, mu), x), n) == Mul(mu, Dot(x, x, n))
  {
    ConstantWeights(n, mu, x);
    DotScaled(mu, x, x, n);
  }

  lemma ConstantWeights(n: nat, mu: real, x: Vec)
    requires |x| == n
    ensures Weighted(Constant(n, mu), x) == Scaled(mu, x)
  {
    var w, z := Weighted(Constant(n, mu), x), Scaled(mu, x);
    forall i | 0 <= i < n
      ensures w[i] == z[i]
    {
      assert Constant(n, mu)[i] == mu;
    }
  }

  lemma SplitSquares(w: Vec, v: Vec, r: Vec, x: Vec)
    requires |w| == |r| && |v| == |x|
    ensures Dot(r + x, Weighted(w + v, r + x), |r| + |x|)
         == Dot(r, Weighted(w, r), |r|) + Dot(x, Weighted(v, x), |x|)
  {
    WeightedConcat(w, v, r, x);
    DotConcat(r, x, Weighted(w, r), Weighted(v, x), |x|);
  }

  /** The squares of the ridged fit, with its residual and its weights named. */
  lemma RidgedSquares(f: Fit, mu: real, x: Vec, g: Fit, r: Vec, w: Vec)
    requires f.Valid() && |x| == f.n && g == Ridged(f, mu) && r == f.Residual(x) + x && w == f.ws + Constant(f.n, mu)
    ensures g.Misfit(x) == Dot(r, Weighted(w, r), |f.xs| + f.n)
  {
    RidgedResidual(f, mu, x);
    MisfitOf(g, x, r, w, |f.xs| + f.n);
  }

  lemma MisfitOf(f: Fit, x: Vec, r: Vec, w: Vec, m: nat)
    requires f.Valid() && |x| == f.n && r == f.Residual(x) && w == f.ws && m == |f.xs|
    ensures f.Misfit(x) == Dot(r, Weighted(w, r), m)
  {
  }

  lemma SplitPenalty(w: Vec, mu: real, r: Vec, x: Vec)
    requires |w| == |r|
    ensures Dot(r + x, Weighted(w + Constant(|x|, mu), r + x), |r| + |x|)
         == Dot(r, Weighted(w, r), |r|) + Mul(mu, Dot(x, x, |x|))
  {
    SplitSquares(w, Constant(|x|, mu), r, x);
    PenaltyTerm(|x|, mu, x);
  }

  lemma PenaltyApart(f: Fit, mu: real, x: Vec, r: Vec, total: real)
    requires f.Valid() && |x| == f.n && r == f.Residual(x)
    requires total == Dot(r + x, Weighted(f.ws + Constant(f.n, mu), r + x), |f.xs| + f.n)
    ensures total == f.Misfit(x) + Mul(mu, Dot(x, x, f.n))
  {
    SplitPenalty(f.ws, mu, r, x);
  }

  lemma RidgedMisfit(f: Fit, mu: real, x: Vec)
    requires f.Valid() && |x| == f.n
    ensures Ridged(f, mu).Misfit(x) == f.Misfit(x) + Mul(mu, Dot(x, x, f.n))
  {
    RidgedSquares(f, mu, x, Ridged(f, mu), f.Residual(x) + x, f.ws + Constant(f.n, mu));
    PenaltyApart(f, mu, x, f.Residual(x), Ridged(f, mu).Misfit(x));
  }

  // ----- the linear solver

  type Solver = (Mat, Vec) -> Result<Vec>

  /** What the linear solver promises when it succeeds. */
  ghost predicate SolvesExactly(solve: Solver) {
    forall a, b {:trigger solve(a, b)} ::
      solve(a, b).Ok? && Rows(a, |b|, |b|) ==> |solve(a, b).value| == |b| && MatVec(a, solve(a, b).value) == b
  }
}
