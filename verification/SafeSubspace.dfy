/** Projection off a set of directions, orthogonally in a diagonal metric that may have zeros. */
module SafeSubspace {
  import opened Prelude
  import opened Vectors
  import opened LeastSquares
  import opened Spectral

  /** Inner product weighted by the metric. */
  function Wdot(a: Vec, b: Vec, w: Vec): real
    requires |a| == |b| == |w|
  {
    Dot(a, Weighted(w, b), |a|)
  }

  lemma WdotComm(a: Vec, b: Vec, w: Vec)
    requires |a| == |b| == |w|
    ensures Wdot(a, b, w) == Wdot(b, a, w)
  {
    DotWeighted(w, a, b, |a|);
  }

  /** Directions of the right length and a metric without negative weights. */
  predicate Frame(us: Mat, w: Vec) {
    Rows(us, |us|, |w|) && forall k | 0 <= k < |w| :: w[k] >= 0.0
  }

  ghost predicate IsGram(g: Mat, us: Mat, w: Vec)
    requires Frame(us, w)
  {
    Rows(g, |us|, |us|) && forall i, j | 0 <= i < |us| && 0 <= j < |us| :: g[i][j] == Wdot(us[i], us[j], w)
  }

  function Measured(us: Mat, w: Vec, b: Vec): (r: Vec)
    requires Frame(us, w) && |b| == |w|
    ensures |r| == |us| && forall i | 0 <= i < |us| :: r[i] == Wdot(us[i], b, w)
  {
    seq(|us|, i requires 0 <= i < |us| => Wdot(us[i], b, w))
  }

  /** Fitting `b` by the directions: the fit whose normal matrix is the Gram matrix. */
  ghost function SpanFit(us: Mat, w: Vec, b: Vec): (f: Fit)
    requires Frame(us, w) && |b| == |w|
    ensures f.Valid() && f.n == |us| && f.ws == w && f.ys == b && |f.xs| == |w|
    ensures f.Columns() == us
  {
    var t := Transpose(us, |us|, |w|);
    var f := Fit(|us|, t, w, b);
    TransposeTwice(us, |us|, |w|, t, f.Columns());
    f
  }

  lemma TransposeTwice(a: Mat, m: nat, n: nat, t: Mat, c: Mat)
    requires IsTranspose(t, a, m, n) && IsTranspose(c, t, n, m)
    ensures c == a
  {
    forall i | 0 <= i < m
      ensures c[i] == a[i]
    {
      forall j | 0 <= j < n
        ensures c[i][j] == a[i][j]
      {
        assert t[j][i] == a[i][j];
      }
    }
  }

  lemma GramIsNormal(g: Mat, us: Mat, w: Vec, b: Vec)
    requires Frame(us, w) && |b| == |w| && IsGram(g, us, w)
    ensures IsNormal(SpanFit(us, w, b), g, Measured(us, w, b))
  {
  }

  /** What is left of `b` after removing the combination `c` of the directions. */
  ghost function Remainder(us: Mat, w: Vec, b: Vec, c: Vec): (x: Vec)
    requires Frame(us, w) && |b| == |w| && |c| == |us|
    ensures |x| == |b|
  {
    Sub(b, SpanFit(us, w, b).Predict(c))
  }

  /** What each direction still sees of the remainder. */
  lemma Seen(g: Mat, us: Mat, w: Vec, b: Vec, c: Vec, j: nat)
    requires Frame(us, w) && |b| == |w| && |c| == |us| && IsGram(g, us, w) && j < |us|
    ensures Wdot(us[j], Remainder(us, w, b, c), w) == Measured(us, w, b)[j] - MatVec(g, c)[j]
  {
    var f := SpanFit(us, w, b);
    GramIsNormal(g, us, w, b);
    NormalEntry(f, g, Measured(us, w, b), c, j);
    WeightedAdd(w, b, f.Predict(c));
    DotSub(Weighted(w, b), Weighted(w, f.Predict(c)), us[j], |w|);
  }

  /** The remainder is orthogonal to every direction exactly when the coefficients solve the Gram system. */
  lemma OrthogonalIffSolved(g: Mat, us: Mat, w: Vec, b: Vec, c: Vec)
    requires Frame(us, w) && |b| == |w| && |c| == |us| && IsGram(g, us, w)
    ensures (forall j | 0 <= j < |us| :: Wdot(us[j], Remainder(us, w, b, c), w) == 0.0)
       <==> MatVec(g, c) == Measured(us, w, b)
  {
    forall j | 0 <= j < |us|
      ensures Wdot(us[j], Remainder(us, w, b, c), w) == Measured(us, w, b)[j] - MatVec(g, c)[j]
    {
      Seen(g, us, w, b, c, j);
    }
  }

  // ----- eigenvalues of the Gram matrix

  lemma {:induction false} VanishingEnergy(w: Vec, p: Vec, k: nat, i: nat)
    requires |w| == |p| && i < k <= |p| && (forall j | 0 <= j < |w| :: w[j] >= 0.0)
    requires Dot(p, Weighted(w, p), k) == 0.0
    ensures w[i] * p[i] == 0.0
  {
    WeightedNonneg(w, p, k - 1);
    var e := p[k-1] * (w[k-1] * p[k-1]);
    WeightedSquare(w[k-1], p[k-1], e);
    if i < k - 1 {
      VanishingEnergy(w, p, k - 1, i);
    } else {
      NoEnergy(w[i], p[i], e);
    }
  }

  lemma NoEnergy(w: real, p: real, e: real)
    requires w >= 0.0 && e == p * (w * p) && e == 0.0
    ensures w * p == 0.0
  {
    WeightedSquare(w, p, e);
  }

  /** The energy of an eigenvector's combination is its eigenvalue, so no eigenvalue is negative. */
  lemma EigenEnergy(g: Mat, us: Mat, w: Vec, b: Vec, sp: Spectrum, e: nat)
    requires Frame(us, w) && |b| == |w| && IsGram(g, us, w) && IsEigenbasis(g, |us|, sp) && e < |us|
    ensures Wdot(SpanFit(us, w, b).Predict(sp.vectors[e]), SpanFit(us, w, b).Predict(sp.vectors[e]), w)
        == sp.values[e] >= 0.0
  {
    var f, v := SpanFit(us, w, b), sp.vectors[e];
    GramIsNormal(g, us, w, b);
    NormalForm(f, g, Measured(us, w, b), v, v);
    DotScaled(sp.values[e], v, v, |us|);
    UnitLength(sp.values[e], Dot(v, v, |us|), Dot(v, Scaled(sp.values[e], v), |us|));
    WeightedNonneg(w, f.Predict(v), |w|);
  }

  lemma UnitLength(lambda: real, d: real, s: real)
    requires d == 1.0 && s == lambda * d
    ensures s == lambda
  {
  }

  /** An eigenvector with eigenvalue zero sees nothing of any vector. */
  lemma NullSeesNothing(g: Mat, us: Mat, w: Vec, b: Vec, sp: Spectrum, e: nat)
    requires Frame(us, w) && |b| == |w| && IsGram(g, us, w) && IsEigenbasis(g, |us|, sp) && e < |us|
    requires sp.values[e] == 0.0
    ensures Dot(sp.vectors[e], Measured(us, w, b), |us|) == 0.0
  {
    var f, v := SpanFit(us, w, b), sp.vectors[e];
    EigenEnergy(g, us, w, b, sp, e);
    GramIsNormal(g, us, w, b);
    NormalForm(f, g, Measured(us, w, b), v, v);
    NoEnergyNoProduct(w, f.Predict(v), b);
  }

  /** A vector without energy is orthogonal to everything. */
  lemma NoEnergyNoProduct(w: Vec, p: Vec, b: Vec)
    requires |p| == |b| == |w| && (forall j | 0 <= j < |w| :: w[j] >= 0.0) && Wdot(p, p, w) == 0.0
    ensures Wdot(p, b, w) == 0.0
  {
    DotWeighted(w, p, b, |w|);
    forall i | 0 <= i < |w|
      ensures Weighted(w, p)[i] == 0.0
    {
      VanishingEnergy(w, p, |w|, i);
    }
    DotZero(b, Weighted(w, p), |w|);
  }

  /** No eigenvalue is positive yet at most the tolerance. */
  predicate Clean(values: Vec, tolerance: real) {
    forall e | 0 <= e < |values| :: values[e] <= 0.0 || values[e] > tolerance
  }

  /** With a clean spectrum the pseudoinverse solves the Gram system of every `b`, dependent directions or not. */
  lemma CleanSolves(g: Mat, us: Mat, w: Vec, b: Vec, sp: Spectrum, p: Mat, tolerance: real)
    requires Frame(us, w) && |b| == |w| && IsGram(g, us, w) && IsEigenbasis(g, |us|, sp) && tolerance >= 0.0
    requires IsPseudoinverse(p, |us|, sp, tolerance) && Clean(sp.values, tolerance)
    ensures MatVec(g, MatVec(p, Measured(us, w, b))) == Measured(us, w, b)
  {
    forall e | 0 <= e < |us| && sp.values[e] <= tolerance
      ensures Dot(sp.vectors[e], Measured(us, w, b), |us|) == 0.0
    {
      EigenEnergy(g, us, w, b, sp, e);
      NullSeesNothing(g, us, w, b, sp, e);
    }
    PseudoSolves(g, p, |us|, sp, tolerance, Measured(us, w, b));
  }

  /** The projection of `b` with the truncated pseudoinverse `p`. */
  ghost function Project(us: Mat, w: Vec, b: Vec, p: Mat): (x: Vec)
    requires Frame(us, w) && |b| == |w| && Rows(p, |us|, |us|)
    ensures |x| == |b|
  {
    Remainder(us, w, b, MatVec(p, Measured(us, w, b)))
  }

  ghost predicate Orthogonalised(us: Mat, w: Vec, x: Vec)
    requires Frame(us, w) && |x| == |w|
  {
    forall j | 0 <= j < |us| :: Wdot(us[j], x, w) == 0.0
  }

  /** The combination of an eigenvector in the truncated range is not removed at all. */
  lemma DirtySurvives(g: Mat, us: Mat, w: Vec, sp: Spectrum, p: Mat, tolerance: real, e: nat) returns (b: Vec)
    requires Frame(us, w) && IsGram(g, us, w) && IsEigenbasis(g, |us|, sp) && tolerance >= 0.0
    requires IsPseudoinverse(p, |us|, sp, tolerance) && e < |us| && 0.0 < sp.values[e] <= tolerance
    ensures |b| == |w| && !Orthogonalised(us, w, Project(us, w, b, p))
  {
    var m, v := |us|, sp.vectors[e];
    b := SpanFit(us, w, Zeros(|w|)).Predict(v);
    MeasuredEigen(g, us, w, sp, e);
    PseudoDrops(g, p, m, sp, tolerance, e, sp.values[e]);
    var c := MatVec(p, Measured(us, w, b));
    OrthogonalIffSolved(g, us, w, b, c);
    if MatVec(g, c) == Measured(us, w, b) {
      ZeroImage(g, m, c);
      EigenNonzero(sp, m, e);
    }
  }

  lemma ZeroImage(g: Mat, m: nat, c: Vec)
    requires Rows(g, m, m) && c == Zeros(m)
    ensures MatVec(g, c) == Zeros(m)
  {
    forall i | 0 <= i < m
      ensures MatVec(g, c)[i] == 0.0
    {
      DotZero(g[i], c, m);
    }
  }

  lemma EigenNonzero(sp: Spectrum, m: nat, e: nat)
    requires Orthogonal(sp.vectors, m) && |sp.values| == m && e < m && sp.values[e] != 0.0
    ensures Scaled(sp.values[e], sp.vectors[e]) != Zeros(m)
  {
    if Scaled(sp.values[e], sp.vectors[e]) == Zeros(m) {
      forall i | 0 <= i < m
        ensures sp.vectors[e][i] == 0.0
      {
        assert Scaled(sp.values[e], sp.vectors[e])[i] == 0.0;
        NoZeroFactor(sp.values[e], sp.vectors[e][i]);
      }
      DotZero(sp.vectors[e], sp.vectors[e], m);
    }
  }

  lemma NoZeroFactor(x: real, y: real)
    requires x != 0.0 && x * y == 0.0
    ensures y == 0.0
  {
  }

  /** Measuring an eigenvector's combination gives the eigenvector back, scaled by its eigenvalue. */
  lemma MeasuredEigen(g: Mat, us: Mat, w: Vec, sp: Spectrum, e: nat)
    requires Frame(us, w) && IsGram(g, us, w) && IsEigenbasis(g, |us|, sp) && e < |us|
    ensures Measured(us, w, SpanFit(us, w, Zeros(|w|)).Predict(sp.vectors[e])) == Scaled(sp.values[e], sp.vectors[e])
  {
    var f, v := SpanFit(us, w, Zeros(|w|)), sp.vectors[e];
    GramIsNormal(g, us, w, Zeros(|w|));
    forall i | 0 <= i < |us|
      ensures Measured(us, w, f.Predict(v))[i] == Scaled(sp.values[e], v)[i]
    {
      NormalEntry(f, g, Measured(us, w, Zeros(|w|)), v, i);
      assert MatVec(g, v)[i] == Scaled(sp.values[e], v)[i];
    }
  }

  /** The projection of every vector is orthogonal to every direction exactly when no eigenvalue of the Gram matrix
      lies in (0, tolerance]. */
  lemma ExactIffClean(g: Mat, us: Mat, w: Vec, sp: Spectrum, p: Mat, tolerance: real)
    requires Frame(us, w) && IsGram(g, us, w) && IsEigenbasis(g, |us|, sp) && tolerance >= 0.0
    requires IsPseudoinverse(p, |us|, sp, tolerance)
    ensures (forall b: Vec {:trigger Project(us, w, b, p)} | |b| == |w| :: Orthogonalised(us, w, Project(us, w, b, p)))
       <==> Clean(sp.values, tolerance)
  {
    if Clean(sp.values, tolerance) {
      forall b: Vec | |b| == |w|
        ensures Orthogonalised(us, w, Project(us, w, b, p))
      {
        CleanSolves(g, us, w, b, sp, p, tolerance);
        OrthogonalIffSolved(g, us, w, b, MatVec(p, Measured(us, w, b)));
      }
    } else {
      var e: nat :| e < |us| && 0.0 < sp.values[e] <= tolerance;
      var b := DirtySurvives(g, us, w, sp, p, tolerance, e);
    }
  }

  /** Among all vectors that differ from `b` by a combination of the directions, an orthogonal remainder is the
      shortest in the metric. */
  lemma RemainderIsNearest(g: Mat, us: Mat, w: Vec, b: Vec, c: Vec, d: Vec)
    requires Frame(us, w) && |b| == |w| && |c| == |d| == |us| && IsGram(g, us, w)
    requires Orthogonalised(us, w, Remainder(us, w, b, c))
    ensures Wdot(Remainder(us, w, b, c), Remainder(us, w, b, c), w)
         <= Wdot(Remainder(us, w, b, d), Remainder(us, w, b, d), w)
  {
    var f := SpanFit(us, w, b);
    GramIsNormal(g, us, w, b);
    OrthogonalIffSolved(g, us, w, b, c);
    SolutionMinimises(f, g, Measured(us, w, b), c, d);
    MisfitIsEnergy(us, w, b, c);
    MisfitIsEnergy(us, w, b, d);
  }

  lemma MisfitIsEnergy(us: Mat, w: Vec, b: Vec, c: Vec)
    requires Frame(us, w) && |b| == |w| && |c| == |us|
    ensures SpanFit(us, w, b).Misfit(c) == Wdot(Remainder(us, w, b, c), Remainder(us, w, b, c), w)
  {
    var f, x := SpanFit(us, w, b), Remainder(us, w, b, c);
    NegatedSquare(f.Residual(c), x, w, |w|);
  }

  lemma {:induction false} NegatedSquare(r: Vec, x: Vec, w: Vec, k: nat)
    requires |r| == |x| == |w| && k <= |x| && forall i | 0 <= i < |x| :: r[i] == -x[i]
    ensures Dot(r, Weighted(w, r), k) == Dot(x, Weighted(w, x), k)
  {
    if k > 0 {
      NegatedSquare(r, x, w, k - 1);
      NegatedTerm(r[k-1], x[k-1], w[k-1]);
    }
  }

  lemma NegatedTerm(r: real, x: real, w: real)
    requires r == -x
    ensures r * (w * r) == x * (w * x)
  {
  }
}
