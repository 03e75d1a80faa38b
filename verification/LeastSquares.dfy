/** Weighted least squares: the normal equations characterise the minimiser. */
module LeastSquares {
  import opened Prelude
  import opened Vectors

  /** A weighted linear fit of `n` unknowns: rows `xs`, weights `ws`, targets `ys`. */
  datatype Fit = Fit(n: nat, xs: Mat, ws: Vec, ys: Vec) {
    predicate Valid() {
      Rows(xs, |xs|, n) && |ws| == |ys| == |xs|
    }

    /** The columns of the design. */
    ghost function Columns(): (t: Mat)
      requires Valid()
      ensures IsTranspose(t, xs, |xs|, n)
    {
      Transpose(xs, |xs|, n)
    }

    function Predict(x: Vec): (p: Vec)
      requires Valid() && |x| == n
      ensures |p| == |xs| && forall r | 0 <= r < |xs| :: p[r] == Dot(xs[r], x, n)
    {
      MatVec(xs, x)
    }

    /** The misfit of each row. */
    function Residual(x: Vec): (r: Vec)
      requires Valid() && |x| == n
      ensures |r| == |xs|
    {
      Sub(Predict(x), ys)
    }

    /** The weighted squared misfit. */
    function Misfit(x: Vec): real
      requires Valid() && |x| == n
    {
      Dot(Residual(x), Weighted(ws, Residual(x)), |xs|)
    }
  }

  /** `a x = b` is the normal system: entry (i, j) is the weighted product of columns i and j, and b is
      the weighted product of each column with the targets. */
  ghost predicate IsNormal(f: Fit, a: Mat, b: Vec)
    requires f.Valid()
  {
    && Rows(a, f.n, f.n) && |b| == f.n
    && (forall i, j | 0 <= i < f.n && 0 <= j < f.n ::
          a[i][j] == Dot(f.Columns()[i], Weighted(f.ws, f.Columns()[j]), |f.xs|))
    && (forall i | 0 <= i < f.n :: b[i] == Dot(f.Columns()[i], Weighted(f.ws, f.ys), |f.xs|))
  }

  /** Testing against every column and then against `h` is testing against the prediction of `h`. */
  lemma PredictionTest(f: Fit, v: Vec, h: Vec)
    requires f.Valid() && |h| == f.n && |v| == |f.xs|
    ensures Dot(h, MatVec(f.Columns(), v), f.n) == Dot(f.Predict(h), v, |f.xs|)
  {
    TransposeForm(f.xs, f.Columns(), |f.xs|, f.n, v, h);
    DotComm(v, MatVec(f.xs, h), |f.xs|);
  }

  lemma NormalRow(f: Fit, a: Mat, b: Vec, i: nat)
    requires f.Valid() && IsNormal(f, a, b) && i < f.n
    ensures a[i] == MatVec(f.Columns(), Weighted(f.ws, f.Columns()[i]))
  {
    var t := f.Columns();
    forall j | 0 <= j < f.n
      ensures a[i][j] == MatVec(t, Weighted(f.ws, t[i]))[j]
    {
      DotWeighted(f.ws, t[i], t[j], |f.xs|);
    }
  }

  lemma NormalEntry(f: Fit, a: Mat, b: Vec, x: Vec, i: nat)
    requires f.Valid() && IsNormal(f, a, b) && |x| == f.n && i < f.n
    ensures Dot(a[i], x, f.n) == Dot(f.Columns()[i], Weighted(f.ws, f.Predict(x)), |f.xs|)
  {
    var c := f.Columns()[i];
    NormalRow(f, a, b, i);
    DotComm(a[i], x, f.n);
    PredictionTest(f, Weighted(f.ws, c), x);
    DotWeighted(f.ws, f.Predict(x), c, |f.xs|);
  }

  /** The normal matrix applied to `x`: predict, weight, and test against every column. */
  lemma NormalMatVec(f: Fit, a: Mat, b: Vec, x: Vec)
    requires f.Valid() && IsNormal(f, a, b) && |x| == f.n
    ensures MatVec(a, x) == MatVec(f.Columns(), Weighted(f.ws, f.Predict(x)))
  {
    forall i | 0 <= i < f.n
      ensures MatVec(a, x)[i] == MatVec(f.Columns(), Weighted(f.ws, f.Predict(x)))[i]
    {
      NormalEntry(f, a, b, x, i);
    }
  }

  /** The normal matrix and the right side, seen by any direction `h`. */
  lemma NormalForm(f: Fit, a: Mat, b: Vec, h: Vec, x: Vec)
    requires f.Valid() && IsNormal(f, a, b) && |h| == |x| == f.n
    ensures Dot(h, MatVec(a, x), f.n) == Dot(f.Predict(h), Weighted(f.ws, f.Predict(x)), |f.xs|)
    ensures Dot(h, b, f.n) == Dot(f.Predict(h), Weighted(f.ws, f.ys), |f.xs|)
  {
    NormalMatVec(f, a, b, x);
    PredictionTest(f, Weighted(f.ws, f.Predict(x)), h);
    assert b == MatVec(f.Columns(), Weighted(f.ws, f.ys));
    PredictionTest(f, Weighted(f.ws, f.ys), h);
  }

  /** A weighted square along r + e. */
  lemma WeightedShift(w: Vec, r: Vec, e: Vec, m: nat)
    requires |w| == |r| == |e| == m
    ensures Dot(Add(r, e), Weighted(w, Add(r, e)), m)
         == Dot(r, Weighted(w, r), m) + 2.0 * Dot(e, Weighted(w, r), m) + Dot(e, Weighted(w, e), m)
  {
    WeightedAdd(w, r, e);
    DotAdd(r, e, Add(Weighted(w, r), Weighted(w, e)), m);
    DotAdd(Weighted(w, r), Weighted(w, e), r, m);
    DotAdd(Weighted(w, r), Weighted(w, e), e, m);
    DotWeighted(w, r, e, m);
  }

  lemma ResidualShift(f: Fit, x: Vec, h: Vec)
    requires f.Valid() && |x| == |h| == f.n
    ensures f.Residual(Add(x, h)) == Add(f.Residual(x), f.Predict(h))
  {
    MatVecAdd(f.xs, x, h);
  }

  /** At a solution the weighted residual is orthogonal to every prediction. */
  lemma Stationary(f: Fit, a: Mat, b: Vec, x: Vec, h: Vec)
    requires f.Valid() && IsNormal(f, a, b) && |x| == |h| == f.n && MatVec(a, x) == b
    ensures Dot(f.Predict(h), Weighted(f.ws, f.Residual(x)), |f.xs|) == 0.0
  {
    NormalForm(f, a, b, h, x);
    WeightedAdd(f.ws, f.Predict(x), f.ys);
    DotSub(Weighted(f.ws, f.Predict(x)), Weighted(f.ws, f.ys), f.Predict(h), |f.xs|);
  }

  /** How far any other point lies above a solution of the normal system. */
  lemma MisfitShift(f: Fit, a: Mat, b: Vec, x: Vec, h: Vec)
    requires f.Valid() && IsNormal(f, a, b) && |x| == |h| == f.n && MatVec(a, x) == b
    ensures f.Misfit(Add(x, h)) == f.Misfit(x) + Quad(a, f.n, h)
  {
    ResidualShift(f, x, h);
    WeightedShift(f.ws, f.Residual(x), f.Predict(h), |f.xs|);
    Stationary(f, a, b, x, h);
    NormalForm(f, a, b, h, h);
  }

  ghost predicate PositiveDefinite(a: Mat, n: nat) {
    Symmetric(a, n) && forall h: Vec {:trigger Quad(a, n, h)} | |h| == n && h != Zeros(n) :: Quad(a, n, h) > 0.0
  }

  /** No negative weight. */
  ghost predicate Convex(f: Fit) {
    f.Valid() && forall r | 0 <= r < |f.ws| :: f.ws[r] >= 0.0
  }

  lemma QuadNonneg(f: Fit, a: Mat, b: Vec, h: Vec)
    requires Convex(f) && IsNormal(f, a, b) && |h| == f.n
    ensures Quad(a, f.n, h) >= 0.0
  {
    NormalForm(f, a, b, h, h);
    WeightedNonneg(f.ws, f.Predict(h), |f.xs|);
  }

  /** Every point is a solution plus the difference to it. */
  lemma Difference(x: Vec, z: Vec)
    requires |x| == |z|
    ensures Add(x, Sub(z, x)) == z
    ensures z != x ==> Sub(z, x) != Zeros(|x|)
  {
    var h := Sub(z, x);
    if i :| 0 <= i < |x| && z[i] != x[i] {
      assert h[i] != 0.0;
    }
  }

  /** A solution of the normal system minimises the misfit; when the matrix is positive definite it is
      the only minimiser. */
  lemma SolutionMinimises(f: Fit, a: Mat, b: Vec, x: Vec, z: Vec)
    requires Convex(f) && IsNormal(f, a, b) && |x| == |z| == f.n && MatVec(a, x) == b
    ensures f.Misfit(x) <= f.Misfit(z)
    ensures PositiveDefinite(a, f.n) && z != x ==> f.Misfit(x) < f.Misfit(z)
  {
    var h := Sub(z, x);
    Difference(x, z);
    MisfitShift(f, a, b, x, h);
    QuadNonneg(f, a, b, h);
  }

  lemma NormalIsSymmetric(f: Fit, a: Mat, b: Vec)
    requires f.Valid() && IsNormal(f, a, b)
    ensures Symmetric(a, f.n)
  {
    forall i, j | 0 <= i < f.n && 0 <= j < f.n
      ensures a[i][j] == a[j][i]
    {
      DotWeighted(f.ws, f.Columns()[i], f.Columns()[j], |f.xs|);
    }
  }

  /** With positive weights the matrix is positive definite exactly when only zero predicts zero. */
  lemma DefiniteIffInjective(f: Fit, a: Mat, b: Vec)
    requires f.Valid() && IsNormal(f, a, b) && forall r | 0 <= r < |f.ws| :: f.ws[r] > 0.0
    ensures PositiveDefinite(a, f.n)
       <==> forall h: Vec {:trigger f.Predict(h)} | |h| == f.n && h != Zeros(f.n) :: f.Predict(h) != Zeros(|f.xs|)
  {
    NormalIsSymmetric(f, a, b);
    forall h: Vec | |h| == f.n
      ensures Quad(a, f.n, h) > 0.0 <==> f.Predict(h) != Zeros(|f.xs|)
    {
      QuadSign(f, a, b, h);
    }
  }

  lemma QuadSign(f: Fit, a: Mat, b: Vec, h: Vec)
    requires f.Valid() && IsNormal(f, a, b) && |h| == f.n && forall r | 0 <= r < |f.ws| :: f.ws[r] > 0.0
    ensures Quad(a, f.n, h) > 0.0 <==> f.Predict(h) != Zeros(|f.xs|)
  {
    var p := f.Predict(h);
    NormalForm(f, a, b, h, h);
    if p == Zeros(|f.xs|) {
      DotZero(p, Weighted(f.ws, p), |f.xs|);
    } else {
      var i :| 0 <= i < |f.xs| && p[i] != 0.0;
      WeightedPositive(f.ws, p, |f.xs|, i);
    }
  }
}
