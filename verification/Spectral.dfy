/** Symmetric eigenbases and the truncated pseudoinverse built from them. */
module Spectral {
  import opened Prelude
  import opened Vectors
  import opened LeastSquares

  /** Eigenvalues and the matching eigenvectors, one per row. */
  datatype Spectrum = Spectrum(values: Vec, vectors: Mat)

  function Delta(i: int, j: int): real {
    if i == j then 1.0 else 0.0
  }

  /** An orthogonal matrix: its rows are orthonormal and so are its columns. */
  ghost predicate Orthogonal(v: Mat, m: nat) {
    && Rows(v, m, m)
    && (forall e, f | 0 <= e < m && 0 <= f < m :: Dot(v[e], v[f], m) == Delta(e, f))
    && (forall i, j | 0 <= i < m && 0 <= j < m :: Dot(Transpose(v, m, m)[i], Transpose(v, m, m)[j], m) == Delta(i, j))
  }

  /** An orthonormal basis of eigenvectors of `g`. */
  ghost predicate IsEigenbasis(g: Mat, m: nat, sp: Spectrum) {
    && Rows(g, m, m) && |sp.values| == m && Orthogonal(sp.vectors, m)
    && (forall e | 0 <= e < m :: MatVec(g, sp.vectors[e]) == Scaled(sp.values[e], sp.vectors[e]))
  }

  /** The eigenvector combination with coefficients `y`. */
  ghost function Combine(v: Mat, m: nat, y: Vec): (x: Vec)
    requires Rows(v, m, m) && |y| == m
    ensures |x| == m
  {
    MatVec(Transpose(v, m, m), y)
  }

  /** Every vector is the combination of its own coefficients. */
  lemma Resolve(v: Mat, m: nat, r: Vec)
    requires Orthogonal(v, m) && |r| == m
    ensures Combine(v, m, MatVec(v, r)) == r
  {
    var t := Transpose(v, m, m);
    forall i | 0 <= i < m
      ensures Combine(v, m, MatVec(v, r))[i] == r[i]
    {
      TransposeForm(v, t, m, m, t[i], r);
      assert MatVec(t, t[i]) == Unit(m, i);
      DotUnit(r, m, i, m);
    }
  }

  lemma EigenEntry(g: Mat, m: nat, v: Vec, lambda: real, i: nat)
    requires Rows(g, m, m) && |v| == m && i < m && MatVec(g, v) == Scaled(lambda, v)
    ensures Dot(v, g[i], m) == Mul(lambda, v[i])
  {
    DotComm(v, g[i], m);
    assert MatVec(g, v)[i] == Scaled(lambda, v)[i];
  }

  /** Row `i` of the matrix against every eigenvector. */
  lemma EigenColumn(g: Mat, m: nat, sp: Spectrum, i: nat)
    requires IsEigenbasis(g, m, sp) && i < m
    ensures MatVec(sp.vectors, g[i]) == Weighted(sp.values, Transpose(sp.vectors, m, m)[i])
  {
    var row := Transpose(sp.vectors, m, m)[i];
    forall e | 0 <= e < m
      ensures MatVec(sp.vectors, g[i])[e] == Weighted(sp.values, row)[e]
    {
      EigenEntryWise(g, m, sp, i, e, row);
    }
  }

  lemma EigenEntryWise(g: Mat, m: nat, sp: Spectrum, i: nat, e: nat, row: Vec)
    requires IsEigenbasis(g, m, sp) && i < m && e < m && |row| == m && row[e] == sp.vectors[e][i]
    ensures MatVec(sp.vectors, g[i])[e] == Weighted(sp.values, row)[e]
  {
    EigenEntry(g, m, sp.vectors[e], sp.values[e], i);
  }

  lemma CombineEntry(v: Mat, t: Mat, m: nat, row: Vec, values: Vec, y: Vec, i: nat)
    requires Rows(v, m, m) && t == Transpose(v, m, m) && |row| == |values| == |y| == m && i < m
    requires MatVec(v, row) == Weighted(values, t[i])
    ensures Dot(row, MatVec(t, y), m) == Dot(t[i], Weighted(values, y), m)
  {
    TransposeForm(t, v, m, m, row, y);
    DotWeighted(values, y, t[i], m);
  }

  lemma EigenRow(g: Mat, m: nat, sp: Spectrum, y: Vec, i: nat)
    requires IsEigenbasis(g, m, sp) && |y| == m && i < m
    ensures MatVec(g, Combine(sp.vectors, m, y))[i] == Combine(sp.vectors, m, Weighted(sp.values, y))[i]
  {
    EigenColumn(g, m, sp, i);
    CombineEntry(sp.vectors, Transpose(sp.vectors, m, m), m, g[i], sp.values, y, i);
  }

  /** The matrix scales every coefficient by its eigenvalue. */
  lemma EigenCombine(g: Mat, m: nat, sp: Spectrum, y: Vec)
    requires IsEigenbasis(g, m, sp) && |y| == m
    ensures MatVec(g, Combine(sp.vectors, m, y)) == Combine(sp.vectors, m, Weighted(sp.values, y))
  {
    forall i | 0 <= i < m
      ensures MatVec(g, Combine(sp.vectors, m, y))[i] == Combine(sp.vectors, m, Weighted(sp.values, y))[i]
    {
      EigenRow(g, m, sp, y, i);
    }
  }

  // ----- the pseudoinverse

  function InverseWeights(values: Vec, tolerance: real): (s: Vec)
    requires tolerance >= 0.0
    ensures |s| == |values|
    ensures forall e | 0 <= e < |s| :: s[e] == if values[e] <= tolerance then 0.0 else 1.0 / values[e]
  {
    seq(|values|, e requires 0 <= e < |values| => if values[e] <= tolerance then 0.0 else 1.0 / values[e])
  }

  /** The fit whose normal matrix the accumulation produces. */
  function PseudoFit(m: nat, sp: Spectrum, tolerance: real): (f: Fit)
    requires Rows(sp.vectors, m, m) && |sp.values| == m && tolerance >= 0.0
    ensures f.Valid() && f.n == m && |f.xs| == m
  {
    Fit(m, sp.vectors, InverseWeights(sp.values, tolerance), Zeros(m))
  }

  ghost predicate IsPseudoinverse(p: Mat, m: nat, sp: Spectrum, tolerance: real)
    requires Rows(sp.vectors, m, m) && |sp.values| == m && tolerance >= 0.0
  {
    && Rows(p, m, m)
    && (forall i, j | 0 <= i < m && 0 <= j < m :: p[i][j] == PseudoEntry(m, sp, tolerance, i, j, m))
  }

  /** Entry (i, j) after the first `k` eigenpairs. */
  ghost function PseudoEntry(m: nat, sp: Spectrum, tolerance: real, i: nat, j: nat, k: nat): real
    requires Rows(sp.vectors, m, m) && |sp.values| == m && tolerance >= 0.0 && i < m && j < m && k <= m
  {
    var t := Transpose(sp.vectors, m, m);
    Dot(t[i], Weighted(InverseWeights(sp.values, tolerance), t[j]), k)
  }

  lemma PseudoStep(m: nat, sp: Spectrum, tolerance: real, i: nat, j: nat, k: nat)
    requires Rows(sp.vectors, m, m) && |sp.values| == m && tolerance >= 0.0 && i < m && j < m && k < m
    ensures PseudoEntry(m, sp, tolerance, i, j, k + 1)
         == PseudoEntry(m, sp, tolerance, i, j, k)
            + EigenTerm(sp.vectors[k][i], sp.vectors[k][j], sp.values[k], tolerance)
  {
    var t, s := Transpose(sp.vectors, m, m), InverseWeights(sp.values, tolerance);
    DotTerm(s, t[i], t[j], k);
    InverseTerm(t[i][k], t[j][k], sp.values[k], tolerance, s[k]);
    assert t[i][k] == sp.vectors[k][i] && t[j][k] == sp.vectors[k][j];
  }

  /** What one eigenpair adds to an entry. */
  function EigenTerm(u: real, v: real, lambda: real, tolerance: real): real
    requires tolerance >= 0.0
  {
    if lambda <= tolerance then 0.0 else u * v / lambda
  }

  lemma InverseTerm(u: real, v: real, lambda: real, tolerance: real, s: real)
    requires tolerance >= 0.0 && s == if lambda <= tolerance then 0.0 else 1.0 / lambda
    ensures Term(u, s, v) == EigenTerm(u, v, lambda, tolerance)
  {
    if lambda > tolerance {
      assert s * lambda == 1.0;
      var x := Term(u, s, v);
      assert x * lambda == (u * v) * (s * lambda);
      DivideBack(x, lambda, u * v);
    }
  }

  lemma DivideBack(x: real, d: real, p: real)
    requires d != 0.0 && x * d == p
    ensures x == p / d
  {
  }

  /** The pseudoinverse applied to `r`: drop the small coefficients, divide the rest by their eigenvalues. */
  lemma PseudoApplied(p: Mat, m: nat, sp: Spectrum, tolerance: real, r: Vec)
    requires Rows(sp.vectors, m, m) && |sp.values| == m && tolerance >= 0.0 && |r| == m
    requires IsPseudoinverse(p, m, sp, tolerance)
    ensures MatVec(p, r)
        == Combine(sp.vectors, m, Weighted(InverseWeights(sp.values, tolerance), MatVec(sp.vectors, r)))
  {
    var f := PseudoFit(m, sp, tolerance);
    var b := MatVec(f.Columns(), Weighted(f.ws, f.ys));
    assert IsNormal(f, p, b);
    NormalMatVec(f, p, b, r);
  }

  /** Times its eigenvalue, a kept coefficient is restored. */
  lemma Restored(lambda: real, tolerance: real, s: real, y: real, sy: real, z: real)
    requires tolerance >= 0.0 && s == if lambda <= tolerance then 0.0 else 1.0 / lambda
    requires lambda <= tolerance ==> y == 0.0
    requires sy == s * y && z == lambda * sy
    ensures z == y
  {
    if lambda > tolerance {
      assert lambda * s == 1.0;
      assert z == (lambda * s) * y;
    }
  }

  /** A right side without small components is solved exactly. */
  lemma PseudoSolves(g: Mat, p: Mat, m: nat, sp: Spectrum, tolerance: real, r: Vec)
    requires IsEigenbasis(g, m, sp) && tolerance >= 0.0 && |r| == m
    requires IsPseudoinverse(p, m, sp, tolerance)
    requires forall e | 0 <= e < m && sp.values[e] <= tolerance :: Dot(sp.vectors[e], r, m) == 0.0
    ensures MatVec(g, MatVec(p, r)) == r
  {
    var y, s := MatVec(sp.vectors, r), InverseWeights(sp.values, tolerance);
    PseudoApplied(p, m, sp, tolerance, r);
    EigenCombine(g, m, sp, Weighted(s, y));
    AllRestored(sp.values, tolerance, s, y);
    Resolve(sp.vectors, m, r);
  }

  lemma AllRestored(values: Vec, tolerance: real, s: Vec, y: Vec)
    requires tolerance >= 0.0 && s == InverseWeights(values, tolerance) && |y| == |values|
    requires forall e | 0 <= e < |y| && values[e] <= tolerance :: y[e] == 0.0
    ensures Weighted(values, Weighted(s, y)) == y
  {
    var sy := Weighted(s, y);
    var z := Weighted(values, sy);
    forall e | 0 <= e < |y|
      ensures z[e] == y[e]
    {
      Restored(values[e], tolerance, s[e], y[e], sy[e], z[e]);
    }
  }

  /** An eigenvector with a small eigenvalue is sent to zero. */
  lemma PseudoDrops(g: Mat, p: Mat, m: nat, sp: Spectrum, tolerance: real, e: nat, c: real)
    requires IsEigenbasis(g, m, sp) && tolerance >= 0.0 && e < m && sp.values[e] <= tolerance
    requires IsPseudoinverse(p, m, sp, tolerance)
    ensures MatVec(p, Scaled(c, sp.vectors[e])) == Zeros(m)
  {
    PseudoApplied(p, m, sp, tolerance, Scaled(c, sp.vectors[e]));
    DroppedCoefficients(sp.vectors, m, sp.values, tolerance, e, c);
    CombineZeros(sp.vectors, m);
  }

  lemma DroppedCoefficients(v: Mat, m: nat, values: Vec, tolerance: real, e: nat, c: real)
    requires Orthogonal(v, m) && |values| == m && tolerance >= 0.0 && e < m && values[e] <= tolerance
    ensures Weighted(InverseWeights(values, tolerance), MatVec(v, Scaled(c, v[e]))) == Zeros(m)
  {
    var s, x := InverseWeights(values, tolerance), MatVec(v, Scaled(c, v[e]));
    forall f | 0 <= f < m
      ensures Weighted(s, x)[f] == 0.0
    {
      DotScaled(c, v[e], v[f], m);
      Dropped(s[f], x[f], c, Dot(v[f], v[e], m), Weighted(s, x)[f]);
    }
  }

  lemma Dropped(s: real, x: real, c: real, d: real, z: real)
    requires x == Mul(c, d) && (s == 0.0 || d == 0.0) && z == s * x
    ensures z == 0.0
  {
  }

  lemma CombineZeros(v: Mat, m: nat)
    requires Rows(v, m, m)
    ensures Combine(v, m, Zeros(m)) == Zeros(m)
  {
    var t := Transpose(v, m, m);
    forall i | 0 <= i < m
      ensures Combine(v, m, Zeros(m))[i] == 0.0
    {
      DotZero(t[i], Zeros(m), m);
    }
  }
}
