/** `cholesky_solve`: succeeds exactly on positive definite matrices, and then solves exactly. */
module Cholesky {
  import opened Prelude
  import opened Vectors
  import opened LeastSquares

  /** Entry (r, c) of the product of the factor with its transpose is right. */
  ghost predicate Matches(a: Mat, n: nat, l: Mat, r: nat, c: nat)
    requires Rows(a, n, n) && Rows(l, n, n) && c <= r < n
  {
    Dot(l[r], l[c], c + 1) == a[r][c]
  }

  /** The entries that are still zero when column `j` is done down to row `i`. */
  ghost predicate Triangular(n: nat, l: Mat, j: nat, i: nat)
    requires Rows(l, n, n)
  {
    forall r, k | 0 <= r < n && 0 <= k < n && (k > j || k > r || (k == j && r >= i)) :: l[r][k] == 0.0
  }

  /** Columns before `j` are final, and column `j` is final in the rows before `i`. */
  ghost predicate Filling(a: Mat, n: nat, l: Mat, j: nat, i: nat) {
    && Rows(a, n, n) && Rows(l, n, n) && j < n && i <= n
    && Triangular(n, l, j, i)
    && (forall c | 0 <= c < n && (c < j || (c == j && j < i)) :: l[c][c] > 0.0)
    && (forall r, c | 0 <= c <= r < n && (c < j || (c == j && r < i)) :: Matches(a, n, l, r, c))
  }

  /** The first `j` columns are final and the rest are still zero. */
  ghost predicate Factored(a: Mat, n: nat, l: Mat, j: nat) {
    && Rows(a, n, n) && Rows(l, n, n) && j <= n
    && Triangular(n, l, j, j)
    && (forall c | 0 <= c < j :: l[c][c] > 0.0)
    && (forall r, c | 0 <= c <= r < n && c < j :: Matches(a, n, l, r, c))
  }

  function Write(l: Mat, n: nat, i: nat, j: nat, v: real): (r: Mat)
    requires Rows(l, n, n) && i < n && j < n
    ensures Rows(r, n, n)
    ensures forall p, q | 0 <= p < n && 0 <= q < n :: r[p][q] == if p == i && q == j then v else l[p][q]
  {
    l[i := l[i][j := v]]
  }

  /** Writing in column `j` leaves the products of earlier columns alone. */
  lemma WriteKeepsDots(l: Mat, n: nat, i: nat, j: nat, v: real, r: nat, c: nat, k: nat)
    requires Rows(l, n, n) && i < n && k <= j < n && r < n && c < n
    ensures Dot(Write(l, n, i, j, v)[r], Write(l, n, i, j, v)[c], k) == Dot(l[r], l[c], k)
  {
    DotSame(Write(l, n, i, j, v)[r], Write(l, n, i, j, v)[c], l[r], l[c], k);
  }

  /** An entry that matched still matches after a write in column `j` of a later row. */
  lemma WriteKeepsMatch(a: Mat, n: nat, l: Mat, j: nat, i: nat, v: real, r: nat, c: nat)
    requires Rows(a, n, n) && Rows(l, n, n) && j <= i < n && c <= r < n && Matches(a, n, l, r, c)
    requires c < j || (c == j && r < i)
    ensures Matches(a, n, Write(l, n, i, j, v), r, c)
  {
    if c < j {
      WriteKeepsDots(l, n, i, j, v, r, c, c + 1);
    }
  }

  lemma WriteMatches(a: Mat, n: nat, l: Mat, j: nat, i: nat, v: real)
    requires Rows(a, n, n) && Rows(l, n, n) && j <= i < n
    requires v * (if i == j then v else l[j][j]) == a[i][j] - Dot(l[i], l[j], j)
    ensures Matches(a, n, Write(l, n, i, j, v), i, j)
  {
    WriteKeepsDots(l, n, i, j, v, i, j, j);
  }

  /** Writing the next entry of column `j`: its pivot, or an entry below it. */
  lemma FillNext(a: Mat, n: nat, l: Mat, j: nat, i: nat, v: real)
    requires Filling(a, n, l, j, i) && j <= i < n
    requires v * (if i == j then v else l[j][j]) == a[i][j] - Dot(l[i], l[j], j)
    requires i == j ==> v > 0.0
    ensures Filling(a, n, Write(l, n, i, j, v), j, i + 1)
  {
    var next := Write(l, n, i, j, v);
    WriteMatches(a, n, l, j, i, v);
    forall r, c | 0 <= c <= r < n && (c < j || (c == j && r < i + 1))
      ensures Matches(a, n, next, r, c)
    {
      if c < j || r < i {
        assert Matches(a, n, l, r, c);
        WriteKeepsMatch(a, n, l, j, i, v, r, c);
      }
    }
  }

  ghost predicate Mirrors(m: array2<real>, l: Mat, n: nat)
    reads m
  {
    && m.Length0 == m.Length1 == n && Rows(l, n, n)
    && (forall i, k | 0 <= i < n && 0 <= k < n :: m[i, k] == l[i][k])
  }

  /** The sum of the first `k` products of two rows of the factor. */
  method RowProduct(m: array2<real>, ghost l: Mat, n: nat, i: nat, j: nat, k: nat) returns (s: real)
    requires Mirrors(m, l, n) && i < n && j < n && k <= n
    ensures s == Dot(l[i], l[j], k)
  {
    s := 0.0;
    for c := 0 to k
      invariant s == Dot(l[i], l[j], c)
    {
      s := s + m[i, c] * m[j, c];
    }
  }

  /** Fill column `j` below the diagonal. */
  method FillColumn(ata: array2<real>, ghost a: Mat, n: nat, m: array2<real>, ghost l: Mat, j: nat)
    returns (ghost l': Mat)
    requires Mirrors(ata, a, n) && Mirrors(m, l, n) && m != ata && j < n && Filling(a, n, l, j, j + 1)
    modifies m
    ensures Mirrors(m, l', n) && Factored(a, n, l', j + 1)
  {
    l' := l;
    for i := j + 1 to n
      invariant Mirrors(ata, a, n) && Mirrors(m, l', n) && Filling(a, n, l', j, i)
    {
      var s := RowProduct(m, l', n, i, j, j);
      var v := (ata[i, j] - s) / m[j, j];
      FillNext(a, n, l', j, i, v);
      l' := Write(l', n, i, j, v);
      m[i, j] := v;
    }
  }

  /** Factor a symmetric matrix; fails at the first pivot that is not positive. */
  method Factor(sqrt: real -> real, ata: array2<real>, ghost a: Mat, n: nat)
    returns (m: array2<real>, ghost l: Mat, ghost j: nat, ok: bool)
    requires IsSqrt(sqrt) && Mirrors(ata, a, n)
    ensures Mirrors(m, l, n) && Factored(a, n, l, j)
    ensures ok ==> j == n
    ensures !ok ==> j < n && a[j][j] - Dot(l[j], l[j], j) <= 0.0
  {
    m := new real[n, n]((_, _) => 0.0);
    l := seq(n, _ => Zeros(n));
    j := 0;
    for c := 0 to n
      invariant j == c && m != ata
      invariant Mirrors(ata, a, n) && Mirrors(m, l, n) && Factored(a, n, l, c)
    {
      var sum := RowProduct(m, l, n, c, c, c);
      var diag := ata[c, c] - sum;
      if diag <= 0.0 {
        return m, l, c, false;
      }
      var d := sqrt(diag);
      FillNext(a, n, l, c, c, d);
      l := Write(l, n, c, c, d);
      m[c, c] := d;
      l := FillColumn(ata, a, n, m, l, c);
      j := c + 1;
    }
    ok := true;
  }

  // ----- what a complete factor says about the matrix

  /** The fit whose columns are the rows of the factor. */
  ghost function FactorFit(l: Mat, n: nat): (f: Fit)
    requires Rows(l, n, n)
    ensures f.Valid() && f.n == n && |f.xs| == n && f.ws == Ones(n)
    ensures IsTranspose(f.xs, l, n, n)
  {
    Fit(n, Transpose(l, n, n), Ones(n), Zeros(n))
  }

  lemma FactorColumns(l: Mat, n: nat)
    requires Rows(l, n, n)
    ensures FactorFit(l, n).Columns() == l
  {
    var t := FactorFit(l, n).Columns();
    forall i | 0 <= i < n
      ensures t[i] == l[i]
    {
    }
  }

  lemma WeightOnes(v: Vec)
    ensures Weighted(Ones(|v|), v) == v
  {
  }

  lemma FactorEntry(a: Mat, n: nat, l: Mat, r: nat, c: nat)
    requires Symmetric(a, n) && Factored(a, n, l, n) && r < n && c < n
    ensures Dot(l[r], l[c], n) == a[r][c]
  {
    if c <= r {
      assert Matches(a, n, l, r, c);
      DotTail(l[r], l[c], c + 1, n);
    } else {
      assert Matches(a, n, l, c, r);
      DotTail(l[c], l[r], r + 1, n);
      DotComm(l[c], l[r], n);
    }
  }

  lemma FactorIsNormal(a: Mat, n: nat, l: Mat, b: Vec)
    requires Symmetric(a, n) && Factored(a, n, l, n) && b == Zeros(n)
    ensures IsNormal(FactorFit(l, n), a, b)
  {
    var f := FactorFit(l, n);
    FactorColumns(l, n);
    forall i, j | 0 <= i < n && 0 <= j < n
      ensures a[i][j] == Dot(l[i], Weighted(f.ws, l[j]), n)
    {
      WeightOnes(l[j]);
      FactorEntry(a, n, l, i, j);
    }
    forall i | 0 <= i < n
      ensures b[i] == Dot(l[i], Weighted(f.ws, f.ys), n)
    {
      WeightOnes(f.ys);
      DotZero(l[i], f.ys, n);
    }
  }

  /** The last nonzero entry of a vector. */
  lemma LastNonzero(h: Vec, n: nat) returns (p: nat)
    requires |h| == n && h != Zeros(n)
    ensures p < n && h[p] != 0.0 && forall i | p < i < n :: h[i] == 0.0
  {
    p := n;
    while p > 0 && h[p-1] == 0.0
      invariant p <= n && forall i | p <= i < n :: h[i] == 0.0
    {
      p := p - 1;
    }
    p := p - 1;
  }

  /** A triangular factor with a nonzero diagonal sends only zero to zero. */
  lemma FactorInjective(a: Mat, n: nat, l: Mat, h: Vec)
    requires Factored(a, n, l, n) && |h| == n && h != Zeros(n)
    ensures FactorFit(l, n).Predict(h) != Zeros(n)
  {
    var f := FactorFit(l, n);
    var p := LastNonzero(h, n);
    DotTail(f.xs[p], h, p + 1, n);
    DotZero(f.xs[p], h, p);
    Nonzero(f.xs[p][p], h[p]);
    assert f.Predict(h)[p] == f.xs[p][p] * h[p];
  }

  lemma Nonzero(d: real, v: real)
    requires d > 0.0 && v != 0.0
    ensures d * v != 0.0
  {
    if v > 0.0 {
      Positive(d, v, d * v);
    } else {
      Positive(d, -v, d * -v);
      assert d * -v == -(d * v);
    }
  }

  /** A complete factor proves the matrix positive definite. */
  lemma FactorMeansDefinite(a: Mat, n: nat, l: Mat)
    requires Symmetric(a, n) && Factored(a, n, l, n)
    ensures PositiveDefinite(a, n)
  {
    var f := FactorFit(l, n);
    FactorIsNormal(a, n, l, Zeros(n));
    forall h: Vec | |h| == n && h != Zeros(n)
      ensures f.Predict(h) != Zeros(n)
    {
      FactorInjective(a, n, l, h);
    }
    DefiniteIffInjective(f, a, Zeros(n));
  }

  /** Forward and back substitution give a solution. */
  lemma SubstitutionSolves(a: Mat, n: nat, l: Mat, b: Vec, y: Vec, x: Vec)
    requires Symmetric(a, n) && Factored(a, n, l, n) && |b| == |y| == |x| == n
    requires forall i | 0 <= i < n :: Dot(l[i], y, n) == b[i]
    requires FactorFit(l, n).Predict(x) == y
    ensures MatVec(a, x) == b
  {
    var f := FactorFit(l, n);
    FactorIsNormal(a, n, l, Zeros(n));
    NormalMatVec(f, a, Zeros(n), x);
    FactorColumns(l, n);
    WeightOnes(y);
  }

  // ----- why a failing pivot means the matrix is not positive definite

  lemma {:induction false} DotWrite(c: Vec, x: Vec, k: nat, v: real, m: nat)
    requires k < |x| && m <= |c| && m <= |x|
    ensures Dot(c, x[k := v], m) == Dot(c, x, m) + if k < m then c[k] * v - c[k] * x[k] else 0.0
  {
    if m > 0 {
      DotWrite(c, x, k, v, m - 1);
    }
  }

  /** The leading rows up to `j`, cut to the finished columns, with the pivot as one more direction. */
  ghost function Leading(l: Mat, n: nat, j: nat): (t: Mat)
    requires Rows(l, n, n) && j < n
    ensures Rows(t, j + 1, j + 1)
    ensures forall i, k | 0 <= i <= j && 0 <= k <= j ::
              t[i][k] == if k < j then l[i][k] else if i == j then 1.0 else 0.0
  {
    seq(j + 1, i requires 0 <= i < j + 1 =>
      seq(j + 1, k requires 0 <= k < j + 1 => if k < j then l[i][k] else if i == j then 1.0 else 0.0))
  }

  /** A vector with last entry 1 that the first `j` directions send to zero. */
  lemma Annihilated(cols: Mat, j: nat) returns (x: Vec)
    requires Rows(cols, j + 1, j + 1)
    requires forall k | 0 <= k < j :: cols[k][k] != 0.0
    requires forall k, i | 0 <= i < k < j :: cols[k][i] == 0.0
    ensures |x| == j + 1 && x[j] == 1.0
    ensures forall k | 0 <= k < j :: Dot(cols[k], x, j + 1) == 0.0
  {
    x := Unit(j + 1, j);
    var k := j;
    while k > 0
      invariant 0 <= k <= j && |x| == j + 1 && x[j] == 1.0
      invariant forall c | k <= c < j :: Dot(cols[c], x, j + 1) == 0.0
      invariant forall i | 0 <= i < k :: x[i] == 0.0
    {
      k := k - 1;
      x := SolveFor(cols, j, k, x);
    }
  }

  /** Choose entry `k` so that direction `k` vanishes too. */
  lemma SolveFor(cols: Mat, j: nat, k: nat, x: Vec) returns (next: Vec)
    requires Rows(cols, j + 1, j + 1) && k < j && |x| == j + 1 && x[k] == 0.0 && cols[k][k] != 0.0
    requires forall c | k < c < j :: cols[c][k] == 0.0 && Dot(cols[c], x, j + 1) == 0.0
    ensures |next| == j + 1 && forall i | 0 <= i <= j && i != k :: next[i] == x[i]
    ensures forall c | k <= c < j :: Dot(cols[c], next, j + 1) == 0.0
  {
    var v := -Dot(cols[k], x, j + 1) / cols[k][k];
    next := x[k := v];
    DotWrite(cols[k], x, k, v, j + 1);
    assert cols[k][k] * v == -Dot(cols[k], x, j + 1);
    forall c | k < c < j
      ensures Dot(cols[c], next, j + 1) == 0.0
    {
      DotWrite(cols[c], x, k, v, j + 1);
    }
  }

  function Leader(a: Mat, m: nat): (r: Mat)
    requires Rows(a, |a|, |a|) && m <= |a|
    ensures Rows(r, m, m) && forall i, k | 0 <= i < m && 0 <= k < m :: r[i][k] == a[i][k]
  {
    seq(m, i requires 0 <= i < m => a[i][..m])
  }

  /** The leading block: the finished columns, and the failing pivot as the weight of one more direction. */
  ghost function LeadingFit(l: Mat, n: nat, j: nat, pivot: real): (f: Fit)
    requires Rows(l, n, n) && j < n
    ensures f.Valid() && f.n == j + 1 && |f.xs| == j + 1
    ensures f.ws == Ones(j) + [pivot] && f.ys == Zeros(j + 1)
    ensures IsTranspose(f.xs, Leading(l, n, j), j + 1, j + 1)
  {
    Fit(j + 1, Transpose(Leading(l, n, j), j + 1, j + 1), Ones(j) + [pivot], Zeros(j + 1))
  }

  /** The product of two rows over the finished columns. */
  lemma LeadingDot(l: Mat, n: nat, j: nat, pivot: real, r: nat, c: nat)
    requires Rows(l, n, n) && r <= j && c <= j && j < n
    ensures Dot(Leading(l, n, j)[r], Weighted(Ones(j) + [pivot], Leading(l, n, j)[c]), j) == Dot(l[r], l[c], j)
  {
    var t := Leading(l, n, j);
    DotSame(t[r], Weighted(Ones(j) + [pivot], t[c]), l[r], l[c], j);
  }

  /** A finished column: the extra direction adds nothing. */
  lemma FinishedEntry(a: Mat, n: nat, l: Mat, j: nat, pivot: real, r: nat, c: nat)
    requires Factored(a, n, l, j) && j < n && c <= r <= j && c < j
    ensures Dot(Leading(l, n, j)[r], Weighted(Ones(j) + [pivot], Leading(l, n, j)[c]), j + 1) == a[r][c]
  {
    var t := Leading(l, n, j);
    var w := Weighted(Ones(j) + [pivot], t[c]);
    LeadingDot(l, n, j, pivot, r, c);
    DotTail(t[r], w, j, j + 1);
    assert Matches(a, n, l, r, c);
    DotTail(l[r], l[c], c + 1, j);
  }

  /** The failing pivot itself: the extra direction adds exactly what is missing. */
  lemma PivotEntry(a: Mat, n: nat, l: Mat, j: nat, pivot: real)
    requires Rows(a, n, n) && Rows(l, n, n) && j < n && pivot == a[j][j] - Dot(l[j], l[j], j)
    ensures Dot(Leading(l, n, j)[j], Weighted(Ones(j) + [pivot], Leading(l, n, j)[j]), j + 1) == a[j][j]
  {
    var t := Leading(l, n, j);
    var w := Weighted(Ones(j) + [pivot], t[j]);
    LeadingDot(l, n, j, pivot, j, j);
    assert t[j][j] == 1.0 && w[j] == pivot;
  }

  lemma LeadingSymmetricEntry(a: Mat, n: nat, l: Mat, j: nat, pivot: real, r: nat, c: nat)
    requires Symmetric(a, n) && Factored(a, n, l, j) && j < n && pivot == a[j][j] - Dot(l[j], l[j], j)
    requires r <= j && c <= j
    ensures Dot(Leading(l, n, j)[r], Weighted(Ones(j) + [pivot], Leading(l, n, j)[c]), j + 1) == a[r][c]
  {
    if c <= r {
      LowerEntry(a, n, l, j, pivot, r, c);
    } else {
      LowerEntry(a, n, l, j, pivot, c, r);
      LeadingSwap(l, n, j, pivot, r, c);
    }
  }

  lemma LowerEntry(a: Mat, n: nat, l: Mat, j: nat, pivot: real, r: nat, c: nat)
    requires Factored(a, n, l, j) && j < n && pivot == a[j][j] - Dot(l[j], l[j], j) && c <= r <= j
    ensures Dot(Leading(l, n, j)[r], Weighted(Ones(j) + [pivot], Leading(l, n, j)[c]), j + 1) == a[r][c]
  {
    if c == j {
      PivotEntry(a, n, l, j, pivot);
    } else {
      FinishedEntry(a, n, l, j, pivot, r, c);
    }
  }

  lemma LeadingSwap(l: Mat, n: nat, j: nat, pivot: real, r: nat, c: nat)
    requires Rows(l, n, n) && j < n && r <= j && c <= j
    ensures Dot(Leading(l, n, j)[r], Weighted(Ones(j) + [pivot], Leading(l, n, j)[c]), j + 1)
         == Dot(Leading(l, n, j)[c], Weighted(Ones(j) + [pivot], Leading(l, n, j)[r]), j + 1)
  {
    DotWeighted(Ones(j) + [pivot], Leading(l, n, j)[r], Leading(l, n, j)[c], j + 1);
  }

  lemma LeadingColumns(l: Mat, n: nat, j: nat, pivot: real)
    requires Rows(l, n, n) && j < n
    ensures LeadingFit(l, n, j, pivot).Columns() == Leading(l, n, j)
  {
    var f, t := LeadingFit(l, n, j, pivot), Leading(l, n, j);
    forall i | 0 <= i < j + 1
      ensures f.Columns()[i] == t[i]
    {
    }
  }

  lemma LeadingNormalEntry(a: Mat, n: nat, l: Mat, j: nat, pivot: real, f: Fit, r: nat, c: nat)
    requires Symmetric(a, n) && Factored(a, n, l, j) && j < n && pivot == a[j][j] - Dot(l[j], l[j], j)
    requires f == LeadingFit(l, n, j, pivot) && r <= j && c <= j
    ensures Leader(a, j + 1)[r][c] == Dot(f.Columns()[r], Weighted(f.ws, f.Columns()[c]), j + 1)
  {
    LeadingColumns(l, n, j, pivot);
    LeadingSymmetricEntry(a, n, l, j, pivot, r, c);
  }

  lemma LeadingNormalRhs(l: Mat, n: nat, j: nat, pivot: real, f: Fit, i: nat)
    requires Rows(l, n, n) && j < n && f == LeadingFit(l, n, j, pivot) && i <= j
    ensures Dot(f.Columns()[i], Weighted(f.ws, f.ys), j + 1) == 0.0
  {
    DotZero(f.Columns()[i], Weighted(f.ws, f.ys), j + 1);
  }

  lemma LeadingIsNormal(a: Mat, n: nat, l: Mat, j: nat, pivot: real, f: Fit)
    requires Symmetric(a, n) && Factored(a, n, l, j) && j < n && pivot == a[j][j] - Dot(l[j], l[j], j)
    requires f == LeadingFit(l, n, j, pivot)
    ensures IsNormal(f, Leader(a, j + 1), Zeros(j + 1))
  {
    forall r, c | 0 <= r < f.n && 0 <= c < f.n
      ensures Leader(a, j + 1)[r][c] == Dot(f.Columns()[r], Weighted(f.ws, f.Columns()[c]), |f.xs|)
    {
      LeadingNormalEntry(a, n, l, j, pivot, f, r, c);
    }
    forall i | 0 <= i < f.n
      ensures Dot(f.Columns()[i], Weighted(f.ws, f.ys), |f.xs|) == 0.0
    {
      LeadingNormalRhs(l, n, j, pivot, f, i);
    }
  }

  /** Padding with zeros does not change the quadratic form. */
  lemma PadQuad(a: Mat, n: nat, m: nat, x: Vec)
    requires Rows(a, n, n) && m <= n && |x| == m
    ensures Quad(a, n, x + Zeros(n - m)) == Quad(Leader(a, m), m, x)
  {
    var z := x + Zeros(n - m);
    DotTail(z, MatVec(a, z), m, n);
    forall i | 0 <= i < m
      ensures MatVec(a, z)[i] == MatVec(Leader(a, m), x)[i]
    {
      DotTail(a[i], z, m, n);
      DotSame(a[i], z, Leader(a, m)[i], x, m);
    }
    DotSame(z, MatVec(a, z), x, MatVec(Leader(a, m), x), m);
  }

  /** A failing pivot exhibits a nonzero vector whose quadratic form is not positive. */
  lemma FailureMeansIndefinite(a: Mat, n: nat, l: Mat, j: nat)
    requires Symmetric(a, n) && Factored(a, n, l, j) && j < n
    requires a[j][j] - Dot(l[j], l[j], j) <= 0.0
    ensures !PositiveDefinite(a, n)
  {
    var x := PivotVector(a, n, l, j, a[j][j] - Dot(l[j], l[j], j));
    PadQuad(a, n, j + 1, x);
    var z := x + Zeros(n - (j + 1));
    assert z[j] != 0.0;
    assert z != Zeros(n);
  }

  /** A vector on which the leading block takes the pivot as its value. */
  lemma PivotVector(a: Mat, n: nat, l: Mat, j: nat, pivot: real) returns (x: Vec)
    requires Symmetric(a, n) && Factored(a, n, l, j) && j < n && pivot == a[j][j] - Dot(l[j], l[j], j)
    ensures |x| == j + 1 && x[j] == 1.0 && Quad(Leader(a, j + 1), j + 1, x) == pivot
  {
    var f := LeadingFit(l, n, j, pivot);
    LeadingIsNormal(a, n, l, j, pivot, f);
    x := Annihilated(f.xs, j);
    NormalForm(f, Leader(a, j + 1), Zeros(j + 1), x, x);
    LastPrediction(f, j, x);
    PivotValue(f.ws, f.Predict(x), j, pivot);
  }

  lemma PivotValue(w: Vec, p: Vec, j: nat, pivot: real)
    requires |w| == |p| == j + 1 && w[j] == pivot && p[j] == 1.0 && forall i | 0 <= i < j :: p[i] == 0.0
    ensures Dot(p, Weighted(w, p), j + 1) == pivot
  {
    DotZero(p, Weighted(w, p), j);
  }

  lemma LastPrediction(f: Fit, j: nat, x: Vec)
    requires f.Valid() && f.n == j + 1 == |f.xs| && |x| == j + 1 && x[j] == 1.0
    requires forall i | 0 <= i <= j :: f.xs[j][i] == if i == j then 1.0 else 0.0
    ensures f.Predict(x)[j] == 1.0
  {
    DotZero(f.xs[j], x, j);
  }

  // ----- the solver

  /** Forward substitution. */
  method ForwardSolve(m: array2<real>, ghost a: Mat, ghost l: Mat, n: nat, b: Vec) returns (y: Vec)
    requires Mirrors(m, l, n) && Factored(a, n, l, n) && |b| == n
    ensures |y| == n && forall i | 0 <= i < n :: Dot(l[i], y, n) == b[i]
  {
    y := Zeros(n);
    for i := 0 to n
      invariant |y| == n && forall r | i <= r < n :: y[r] == 0.0
      invariant forall r | 0 <= r < i :: Dot(l[r], y, n) == b[r]
    {
      var s := 0.0;
      for k := 0 to i
        invariant s == Dot(l[i], y, k)
      {
        s := s + m[i, k] * y[k];
      }
      DotTail(l[i], y, i, n);
      var v := (b[i] - s) / m[i, i];
      ForwardStep(a, n, l, b, y, i, v);
      y := y[i := v];
    }
  }

  lemma ForwardStep(a: Mat, n: nat, l: Mat, b: Vec, y: Vec, i: nat, v: real)
    requires Factored(a, n, l, n) && |b| == |y| == n && i < n
    requires y[i] == 0.0
    requires forall r | 0 <= r < i :: Dot(l[r], y, n) == b[r]
    requires v * l[i][i] == b[i] - Dot(l[i], y, n)
    ensures forall r | 0 <= r <= i :: Dot(l[r], y[i := v], n) == b[r]
  {
    forall r | 0 <= r <= i
      ensures Dot(l[r], y[i := v], n) == b[r]
    {
      DotWrite(l[r], y, i, v, n);
      if r < i {
        assert l[r][i] == 0.0;
      }
    }
  }

  /** Back substitution. */
  method BackSolve(m: array2<real>, ghost a: Mat, ghost l: Mat, n: nat, y: Vec) returns (x: Vec)
    requires Mirrors(m, l, n) && Factored(a, n, l, n) && |y| == n
    ensures |x| == n && FactorFit(l, n).Predict(x) == y
  {
    ghost var cols := FactorFit(l, n).xs;
    x := Zeros(n);
    for i := n downto 0
      invariant |x| == n && forall r | 0 <= r < i :: x[r] == 0.0
      invariant forall r | i <= r < n :: Dot(cols[r], x, n) == y[r]
    {
      var s := 0.0;
      DotZero(cols[i], x, i + 1);
      for k := i + 1 to n
        invariant s == Dot(cols[i], x, k)
      {
        s := s + m[k, i] * x[k];
      }
      var v := (y[i] - s) / m[i, i];
      BackStep(a, n, l, cols, y, x, i, v);
      x := x[i := v];
    }
  }

  lemma BackStep(a: Mat, n: nat, l: Mat, cols: Mat, y: Vec, x: Vec, i: nat, v: real)
    requires Factored(a, n, l, n) && IsTranspose(cols, l, n, n) && |y| == |x| == n && i < n
    requires x[i] == 0.0
    requires forall r | i < r < n :: Dot(cols[r], x, n) == y[r]
    requires v * l[i][i] == y[i] - Dot(cols[i], x, n)
    ensures forall r | i <= r < n :: Dot(cols[r], x[i := v], n) == y[r]
  {
    forall r | i <= r < n
      ensures Dot(cols[r], x[i := v], n) == y[r]
    {
      if r > i {
        AboveDiagonal(a, n, l, cols, r, i);
        WriteUnseen(cols[r], x, i, v, n);
      } else {
        assert cols[i][i] == l[i][i];
        WriteSolves(cols[i], x, i, v, n, y[i]);
      }
    }
  }

  /** Writing an entry a row does not see leaves its product alone. */
  lemma WriteUnseen(row: Vec, x: Vec, i: nat, v: real, n: nat)
    requires |row| == |x| == n && i < n && row[i] == 0.0
    ensures Dot(row, x[i := v], n) == Dot(row, x, n)
  {
    DotWrite(row, x, i, v, n);
  }

  /** Writing the right value into an empty entry gives the product its target. */
  lemma WriteSolves(row: Vec, x: Vec, i: nat, v: real, n: nat, target: real)
    requires |row| == |x| == n && i < n && x[i] == 0.0 && v * row[i] == target - Dot(row, x, n)
    ensures Dot(row, x[i := v], n) == target
  {
    DotWrite(row, x, i, v, n);
  }

  lemma AboveDiagonal(a: Mat, n: nat, l: Mat, cols: Mat, r: nat, i: nat)
    requires Factored(a, n, l, n) && IsTranspose(cols, l, n, n) && i < r < n
    ensures cols[r][i] == 0.0
  {
    assert cols[r][i] == l[i][r];
  }

  /** Succeeds exactly when the matrix is positive definite, and then the answer solves the system. */
  method Solve(sqrt: real -> real, ata: array2<real>, ghost a: Mat, n: nat, b: Vec) returns (r: Result<Vec>)
    requires IsSqrt(sqrt) && Mirrors(ata, a, n) && Symmetric(a, n) && |b| == n
    ensures r.Ok? <==> PositiveDefinite(a, n)
    ensures r.Ok? ==> |r.value| == n && MatVec(a, r.value) == b
  {
    var m, ok; ghost var l, j;
    m, l, j, ok := Factor(sqrt, ata, a, n);
    if !ok {
      FailureMeansIndefinite(a, n, l, j);
      return Err("sbas_cholesky_not_positive");
    }
    FactorMeansDefinite(a, n, l);
    var y := ForwardSolve(m, a, l, n, b);
    var x := BackSolve(m, a, l, n, y);
    SubstitutionSolves(a, n, l, b, y, x);
    r := Ok(x);
  }
}
