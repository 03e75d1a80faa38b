/** Vectors and matrices of reals: dot products, symmetric forms, Cauchy-Schwarz. */
module Vectors {
  import opened Prelude

  type Vec = seq<real>
  type Mat = seq<Vec>

  /** The sum of the first `k` products. */
  function Dot(x: Vec, y: Vec, k: nat): real
    requires k <= |x| && k <= |y|
  {
    if k == 0 then 0.0 else Dot(x, y, k - 1) + x[k-1] * y[k-1]
  }

  predicate Rows(a: Mat, m: nat, n: nat) {
    |a| == m && forall i | 0 <= i < m :: |a[i]| == n
  }

  /** x + c y. */
  function AddScaled(x: Vec, c: real, y: Vec): (z: Vec)
    requires |x| == |y|
    ensures |z| == |x| && forall i | 0 <= i < |x| :: z[i] == x[i] + c * y[i]
  {
    seq(|x|, i requires 0 <= i < |x| => x[i] + c * y[i])
  }

  function Scaled(c: real, y: Vec): (z: Vec)
    ensures |z| == |y| && forall i | 0 <= i < |y| :: z[i] == c * y[i]
  {
    seq(|y|, i requires 0 <= i < |y| => c * y[i])
  }

  function Sub(x: Vec, y: Vec): (z: Vec)
    requires |x| == |y|
    ensures |z| == |x| && forall i | 0 <= i < |x| :: z[i] == x[i] - y[i]
  {
    seq(|x|, i requires 0 <= i < |x| => x[i] - y[i])
  }

  function Zeros(n: nat): (z: Vec)
    ensures |z| == n && forall i | 0 <= i < n :: z[i] == 0.0
  {
    seq(n, _ => 0.0)
  }

  function Ones(n: nat): (z: Vec)
    ensures |z| == n && forall i | 0 <= i < n :: z[i] == 1.0
  {
    seq(n, _ => 1.0)
  }

  lemma {:induction false} CountOnes(n: nat, k: nat)
    requires k <= n
    ensures Dot(Ones(n), Ones(n), k) == k as real
  {
    if k > 0 {
      CountOnes(n, k - 1);
    }
  }

  function Unit(n: nat, j: nat): (z: Vec)
    ensures |z| == n && forall i | 0 <= i < n :: z[i] == if i == j then 1.0 else 0.0
  {
    seq(n, i => if i == j then 1.0 else 0.0)
  }

  function MatVec(a: Mat, x: Vec): (z: Vec)
    requires forall i | 0 <= i < |a| :: |a[i]| == |x|
    ensures |z| == |a| && forall i | 0 <= i < |a| :: z[i] == Dot(a[i], x, |x|)
  {
    seq(|a|, i requires 0 <= i < |a| => Dot(a[i], x, |x|))
  }

  lemma {:induction false} DotComm(x: Vec, y: Vec, k: nat)
    requires k <= |x| && k <= |y|
    ensures Dot(x, y, k) == Dot(y, x, k)
  {
    if k > 0 {
      DotComm(x, y, k - 1);
    }
  }

  function Add(x: Vec, y: Vec): (z: Vec)
    requires |x| == |y|
    ensures |z| == |x| && forall i | 0 <= i < |x| :: z[i] == x[i] + y[i]
  {
    seq(|x|, i requires 0 <= i < |x| => x[i] + y[i])
  }

  lemma {:induction false} DotAdd(x: Vec, y: Vec, z: Vec, k: nat)
    requires |x| == |y| && k <= |x| && k <= |z|
    ensures Dot(Add(x, y), z, k) == Dot(x, z, k) + Dot(y, z, k)
    ensures Dot(z, Add(x, y), k) == Dot(z, x, k) + Dot(z, y, k)
  {
    if k > 0 {
      DotAdd(x, y, z, k - 1);
      Spread(x[k-1], y[k-1], z[k-1]);
    }
  }

  lemma {:induction false} DotSub(x: Vec, y: Vec, z: Vec, k: nat)
    requires |x| == |y| && k <= |x| && k <= |z|
    ensures Dot(Sub(x, y), z, k) == Dot(x, z, k) - Dot(y, z, k)
    ensures Dot(z, Sub(x, y), k) == Dot(z, x, k) - Dot(z, y, k)
  {
    if k > 0 {
      DotSub(x, y, z, k - 1);
      Spread(x[k-1], -y[k-1], z[k-1]);
    }
  }

  lemma Spread(x: real, y: real, z: real)
    ensures (x + y) * z == x * z + y * z
    ensures z * (x + y) == z * x + z * y
  {
  }

  lemma {:induction false} DotScaled(c: real, y: Vec, z: Vec, k: nat)
    requires k <= |y| && k <= |z|
    ensures Dot(Scaled(c, y), z, k) == Mul(c, Dot(y, z, k))
    ensures Dot(z, Scaled(c, y), k) == Mul(c, Dot(z, y, k))
  {
    ScaledLeft(c, y, z, k);
    DotComm(Scaled(c, y), z, k);
    DotComm(y, z, k);
  }

  lemma {:induction false} ScaledLeft(c: real, y: Vec, z: Vec, k: nat)
    requires k <= |y| && k <= |z|
    ensures Dot(Scaled(c, y), z, k) == Mul(c, Dot(y, z, k))
  {
    if k > 0 {
      ScaledLeft(c, y, z, k - 1);
      ScaledStep(c, Dot(y, z, k - 1), Dot(Scaled(c, y), z, k - 1), y[k-1], z[k-1], Scaled(c, y)[k-1]);
    }
  }

  lemma ScaledStep(c: real, d: real, e: real, yi: real, zi: real, vi: real)
    requires e == Mul(c, d) && vi == c * yi
    ensures e + vi * zi == Mul(c, d + yi * zi)
  {
  }

  lemma DotAddScaled(x: Vec, c: real, y: Vec, z: Vec, k: nat)
    requires |x| == |y| && k <= |x| && k <= |z|
    ensures Dot(AddScaled(x, c, y), z, k) == Dot(x, z, k) + Mul(c, Dot(y, z, k))
    ensures Dot(z, AddScaled(x, c, y), k) == Dot(z, x, k) + Mul(c, Dot(z, y, k))
  {
    assert AddScaled(x, c, y) == Add(x, Scaled(c, y));
    DotAdd(x, Scaled(c, y), z, k);
    DotScaled(c, y, z, k);
  }

  lemma {:induction false} DotSame(x: Vec, y: Vec, x': Vec, y': Vec, k: nat)
    requires k <= |x| && k <= |y| && k <= |x'| && k <= |y'|
    requires forall i | 0 <= i < k :: x[i] == x'[i] && y[i] == y'[i]
    ensures Dot(x, y, k) == Dot(x', y', k)
  {
    if k > 0 {
      DotSame(x, y, x', y', k - 1);
    }
  }

  lemma {:induction false} DotZero(x: Vec, y: Vec, k: nat)
    requires k <= |x| && k <= |y|
    requires forall i | 0 <= i < k :: x[i] == 0.0 || y[i] == 0.0
    ensures Dot(x, y, k) == 0.0
  {
    if k > 0 {
      DotZero(x, y, k - 1);
    }
  }

  /** Products beyond `k` that vanish do not matter. */
  lemma {:induction false} DotTail(x: Vec, y: Vec, k: nat, m: nat)
    requires k <= m <= |x| && m <= |y|
    requires forall i | k <= i < m :: x[i] == 0.0 || y[i] == 0.0
    ensures Dot(x, y, m) == Dot(x, y, k)
    decreases m - k
  {
    if k < m {
      DotTail(x, y, k, m - 1);
    }
  }

  lemma {:induction false} DotUnit(x: Vec, n: nat, j: nat, k: nat)
    requires k <= |x| && k <= n
    ensures Dot(Unit(n, j), x, k) == if j < k then x[j] else 0.0
    ensures Dot(x, Unit(n, j), k) == if j < k then x[j] else 0.0
  {
    if k > 0 {
      DotUnit(x, n, j, k - 1);
    }
  }

  lemma {:induction false} DotSelf(x: Vec, k: nat)
    requires k <= |x|
    ensures Dot(x, x, k) >= 0.0
  {
    if k > 0 {
      DotSelf(x, k - 1);
      Square(x[k-1], x[k-1] * x[k-1]);
    }
  }

  lemma {:induction false} DotPositive(x: Vec, k: nat, i: nat)
    requires i < k <= |x| && x[i] != 0.0
    ensures Dot(x, x, k) > 0.0
  {
    Square(x[k-1], x[k-1] * x[k-1]);
    if i < k - 1 {
      DotPositive(x, k - 1, i);
    } else {
      DotSelf(x, k - 1);
    }
  }

  /** The square is passed by value because the solver forgets the sign of `x * x`. */
  lemma Square(x: real, s: real)
    requires s == x * x
    ensures s >= 0.0
    ensures x != 0.0 ==> s > 0.0
  {
    if x > 0.0 {
      Positive(x, x, s);
    } else if x < 0.0 {
      var y := -x;
      assert y * y == s;
      Positive(y, y, s);
    }
  }

  lemma Positive(x: real, y: real, s: real)
    requires x > 0.0 && y > 0.0 && s == x * y
    ensures s > 0.0
  {
  }

  /** Entrywise product with the weights. */
  lemma RootZero(sqrt: real -> real, x: real)
    requires IsSqrt(sqrt) && x >= 0.0
    ensures sqrt(x) == 0.0 <==> x == 0.0
  {
    var r := sqrt(x);
    assert r * r == x;
    if r > 0.0 {
      Positive(r, r, x);
    }
  }

  function Weighted(w: Vec, v: Vec): (z: Vec)
    requires |w| == |v|
    ensures |z| == |v| && forall i | 0 <= i < |v| :: z[i] == w[i] * v[i]
  {
    seq(|v|, i requires 0 <= i < |v| => w[i] * v[i])
  }

  lemma {:induction false} DotWeighted(w: Vec, u: Vec, v: Vec, k: nat)
    requires |u| == |v| == |w| && k <= |u|
    ensures Dot(u, Weighted(w, v), k) == Dot(v, Weighted(w, u), k)
  {
    if k > 0 {
      DotWeighted(w, u, v, k - 1);
      Rotate(u[k-1], w[k-1], v[k-1]);
    }
  }

  /** One weighted product. As a function it lets equal factors be exchanged without nonlinear arithmetic. */
  function Term(u: real, w: real, v: real): real {
    u * (w * v)
  }

  function Mul(a: real, b: real): real {
    a * b
  }

  /** The last term of a weighted dot product. */
  lemma DotTerm(w: Vec, u: Vec, v: Vec, k: nat)
    requires |u| == |v| == |w| && k < |u|
    ensures Dot(u, Weighted(w, v), k + 1) == Dot(u, Weighted(w, v), k) + Term(u[k], w[k], v[k])
  {
  }

  lemma {:induction false} DotConcat(a: Vec, b: Vec, c: Vec, d: Vec, k: nat)
    requires |a| == |c| && |b| == |d| && k <= |b|
    ensures Dot(a + b, c + d, |a| + k) == Dot(a, c, |a|) + Dot(b, d, k)
  {
    if k == 0 {
      DotSame(a + b, c + d, a, c, |a|);
    } else {
      DotConcat(a, b, c, d, k - 1);
    }
  }

  lemma WeightedConcat(w: Vec, w': Vec, v: Vec, v': Vec)
    requires |w| == |v| && |w'| == |v'|
    ensures Weighted(w + w', v + v') == Weighted(w, v) + Weighted(w', v')
  {
    forall i | 0 <= i < |v| + |v'|
      ensures Weighted(w + w', v + v')[i] == (Weighted(w, v) + Weighted(w', v'))[i]
    {
      if i >= |v| {
        assert (v + v')[i] == v'[i - |v|] && (w + w')[i] == w'[i - |v|];
      }
    }
  }

  /** Multiplied by `t` twice. */
  function Twice(t: real, q: real): real {
    Mul(t, Mul(t, q))
  }

  lemma TwiceScaled(c: real, q: real, d: real, r: real)
    requires d == Mul(c, q) && r == Mul(c, d)
    ensures r == Twice(c, q)
  {
  }

  /** Scaling both sides of a dot product. */
  lemma ScaledForm(c: real, x: Vec, y: Vec, k: nat)
    requires k <= |x| && k <= |y|
    ensures Dot(Scaled(c, x), Scaled(c, y), k) == Twice(c, Dot(x, y, k))
  {
    ScaledLeft(c, x, Scaled(c, y), k);
    DotScaled(c, y, x, k);
    TwiceScaled(c, Dot(x, y, k), Dot(x, Scaled(c, y), k), Dot(Scaled(c, x), Scaled(c, y), k));
  }

  lemma Rotate(a: real, b: real, c: real)
    ensures a * (b * c) == c * (b * a)
  {
  }

  lemma WeightedAdd(w: Vec, u: Vec, v: Vec)
    requires |u| == |v| == |w|
    ensures Weighted(w, Add(u, v)) == Add(Weighted(w, u), Weighted(w, v))
    ensures Weighted(w, Sub(u, v)) == Sub(Weighted(w, u), Weighted(w, v))
  {
    forall i | 0 <= i < |u|
      ensures Weighted(w, Add(u, v))[i] == Add(Weighted(w, u), Weighted(w, v))[i]
      ensures Weighted(w, Sub(u, v))[i] == Sub(Weighted(w, u), Weighted(w, v))[i]
    {
      Spread(u[i], v[i], w[i]);
      Spread(u[i], -v[i], w[i]);
    }
  }

  lemma {:induction false} WeightedNonneg(w: Vec, v: Vec, k: nat)
    requires |w| == |v| && k <= |v| && forall i | 0 <= i < k :: w[i] >= 0.0
    ensures Dot(v, Weighted(w, v), k) >= 0.0
  {
    if k > 0 {
      WeightedNonneg(w, v, k - 1);
      WeightedSquare(w[k-1], v[k-1], v[k-1] * (w[k-1] * v[k-1]));
    }
  }

  lemma {:induction false} WeightedPositive(w: Vec, v: Vec, k: nat, i: nat)
    requires |w| == |v| && i < k <= |v| && v[i] != 0.0 && forall j | 0 <= j < k :: w[j] > 0.0
    ensures Dot(v, Weighted(w, v), k) > 0.0
  {
    WeightedSquare(w[k-1], v[k-1], v[k-1] * (w[k-1] * v[k-1]));
    if i < k - 1 {
      WeightedPositive(w, v, k - 1, i);
    } else {
      WeightedNonneg(w, v, k - 1);
    }
  }

  lemma WeightedSquare(w: real, v: real, p: real)
    requires w >= 0.0 && p == v * (w * v)
    ensures p >= 0.0
    ensures w > 0.0 && v != 0.0 ==> p > 0.0
  {
    var s := v * v;
    Square(v, s);
    assert p == w * s;
    Times(w, s);
    if w > 0.0 && v != 0.0 {
      Positive(w, s, p);
    }
  }

  /** The rows of a two-dimensional array. */
  function AsMat(m: array2<real>): (a: Mat)
    reads m
    ensures Rows(a, m.Length0, m.Length1)
    ensures forall i, j | 0 <= i < m.Length0 && 0 <= j < m.Length1 :: a[i][j] == m[i, j]
  {
    seq(m.Length0, i requires 0 <= i < m.Length0 reads m =>
      seq(m.Length1, j requires 0 <= j < m.Length1 reads m => m[i, j]))
  }

  // ----- symmetric forms

  predicate Symmetric(a: Mat, n: nat) {
    Rows(a, n, n) && forall i, j | 0 <= i < n && 0 <= j < n :: a[i][j] == a[j][i]
  }

  /** The sum over the first `k` rows and `l` columns of x[i] a[i][j] y[j]. */
  function Form(a: Mat, x: Vec, y: Vec, k: nat, l: nat): real
    requires k <= |a| && k <= |x| && l <= |y| && forall i | 0 <= i < |a| :: l <= |a[i]|
  {
    if k == 0 then 0.0 else Form(a, x, y, k - 1, l) + x[k-1] * Dot(a[k-1], y, l)
  }

  lemma {:induction false} FormIsDot(a: Mat, x: Vec, y: Vec, k: nat)
    requires (forall i | 0 <= i < |a| :: |a[i]| == |y|) && k <= |a| && k <= |x|
    ensures Form(a, x, y, k, |y|) == Dot(x, MatVec(a, y), k)
  {
    if k > 0 {
      FormIsDot(a, x, y, k - 1);
    }
  }

  predicate IsTranspose(t: Mat, a: Mat, m: nat, n: nat) {
    Rows(a, m, n) && Rows(t, n, m) && forall i, j | 0 <= i < m && 0 <= j < n :: t[j][i] == a[i][j]
  }

  ghost function Transpose(a: Mat, m: nat, n: nat): (t: Mat)
    requires Rows(a, m, n)
    ensures IsTranspose(t, a, m, n)
  {
    seq(n, j requires 0 <= j < n => seq(m, i requires 0 <= i < m => a[i][j]))
  }

  /** One more column. */
  lemma {:induction false} FormColumn(a: Mat, t: Mat, m: nat, n: nat, x: Vec, y: Vec, k: nat, l: nat)
    requires IsTranspose(t, a, m, n) && |x| == m && |y| == n && k <= m && l < n
    ensures Form(a, x, y, k, l + 1) == Form(a, x, y, k, l) + y[l] * Dot(t[l], x, k)
  {
    if k > 0 {
      FormColumn(a, t, m, n, x, y, k - 1, l);
      FormColumnStep(x[k-1], a[k-1][l], y[l], Dot(a[k-1], y, l), Dot(t[l], x, k - 1));
    }
  }

  lemma FormColumnStep(xi: real, e: real, yl: real, d: real, rest: real)
    ensures xi * (d + e * yl) == xi * d + yl * (rest + e * xi) - yl * rest
  {
  }

  lemma {:induction false} FormZero(a: Mat, x: Vec, y: Vec, k: nat)
    requires k <= |a| && k <= |x|
    ensures Form(a, x, y, k, 0) == 0.0
  {
    if k > 0 {
      FormZero(a, x, y, k - 1);
    }
  }

  lemma {:induction false} FormSwap(a: Mat, t: Mat, m: nat, n: nat, x: Vec, y: Vec, l: nat)
    requires IsTranspose(t, a, m, n) && |x| == m && |y| == n && l <= n
    ensures Form(a, x, y, m, l) == Form(t, y, x, l, m)
  {
    if l == 0 {
      FormZero(a, x, y, m);
    } else {
      FormSwap(a, t, m, n, x, y, l - 1);
      FormColumn(a, t, m, n, x, y, m, l - 1);
    }
  }

  /** A matrix moves across the dot product as its transpose. */
  lemma TransposeForm(a: Mat, t: Mat, m: nat, n: nat, x: Vec, y: Vec)
    requires IsTranspose(t, a, m, n) && |x| == m && |y| == n
    ensures Dot(x, MatVec(a, y), m) == Dot(y, MatVec(t, x), n)
  {
    FormIsDot(a, x, y, m);
    FormIsDot(t, y, x, n);
    FormSwap(a, t, m, n, x, y, n);
  }

  /** A symmetric matrix moves across the dot product. */
  lemma SymmetricForm(a: Mat, n: nat, x: Vec, y: Vec)
    requires Symmetric(a, n) && |x| == n && |y| == n
    ensures Dot(x, MatVec(a, y), n) == Dot(y, MatVec(a, x), n)
  {
    TransposeForm(a, a, n, n, x, y);
  }

  lemma MatVecAddScaled(a: Mat, x: Vec, c: real, y: Vec)
    requires |x| == |y| && forall i | 0 <= i < |a| :: |a[i]| == |x|
    ensures MatVec(a, AddScaled(x, c, y)) == AddScaled(MatVec(a, x), c, MatVec(a, y))
  {
    var l, r := MatVec(a, AddScaled(x, c, y)), AddScaled(MatVec(a, x), c, MatVec(a, y));
    forall i | 0 <= i < |a|
      ensures l[i] == r[i]
    {
      DotAddScaled(x, c, y, a[i], |x|);
    }
  }

  lemma MatVecAdd(a: Mat, x: Vec, y: Vec)
    requires |x| == |y| && forall i | 0 <= i < |a| :: |a[i]| == |x|
    ensures MatVec(a, Add(x, y)) == Add(MatVec(a, x), MatVec(a, y))
  {
    forall i | 0 <= i < |a|
      ensures MatVec(a, Add(x, y))[i] == Add(MatVec(a, x), MatVec(a, y))[i]
    {
      DotAdd(x, y, a[i], |x|);
    }
  }

  function Quad(a: Mat, n: nat, x: Vec): real
    requires Rows(a, n, n) && |x| == n
  {
    Dot(x, MatVec(a, x), n)
  }

  ghost predicate IsPsd(a: Mat, n: nat) {
    Symmetric(a, n) && forall x: Vec {:trigger Quad(a, n, x)} | |x| == n :: Quad(a, n, x) >= 0.0
  }

  /** The diagonal of a positive semidefinite matrix is nonnegative. */
  lemma DiagonalNonneg(s: Mat, n: nat, i: nat)
    requires IsPsd(s, n) && i < n
    ensures s[i][i] >= 0.0
  {
    DotUnit(MatVec(s, Unit(n, i)), n, i, n);
    DotUnit(s[i], n, i, n);
    assert Quad(s, n, Unit(n, i)) >= 0.0;
  }

  /** A covariance check that accepts exactly the nonempty symmetric positive semidefinite matrices. */
  ghost predicate Validates(validate: Mat -> bool) {
    forall a {:trigger validate(a)} :: validate(a) <==> |a| > 0 && IsPsd(a, |a|)
  }

  /** The value at `t` of the quadratic p + 2 q t + r t^2. */
  function Along(p: real, q: real, r: real, t: real): real {
    p + 2.0 * (t * q) + t * (t * r)
  }

  /** The point a + t b. */
  function Line(a: real, t: real, b: real): real {
    a + Mul(t, b)
  }

  lemma ExpandAlong(t: real, p: real, q: real, r: real)
    ensures Line(Line(p, t, q), t, Line(q, t, r)) == Along(p, q, r, t)
  {
  }

  lemma DotLine(x: Vec, t: real, y: Vec, z: Vec, k: nat, a: real, b: real)
    requires |x| == |y| && k <= |x| && k <= |z| && a == Dot(x, z, k) && b == Dot(y, z, k)
    ensures Dot(AddScaled(x, t, y), z, k) == Line(a, t, b)
  {
    DotAddScaled(x, t, y, z, k);
  }

  /** The quadratic form along a line. */
  lemma QuadAlong(a: Mat, n: nat, x: Vec, t: real, y: Vec)
    requires Symmetric(a, n) && |x| == n && |y| == n
    ensures Quad(a, n, AddScaled(x, t, y)) == Along(Quad(a, n, x), Dot(x, MatVec(a, y), n), Quad(a, n, y), t)
  {
    MatVecAddScaled(a, x, t, y);
    SymmetricForm(a, n, x, y);
    SplitQuad(x, y, MatVec(a, x), MatVec(a, y), t, Dot(x, MatVec(a, y), n), n);
  }

  lemma SplitQuad(x: Vec, y: Vec, ax: Vec, ay: Vec, t: real, q: real, n: nat)
    requires |x| == |y| == |ax| == |ay| == n
    requires Dot(x, ay, n) == q && Dot(y, ax, n) == q
    ensures Dot(AddScaled(x, t, y), AddScaled(ax, t, ay), n) == Along(Dot(x, ax, n), q, Dot(y, ay, n), t)
  {
    var v := AddScaled(ax, t, ay);
    var p, r := Dot(x, ax, n), Dot(y, ay, n);
    DotComm(ax, x, n);
    DotComm(ay, x, n);
    DotComm(ax, y, n);
    DotComm(ay, y, n);
    DotLine(ax, t, ay, x, n, p, q);
    DotLine(ax, t, ay, y, n, q, r);
    DotComm(x, v, n);
    DotComm(y, v, n);
    DotLine(x, t, y, v, n, Line(p, t, q), Line(q, t, r));
    ExpandAlong(t, p, q, r);
  }

  /** Lowering one coordinate by `t`. */
  lemma CoordinateCost(a: Mat, n: nat, x: Vec, i: nat, t: real)
    requires Symmetric(a, n) && |x| == n && i < n
    ensures Quad(a, n, x[i := x[i] - t]) == Along(Quad(a, n, x), MatVec(a, x)[i], a[i][i], -t)
  {
    var e := Unit(n, i);
    assert x[i := x[i] - t] == AddScaled(x, -t, e);
    QuadAlong(a, n, x, -t, e);
    SymmetricForm(a, n, x, e);
    DotUnit(MatVec(a, x), n, i, n);
    DotUnit(MatVec(a, e), n, i, n);
    DotUnit(a[i], n, i, n);
    assert Dot(x, MatVec(a, e), n) == MatVec(a, x)[i] && Quad(a, n, e) == a[i][i];
  }

  /** The conclusion of the Cauchy-Schwarz inequality. */
  predicate Bounded(p: real, q: real, r: real) {
    q * q <= p * r
  }

  ghost predicate NeverNegative(p: real, q: real, r: real) {
    forall t :: Along(p, q, r, t) >= 0.0
  }

  /** A quadratic that is never negative has a nonpositive discriminant. */
  lemma Discriminant(p: real, q: real, r: real)
    requires NeverNegative(p, q, r) && r >= 0.0
    ensures Bounded(p, q, r)
  {
    if r > 0.0 {
      var t := -q / r;
      assert Along(p, q, r, t) >= 0.0;
      AtVertex(p, q, r, t);
    } else if q != 0.0 {
      var t := NegativePoint(p, q);
    }
  }

  lemma NegativePoint(p: real, q: real) returns (t: real)
    requires q != 0.0
    ensures Along(p, q, 0.0, t) < 0.0
  {
    t := (-p - 1.0) / (2.0 * q);
    BelowZero(p, q, t, t * q);
  }

  lemma DivideTimes(x: real, d: real)
    requires d != 0.0
    ensures x / d * d == x
  {
  }

  lemma BelowZero(p: real, q: real, t: real, s: real)
    requires q != 0.0 && t == (-p - 1.0) / (2.0 * q) && s == t * q
    ensures Along(p, q, 0.0, t) < 0.0
  {
    DivideTimes(-p - 1.0, 2.0 * q);
    assert t * (2.0 * q) == 2.0 * s;
    assert Along(p, q, 0.0, t) == p + 2.0 * s;
  }

  lemma AtVertex(p: real, q: real, r: real, t: real)
    requires r > 0.0 && t * r == -q && Along(p, q, r, t) >= 0.0
    ensures q * q <= p * r
  {
    assert t * t * r == t * (t * r) == -(t * q);
    Times(p + t * q, r);
    assert (p + t * q) * r == p * r + (t * r) * q;
  }

  lemma Times(x: real, y: real)
    requires x >= 0.0 && y >= 0.0
    ensures x * y >= 0.0
  {
  }

  lemma NonnegativeAlong(a: Mat, n: nat, x: Vec, y: Vec)
    requires IsPsd(a, n) && |x| == n && |y| == n
    ensures NeverNegative(Quad(a, n, x), Dot(x, MatVec(a, y), n), Quad(a, n, y))
  {
    forall t
      ensures Along(Quad(a, n, x), Dot(x, MatVec(a, y), n), Quad(a, n, y), t) >= 0.0
    {
      QuadAlong(a, n, x, t, y);
      assert Quad(a, n, AddScaled(x, t, y)) >= 0.0;
    }
  }

  lemma CauchySchwarz(a: Mat, n: nat, x: Vec, y: Vec)
    requires IsPsd(a, n) && |x| == n && |y| == n
    ensures Bounded(Quad(a, n, x), Dot(x, MatVec(a, y), n), Quad(a, n, y))
  {
    NonnegativeAlong(a, n, x, y);
    assert Quad(a, n, y) >= 0.0;
    Discriminant(Quad(a, n, x), Dot(x, MatVec(a, y), n), Quad(a, n, y));
  }
}
