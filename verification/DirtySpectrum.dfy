/** When the accepted projections are exact: the truncation of small eigenvalues together with the refusals. */
module DirtySpectrum {
  import opened Prelude
  import opened Vectors
  import opened LeastSquares
  import opened Spectral
  import opened SafeSubspace
  import opened Protection

  /** The combination of the directions with coefficients `y`. */
  ghost function Combination(us: Mat, w: Vec, y: Vec): (b: Vec)
    requires Frame(us, w) && |y| == |us|
    ensures |b| == |w|
  {
    SpanFit(us, w, Zeros(|w|)).Predict(y)
  }

  lemma CombinationOf(us: Mat, w: Vec, b: Vec, y: Vec)
    requires Frame(us, w) && |b| == |w| && |y| == |us|
    ensures SpanFit(us, w, b).Predict(y) == Combination(us, w, y)
  {
  }

  /** Measuring a combination multiplies its coefficients by the Gram matrix. */
  lemma MeasuredCombination(g: Mat, us: Mat, w: Vec, y: Vec)
    requires Frame(us, w) && IsGram(g, us, w) && |y| == |us|
    ensures Measured(us, w, Combination(us, w, y)) == MatVec(g, y)
  {
    var f := SpanFit(us, w, Zeros(|w|));
    GramIsNormal(g, us, w, Zeros(|w|));
    forall i | 0 <= i < |us|
      ensures Measured(us, w, f.Predict(y))[i] == MatVec(g, y)[i]
    {
      NormalEntry(f, g, Measured(us, w, Zeros(|w|)), y, i);
    }
  }

  /** An eigenvector with a kept eigenvalue is divided by it. */
  lemma PseudoKeeps(g: Mat, p: Mat, m: nat, sp: Spectrum, tolerance: real, f: nat, t: real, c: real)
    requires IsEigenbasis(g, m, sp) && tolerance >= 0.0 && f < m && sp.values[f] > tolerance
    requires IsPseudoinverse(p, m, sp, tolerance) && c == Mul(t, sp.values[f])
    ensures MatVec(p, Scaled(c, sp.vectors[f])) == Scaled(t, sp.vectors[f])
  {
    PseudoApplied(p, m, sp, tolerance, Scaled(c, sp.vectors[f]));
    KeptCoefficients(sp.vectors, m, sp.values, tolerance, f, t, c);
    CombineUnit(sp.vectors, m, f, t);
  }

  lemma KeptCoefficients(v: Mat, m: nat, values: Vec, tolerance: real, f: nat, t: real, c: real)
    requires Orthogonal(v, m) && |values| == m && tolerance >= 0.0 && f < m && values[f] > tolerance
    requires c == Mul(t, values[f])
    ensures Weighted(InverseWeights(values, tolerance), MatVec(v, Scaled(c, v[f]))) == Scaled(t, Unit(m, f))
  {
    var s, x := InverseWeights(values, tolerance), MatVec(v, Scaled(c, v[f]));
    var z, unit := Weighted(s, x), Scaled(t, Unit(m, f));
    forall h | 0 <= h < m
      ensures z[h] == unit[h]
    {
      assert Dot(v[h], v[f], m) == Delta(h, f);
      KeptCoefficient(v, m, values, tolerance, f, t, c, h);
    }
  }

  lemma KeptCoefficient(v: Mat, m: nat, values: Vec, tolerance: real, f: nat, t: real, c: real, h: nat)
    requires Rows(v, m, m) && |values| == m && tolerance >= 0.0 && f < m && values[f] > tolerance && h < m
    requires c == Mul(t, values[f]) && Dot(v[h], v[f], m) == Delta(h, f)
    ensures Weighted(InverseWeights(values, tolerance), MatVec(v, Scaled(c, v[f])))[h] == Scaled(t, Unit(m, f))[h]
  {
    var s, x := InverseWeights(values, tolerance), MatVec(v, Scaled(c, v[f]));
    DotScaled(c, v[f], v[h], m);
    Divided(s[h], values[f], t, c, x[h], Dot(v[h], v[f], m), h == f, Weighted(s, x)[h]);
    UnitEntry(t, m, f, h);
  }

  lemma UnitEntry(t: real, m: nat, f: nat, h: nat)
    requires f < m && h < m
    ensures Scaled(t, Unit(m, f))[h] == if h == f then t else 0.0
  {
  }

  lemma Divided(s: real, lambda: real, t: real, c: real, x: real, d: real, same: bool, z: real)
    requires lambda != 0.0 && c == Mul(t, lambda) && x == Mul(c, d)
    requires (if same then d == 1.0 && s == 1.0 / lambda else d == 0.0) && z == s * x
    ensures z == if same then t else 0.0
  {
    if same {
      assert s * lambda == 1.0;
      assert s * (t * lambda) == t * (s * lambda);
    }
  }

  lemma CombineUnit(v: Mat, m: nat, f: nat, t: real)
    requires Rows(v, m, m) && f < m
    ensures Combine(v, m, Scaled(t, Unit(m, f))) == Scaled(t, v[f])
  {
    var columns := Transpose(v, m, m);
    forall i | 0 <= i < m
      ensures Combine(v, m, Scaled(t, Unit(m, f)))[i] == Scaled(t, v[f])[i]
    {
      DotScaled(t, Unit(m, f), columns[i], m);
      DotUnit(columns[i], m, f, m);
      assert columns[i][f] == v[f][i];
    }
  }

  // ----- an update with a dropped and a kept part

  /** A dropped eigenvector plus `t` times a kept one. */
  ghost function Mixed(sp: Spectrum, e: nat, f: nat, t: real): (y: Vec)
    requires e < |sp.vectors| && f < |sp.vectors| && |sp.vectors[e]| == |sp.vectors[f]|
    ensures |y| == |sp.vectors[e]|
  {
    Add(sp.vectors[e], Scaled(t, sp.vectors[f]))
  }

  lemma MixedImage(g: Mat, m: nat, sp: Spectrum, e: nat, f: nat, t: real, c: real)
    requires IsEigenbasis(g, m, sp) && e < m && f < m && c == Mul(t, sp.values[f])
    ensures MatVec(g, Mixed(sp, e, f, t)) == Add(Scaled(sp.values[e], sp.vectors[e]), Scaled(c, sp.vectors[f]))
  {
    MatVecAdd(g, sp.vectors[e], Scaled(t, sp.vectors[f]));
    ScaledImage(g, m, sp.vectors[f], sp.values[f], t, c);
  }

  lemma ScaledImage(g: Mat, m: nat, v: Vec, lambda: real, t: real, c: real)
    requires Rows(g, m, m) && |v| == m && MatVec(g, v) == Scaled(lambda, v) && c == Mul(t, lambda)
    ensures MatVec(g, Scaled(t, v)) == Scaled(c, v)
  {
    forall i | 0 <= i < m
      ensures MatVec(g, Scaled(t, v))[i] == Scaled(c, v)[i]
    {
      DotScaled(t, v, g[i], m);
      Regroup(t, lambda, c, v[i], MatVec(g, v)[i], MatVec(g, Scaled(t, v))[i], Scaled(c, v)[i]);
    }
  }

  lemma Regroup(t: real, lambda: real, c: real, x: real, d: real, e: real, z: real)
    requires c == Mul(t, lambda) && d == lambda * x && e == Mul(t, d) && z == c * x
    ensures e == z
  {
    assert t * (lambda * x) == (t * lambda) * x;
  }

  /** The kept part is removed exactly, the dropped part not at all. */
  lemma MixedLeaves(g: Mat, us: Mat, w: Vec, sp: Spectrum, p: Mat, tolerance: real, e: nat, f: nat, t: real)
    requires Frame(us, w) && IsGram(g, us, w) && IsEigenbasis(g, |us|, sp) && tolerance >= 0.0
    requires IsPseudoinverse(p, |us|, sp, tolerance)
    requires e < |us| && sp.values[e] <= tolerance && f < |us| && sp.values[f] > tolerance
    ensures Project(us, w, Combination(us, w, Mixed(sp, e, f, t)), p) == Combination(us, w, sp.vectors[e])
  {
    var b := Combination(us, w, Mixed(sp, e, f, t));
    MeasuredCombination(g, us, w, Mixed(sp, e, f, t));
    MixedCoefficients(g, p, |us|, sp, tolerance, e, f, t);
    CombinationOf(us, w, b, Scaled(t, sp.vectors[f]));
    RemoveKept(us, w, sp.vectors[e], Scaled(t, sp.vectors[f]));
  }

  /** The coefficients the code subtracts: those of the kept part. */
  lemma MixedCoefficients(g: Mat, p: Mat, m: nat, sp: Spectrum, tolerance: real, e: nat, f: nat, t: real)
    requires IsEigenbasis(g, m, sp) && tolerance >= 0.0 && IsPseudoinverse(p, m, sp, tolerance)
    requires e < m && sp.values[e] <= tolerance && f < m && sp.values[f] > tolerance
    ensures MatVec(p, MatVec(g, Mixed(sp, e, f, t))) == Scaled(t, sp.vectors[f])
  {
    var c := Mul(t, sp.values[f]);
    MixedImage(g, m, sp, e, f, t, c);
    MatVecAdd(p, Scaled(sp.values[e], sp.vectors[e]), Scaled(c, sp.vectors[f]));
    PseudoDrops(g, p, m, sp, tolerance, e, sp.values[e]);
    PseudoKeeps(g, p, m, sp, tolerance, f, t, c);
    ZerosPlus(Scaled(t, sp.vectors[f]));
  }

  lemma ZerosPlus(x: Vec)
    ensures Add(Zeros(|x|), x) == x
  {
  }

  lemma RemoveKept(us: Mat, w: Vec, y: Vec, z: Vec)
    requires Frame(us, w) && |y| == |z| == |us|
    ensures Sub(Combination(us, w, Add(y, z)), Combination(us, w, z)) == Combination(us, w, y)
  {
    MatVecAdd(SpanFit(us, w, Zeros(|w|)).xs, y, z);
  }

  /** What the directions see of the part that is left. */
  lemma LeftOver(g: Mat, us: Mat, w: Vec, sp: Spectrum, e: nat)
    requires Frame(us, w) && IsGram(g, us, w) && IsEigenbasis(g, |us|, sp) && e < |us|
    ensures Measured(us, w, Combination(us, w, sp.vectors[e])) == Scaled(sp.values[e], sp.vectors[e])
    ensures sp.values[e] != 0.0 ==> !Orthogonalised(us, w, Combination(us, w, sp.vectors[e]))
  {
    MeasuredEigen(g, us, w, sp, e);
    if sp.values[e] != 0.0 {
      EigenNonzero(sp, |us|, e);
      SeenMeansLeft(us, w, Combination(us, w, sp.vectors[e]));
    }
  }

  lemma SeenMeansLeft(us: Mat, w: Vec, x: Vec)
    requires Frame(us, w) && |x| == |w| && Measured(us, w, x) != Zeros(|us|)
    ensures !Orthogonalised(us, w, x)
  {
    var r, z := Measured(us, w, x), Zeros(|us|);
    var j :| 0 <= j < |us| && r[j] != z[j];
  }

  // ----- the energy of the mixed update

  lemma CombinationEnergy(g: Mat, us: Mat, w: Vec, y: Vec, b: Vec)
    requires Frame(us, w) && IsGram(g, us, w) && |y| == |us| && b == Combination(us, w, y)
    ensures Wdot(b, b, w) == Dot(y, MatVec(g, y), |us|)
  {
    var fit := SpanFit(us, w, Zeros(|w|));
    GramIsNormal(g, us, w, Zeros(|w|));
    NormalForm(fit, g, Measured(us, w, Zeros(|w|)), y, y);
  }

  /** The kept part has energy proportional to its square. */
  lemma MixedEnergy(g: Mat, us: Mat, w: Vec, sp: Spectrum, e: nat, f: nat, t: real, b: Vec)
    requires Frame(us, w) && IsGram(g, us, w) && IsEigenbasis(g, |us|, sp) && e < |us| && f < |us| && e != f
    requires b == Combination(us, w, Mixed(sp, e, f, t))
    ensures Wdot(b, b, w) >= Twice(t, sp.values[f])
  {
    var c := Mul(t, sp.values[f]);
    CombinationEnergy(g, us, w, Mixed(sp, e, f, t), b);
    MixedImage(g, |us|, sp, e, f, t, c);
    EigenEnergy(g, us, w, Zeros(|w|), sp, e);
    FormOfMixed(sp.vectors[e], sp.vectors[f], |us|, sp.values[e], sp.values[f], t, c);
  }

  lemma FormOfMixed(a: Vec, z: Vec, m: nat, alpha: real, beta: real, t: real, c: real)
    requires |a| == |z| == m && Dot(a, a, m) == 1.0 && Dot(z, z, m) == 1.0
    requires Dot(a, z, m) == 0.0 && Dot(z, a, m) == 0.0 && c == Mul(t, beta)
    ensures Dot(Add(a, Scaled(t, z)), Add(Scaled(alpha, a), Scaled(c, z)), m) == alpha + Twice(t, beta)
  {
    var right := Add(Scaled(alpha, a), Scaled(c, z));
    DotAdd(a, Scaled(t, z), right, m);
    DotAdd(Scaled(alpha, a), Scaled(c, z), a, m);
    DotAdd(Scaled(alpha, a), Scaled(c, z), z, m);
    DotScaled(alpha, a, a, m);
    DotScaled(alpha, a, z, m);
    DotScaled(c, z, a, m);
    DotScaled(c, z, z, m);
    ScaledLeft(t, z, right, m);
  }

  // ----- the update that is braked to a given step

  function Unbrake(b: Vec, w: Vec): (delta: Vec)
    requires |w| == |b|
    ensures |delta| == |b| && forall k | 0 <= k < |b| :: delta[k] == Mul(b[k], 1.0 + w[k])
  {
    seq(|b|, k requires 0 <= k < |b| => Mul(b[k], 1.0 + w[k]))
  }

  lemma BrakeUnbraked(b: Vec, w: Vec)
    requires |w| == |b| && forall k | 0 <= k < |w| :: w[k] >= 0.0
    ensures Brake(Unbrake(b, w), w) == b
  {
    forall k | 0 <= k < |b|
      ensures Brake(Unbrake(b, w), w)[k] == b[k]
    {
      TimesOver(b[k], 1.0 + w[k]);
    }
  }

  lemma TimesOver(x: real, d: real)
    requires d > 0.0
    ensures Mul(x, d) / d == x
  {
  }

  /** The update has at least the energy of the braked step. */
  lemma {:induction false} UnbrakedEnergy(b: Vec, w: Vec, delta: Vec, k: nat)
    requires |w| == |b| && delta == Unbrake(b, w) && k <= |b| && forall j | 0 <= j < |w| :: w[j] >= 0.0
    ensures Dot(delta, Weighted(w, delta), k) >= Dot(b, Weighted(w, b), k)
  {
    if k > 0 {
      UnbrakedEnergy(b, w, delta, k - 1);
      DotTerm(w, delta, delta, k - 1);
      DotTerm(w, b, b, k - 1);
      TermGrows(b[k-1], w[k-1], delta[k-1]);
    }
  }

  lemma TermGrows(b: real, w: real, d: real)
    requires w >= 0.0 && d == Mul(b, 1.0 + w)
    ensures Term(d, w, d) >= Term(b, w, b)
  {
    var extra := b * w;
    assert d == b + extra;
    var q := b * extra;
    assert q == (b * b) * w;
    Times(b * b, w);
    assert d * d == b * b + 2.0 * q + extra * extra;
    Times(w, d * d - b * b);
    assert d * (w * d) == w * (d * d) && b * (w * b) == w * (b * b);
  }

  // ----- passing the residual test

  /** Some factor raises every cap above its number. */
  lemma {:induction false} EnoughScale(nums: Vec, caps: Vec, k: nat) returns (scale: real)
    requires |nums| == |caps| && k <= |nums| && forall j | 0 <= j < |caps| :: caps[j] > 0.0
    ensures scale >= 0.0 && forall j | 0 <= j < k :: nums[j] <= Mul(caps[j], scale)
  {
    scale := 0.0;
    if k > 0 {
      var before := EnoughScale(nums, caps, k - 1);
      var q := nums[k-1] / caps[k-1];
      scale := Max(before, q);
      forall j | 0 <= j < k
        ensures nums[j] <= Mul(caps[j], scale)
      {
        RaisesCap(caps[j], if j < k - 1 then before else q, scale);
        assert j == k - 1 ==> Mul(caps[j], q) == nums[j];
      }
    }
  }

  lemma RaisesCap(cap: real, x: real, y: real)
    requires cap > 0.0 && x <= y
    ensures Mul(cap, x) <= Mul(cap, y)
  {
    Times(cap, y - x);
  }

  lemma SmallRelative(sqrt: real -> real, w: Vec, u: Vec, x: Vec, reference: real, scale: real, bound: real)
    requires IsSqrt(sqrt) && |u| == |x| == |w| && 0.0 <= scale <= reference && bound >= 0.0
    requires Wdot(u, u, w) > 0.0 && Abs(Wdot(u, x, w)) <= Mul(Mul(bound, sqrt(Wdot(u, u, w))), scale)
    ensures Relative(sqrt, w, u, x, reference) <= bound
  {
    RootPositive(sqrt, Wdot(u, u, w));
    if reference > 0.0 {
      QuotientSmall(Relative(sqrt, w, u, x, reference), reference, sqrt(Wdot(u, u, w)), Abs(Wdot(u, x, w)), scale,
        bound);
    }
  }

  lemma QuotientSmall(r: real, reference: real, s: real, num: real, scale: real, bound: real)
    requires reference > 0.0 && s > 0.0 && r * (reference * s) == num && 0.0 <= scale <= reference && bound >= 0.0
    requires num <= Mul(Mul(bound, s), scale)
    ensures r <= bound
  {
    Times(bound, s);
    Times(bound * s, reference - scale);
    assert num <= bound * (reference * s);
    if r > bound {
      Positive(reference, s, reference * s);
      Positive(r - bound, reference * s, (r - bound) * (reference * s));
    }
  }

  lemma {:induction false} WorstSmall(sqrt: real -> real, us: Mat, w: Vec, x: Vec, reference: real, bound: real, k: nat)
    requires Frame(us, w) && |x| == |w| && reference >= 0.0 && k <= |us| && bound >= 0.0
    requires forall j | 0 <= j < k :: Relative(sqrt, w, us[j], x, reference) <= bound
    ensures Worst(sqrt, us, w, x, reference, k) <= bound
  {
    if k > 0 {
      WorstSmall(sqrt, us, w, x, reference, bound, k - 1);
    }
  }

  /** The scale the caps ask for: the residual test then passes for any update of at least that length. */
  lemma LongUpdatePasses(sqrt: real -> real, us: Mat, w: Vec, x: Vec, bound: real) returns (scale: real)
    requires IsSqrt(sqrt) && Frame(us, w) && |x| == |w| && Observable(us, w) && bound > 0.0
    ensures scale >= 0.0
    ensures forall reference | reference >= scale :: Worst(sqrt, us, w, x, reference, |us|) <= bound
  {
    var m := |us|;
    forall j | 0 <= j < m
      ensures Wdot(us[j], us[j], w) > 0.0 && sqrt(Wdot(us[j], us[j], w)) > 0.0
    {
      WeightedNonneg(w, us[j], |w|);
      RootPositive(sqrt, Wdot(us[j], us[j], w));
    }
    var nums := seq(m, j requires 0 <= j < m => Abs(Wdot(us[j], x, w)));
    var caps := seq(m, j requires 0 <= j < m => Mul(bound, sqrt(Wdot(us[j], us[j], w))));
    forall j | 0 <= j < m
      ensures caps[j] > 0.0
    {
      Positive(bound, sqrt(Wdot(us[j], us[j], w)), caps[j]);
    }
    scale := EnoughScale(nums, caps, m);
    forall reference | reference >= scale
      ensures Worst(sqrt, us, w, x, reference, m) <= bound
    {
      forall j | 0 <= j < m
        ensures Relative(sqrt, w, us[j], x, reference) <= bound
      {
        assert nums[j] <= Mul(caps[j], scale);
        SmallRelative(sqrt, w, us[j], x, reference, scale, bound);
      }
      WorstSmall(sqrt, us, w, x, reference, bound, m);
    }
  }

  // ----- the accepted update that is not orthogonal

  /** How much of the kept eigenvector makes the energy reach a square. */
  lemma ReachesSquare(sqrt: real -> real, lambda: real, scale: real) returns (t: real)
    requires IsSqrt(sqrt) && lambda > 0.0
    ensures Twice(t, lambda) == scale * scale
  {
    RootPositive(sqrt, lambda);
    var root := sqrt(lambda);
    t := scale / root;
    assert t * root == scale;
    assert root * root == lambda;
    Shuffle(t, root);
  }

  lemma Shuffle(t: real, root: real)
    ensures Twice(t, root * root) == (t * root) * (t * root)
  {
  }

  lemma LongEnough(sqrt: real -> real, energy: real, scale: real)
    requires IsSqrt(sqrt) && scale >= 0.0 && energy >= scale * scale
    ensures sqrt(energy) >= scale
  {
    Times(scale, scale);
    SquaresOrder(scale, sqrt(energy));
  }

  lemma TolerancePositive(sqrt: real -> real, m: nat)
    requires IsSqrt(sqrt)
    ensures ResidualTolerance(sqrt, m) > 0.0
  {
    RootPositive(sqrt, Max(m as real, 1.0));
    Positive(ROOT, sqrt(Max(m as real, 1.0)), ROOT * sqrt(Max(m as real, 1.0)));
  }

  /** With an eigenvalue in (0, tolerance] beside a kept one, some update is accepted and is not orthogonal: the
      dropped eigenvector's combination, carried by enough of the kept one's. */
  lemma DirtyAccepted(eigen: Mat -> Spectrum, sqrt: real -> real, us: Mat, w: Vec, e: nat, f: nat)
    returns (delta: Vec)
    requires Diagonalises(eigen) && IsSqrt(sqrt) && Frame(us, w) && Observable(us, w)
    requires e < |us| && f < |us|
    requires var sp := GramSpectrum(eigen, us, w);
             var tolerance := GramTolerance(sp.values);
             0.0 < sp.values[e] <= tolerance && sp.values[f] > tolerance
    ensures |delta| == |w| && Accepts(eigen, sqrt, us, w, delta, Brake(delta, w))
    ensures !Orthogonalised(us, w, Left(eigen, us, w, Brake(delta, w)))
  {
    var sp, g := GramSpectrum(eigen, us, w), Gram(us, w);
    var tolerance := GramTolerance(sp.values);
    var p := Truncated(|us|, sp, tolerance);
    var x := Combination(us, w, sp.vectors[e]);
    TolerancePositive(sqrt, |us|);
    var scale := LongUpdatePasses(sqrt, us, w, x, ResidualTolerance(sqrt, |us|));
    var t := ReachesSquare(sqrt, sp.values[f], scale);
    var b := Combination(us, w, Mixed(sp, e, f, t));
    delta := Unbrake(b, w);
    BrakeUnbraked(b, w);
    MixedLeaves(g, us, w, sp, p, tolerance, e, f, t);
    assert Left(eigen, us, w, b) == x;
    LeftOver(g, us, w, sp, e);
    MixedEnergy(g, us, w, sp, e, f, t, b);
    UnbrakedEnergy(b, w, delta, |w|);
    LongEnough(sqrt, Wdot(delta, delta, w), scale);
    SomeKept(sp.values, tolerance, |us|, f);
  }

  lemma {:induction false} SomeKept(values: Vec, tolerance: real, k: nat, f: nat)
    requires f < k <= |values| && values[f] > tolerance
    ensures Kept(values, tolerance, k) > 0
  {
    if f < k - 1 {
      SomeKept(values, tolerance, k - 1, f);
    }
  }

  lemma {:induction false} KeptOne(values: Vec, tolerance: real, k: nat) returns (f: nat)
    requires k <= |values| && Kept(values, tolerance, k) > 0
    ensures f < k && values[f] > tolerance
  {
    if values[k-1] > tolerance {
      f := k - 1;
    } else {
      f := KeptOne(values, tolerance, k - 1);
    }
  }

  // ----- the exact condition

  /** Every accepted update leaves something orthogonal to every direction. */
  ghost predicate AlwaysExact(eigen: Mat -> Spectrum, sqrt: real -> real, us: Mat, w: Vec)
    requires Diagonalises(eigen) && IsSqrt(sqrt) && Frame(us, w)
  {
    forall delta: Vec {:trigger Brake(delta, w)} |
      |delta| == |w| && Accepts(eigen, sqrt, us, w, delta, Brake(delta, w)) ::
      Orthogonalised(us, w, Left(eigen, us, w, Brake(delta, w)))
  }

  /** Exactly when some direction cannot be observed, nothing is kept, or no eigenvalue lies in (0, tolerance]: the
      first two refuse every update, the third makes every projection exact. */
  lemma AcceptedExactIff(eigen: Mat -> Spectrum, sqrt: real -> real, us: Mat, w: Vec)
    requires Diagonalises(eigen) && IsSqrt(sqrt) && Frame(us, w)
    ensures AlwaysExact(eigen, sqrt, us, w)
       <==> !Observable(us, w) || Rank(eigen, us, w) == 0 || CleanGram(eigen, us, w)
  {
    var sp := GramSpectrum(eigen, us, w);
    var tolerance := GramTolerance(sp.values);
    if CleanGram(eigen, us, w) {
      forall delta: Vec | |delta| == |w|
        ensures Orthogonalised(us, w, Left(eigen, us, w, Brake(delta, w)))
      {
        ExactIffClean(Gram(us, w), us, w, sp, Truncated(|us|, sp, tolerance), tolerance);
      }
    } else if Observable(us, w) && Rank(eigen, us, w) > 0 {
      var e: nat :| e < |us| && 0.0 < sp.values[e] <= tolerance;
      var f := KeptOne(sp.values, tolerance, |us|);
      var delta := DirtyAccepted(eigen, sqrt, us, w, e, f);
    }
  }

  /** What an accepted call leaves of `delta` is orthogonal to every active direction. */
  ghost predicate LeavesOrthogonal(eigen: Mat -> Spectrum, delta: Vec, cortex: Cortex)
    requires Diagonalises(eigen) && ValidInput(delta, cortex)
  {
    InputFrame(delta, cortex);
    var us, w := Active(cortex.directions), cortex.importance;
    Orthogonalised(us, w, Left(eigen, us, w, Brake(delta, w)))
  }

  /** The whole call, for every valid cortex: all accepted updates come out orthogonal under the same condition on its
      directions and its metric. */
  lemma CortexExactIff(eigen: Mat -> Spectrum, sqrt: real -> real, cortex: Cortex)
    requires Diagonalises(eigen) && IsSqrt(sqrt) && ValidInput(Zeros(|cortex.importance|), cortex)
    ensures Frame(Active(cortex.directions), cortex.importance)
    ensures (forall delta | Passes(eigen, sqrt, delta, cortex) :: LeavesOrthogonal(eigen, delta, cortex))
       <==> var us, w := Active(cortex.directions), cortex.importance;
            !Observable(us, w) || Rank(eigen, us, w) == 0 || CleanGram(eigen, us, w)
  {
    var us, w := Active(cortex.directions), cortex.importance;
    InputFrame(Zeros(|w|), cortex);
    AcceptedExactIff(eigen, sqrt, us, w);
    if AlwaysExact(eigen, sqrt, us, w) {
      forall delta | Passes(eigen, sqrt, delta, cortex)
        ensures LeavesOrthogonal(eigen, delta, cortex)
      {
        PassedLeaves(eigen, sqrt, delta, cortex);
      }
    } else {
      var delta: Vec :| |delta| == |w| && Accepts(eigen, sqrt, us, w, delta, Brake(delta, w))
        && !Orthogonalised(us, w, Left(eigen, us, w, Brake(delta, w)));
      AcceptedPasses(eigen, sqrt, delta, cortex);
    }
  }

  lemma PassedLeaves(eigen: Mat -> Spectrum, sqrt: real -> real, delta: Vec, cortex: Cortex)
    requires Diagonalises(eigen) && IsSqrt(sqrt) && Passes(eigen, sqrt, delta, cortex)
    requires Frame(Active(cortex.directions), cortex.importance)
    requires AlwaysExact(eigen, sqrt, Active(cortex.directions), cortex.importance)
    ensures ValidInput(delta, cortex) && LeavesOrthogonal(eigen, delta, cortex)
  {
  }

  lemma AcceptedPasses(eigen: Mat -> Spectrum, sqrt: real -> real, delta: Vec, cortex: Cortex)
    requires Diagonalises(eigen) && IsSqrt(sqrt) && ValidInput(Zeros(|cortex.importance|), cortex)
    requires Frame(Active(cortex.directions), cortex.importance) && |delta| == |cortex.importance|
    requires Accepts(eigen, sqrt, Active(cortex.directions), cortex.importance, delta, Brake(delta, cortex.importance))
    ensures Passes(eigen, sqrt, delta, cortex)
    ensures LeavesOrthogonal(eigen, delta, cortex) <==>
            Orthogonalised(Active(cortex.directions), cortex.importance,
              Left(eigen, Active(cortex.directions), cortex.importance, Brake(delta, cortex.importance)))
  {
  }
}
