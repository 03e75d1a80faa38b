/** `project_to_safe_subspace`: brake, project off the protected directions, account for what was removed. */
module Protection {
  import opened Prelude
  import opened Vectors
  import opened LeastSquares
  import opened Spectral
  import opened SafeSubspace

  datatype Direction = Direction(direction: Vec, importance: real)

  datatype Cortex = Cortex(directions: seq<Direction>, importance: Vec, maxDamage: real)

  datatype Outcome = Outcome(projected: Vec, damage: real, allowed: bool, removedEnergy: real, rank: nat,
      maxResidual: real)

  predicate ValidInput(delta: Vec, cortex: Cortex) {
    && delta != [] && |cortex.importance| == |delta| && cortex.maxDamage >= 0.0
    && (forall k | 0 <= k < |delta| :: cortex.importance[k] >= 0.0)
    && (forall i | 0 <= i < |cortex.directions| ::
          |cortex.directions[i].direction| == |delta| && 0.0 <= cortex.directions[i].importance <= 1.0)
  }

  /** The directions with positive importance, in order. */
  function Active(ds: seq<Direction>): Mat {
    if ds == [] then [] else (if ds[0].importance > 0.0 then [ds[0].direction] else []) + Active(ds[1..])
  }

  lemma {:induction false} ActiveRows(ds: seq<Direction>, n: nat)
    requires forall i | 0 <= i < |ds| :: |ds[i].direction| == n
    ensures Rows(Active(ds), |Active(ds)|, n)
  {
    if ds != [] {
      ActiveRows(ds[1..], n);
    }
  }

  lemma {:induction false} ActiveMember(ds: seq<Direction>, i: nat)
    requires i < |ds| && ds[i].importance > 0.0
    ensures ds[i].direction in Active(ds)
  {
    if i > 0 {
      ActiveMember(ds[1..], i - 1);
    }
  }

  /** Each coordinate divided by one plus its importance. */
  function Brake(delta: Vec, w: Vec): (b: Vec)
    requires |w| == |delta| && forall k | 0 <= k < |w| :: w[k] >= 0.0
    ensures |b| == |delta| && forall k | 0 <= k < |b| :: b[k] == delta[k] / (1.0 + w[k])
  {
    seq(|delta|, k requires 0 <= k < |delta| => delta[k] / (1.0 + w[k]))
  }

  /** Every direction has energy in the metric. */
  predicate Observable(us: Mat, w: Vec)
    requires Frame(us, w)
  {
    forall i | 0 <= i < |us| :: Wdot(us[i], us[i], w) != 0.0
  }

  ghost function Gram(us: Mat, w: Vec): (g: Mat)
    requires Frame(us, w)
    ensures IsGram(g, us, w)
  {
    seq(|us|, i requires 0 <= i < |us| => seq(|us|, j requires 0 <= j < |us| => Wdot(us[i], us[j], w)))
  }

  /** What the eigen-decomposition kernel promises. */
  ghost predicate Diagonalises(eigen: Mat -> Spectrum) {
    forall g: Mat {:trigger eigen(g)} :: Symmetric(g, |g|) ==> IsEigenbasis(g, |g|, eigen(g))
  }

  lemma GramDecomposed(eigen: Mat -> Spectrum, us: Mat, w: Vec)
    requires Diagonalises(eigen) && Frame(us, w)
    ensures IsEigenbasis(Gram(us, w), |us|, eigen(Gram(us, w)))
  {
    var g := Gram(us, w);
    GramIsNormal(g, us, w, Zeros(|w|));
    NormalIsSymmetric(SpanFit(us, w, Zeros(|w|)), g, Measured(us, w, Zeros(|w|)));
  }

  /** The largest magnitude among the first `k` values, at least zero. */
  function Largest(values: Vec, k: nat): (s: real)
    requires k <= |values|
    ensures s >= 0.0
  {
    if k == 0 then 0.0 else Max(Largest(values, k - 1), Abs(values[k-1]))
  }

  /** Eigenvalues at or below this are dropped. */
  function GramTolerance(values: Vec): (t: real)
    ensures t >= 0.0
  {
    var scale := Max(Largest(values, |values|), 1.0);
    Times(ROOT * scale, Max(|values| as real, 1.0));
    ROOT * scale * Max(|values| as real, 1.0)
  }

  lemma GramEntry(us: Mat, w: Vec, i: nat, j: nat)
    requires Frame(us, w) && i < |us| && j < |us|
    ensures Gram(us, w)[i][j] == Gram(us, w)[j][i] == Wdot(us[i], us[j], w)
  {
    WdotComm(us[i], us[j], w);
  }

  /** Row `i` of the upper half, and its mirror image. */
  method FillGram(us: Mat, w: Vec, gram: array2<real>, i: nat, ghost whole: Mat)
    requires Frame(us, w) && gram.Length0 == gram.Length1 == |us| && i < |us| && whole == Gram(us, w)
    requires forall p, q | 0 <= p < |us| && 0 <= q < |us| && (p < i || q < i) :: gram[p, q] == whole[p][q]
    modifies gram
    ensures forall p, q | 0 <= p < |us| && 0 <= q < |us| && (p <= i || q <= i) :: gram[p, q] == whole[p][q]
  {
    for j := i to |us|
      invariant forall p, q | 0 <= p < |us| && 0 <= q < |us| && (p < i || q < i) :: gram[p, q] == whole[p][q]
      invariant forall q | i <= q < j :: gram[i, q] == whole[i][q] && gram[q, i] == whole[q][i]
    {
      var value := Wdot(us[i], us[j], w);
      GramEntry(us, w, i, j);
      gram[i, j] := value;
      gram[j, i] := value;
    }
  }

  method BuildGram(us: Mat, w: Vec) returns (g: Mat)
    requires Frame(us, w)
    ensures g == Gram(us, w)
  {
    var m := |us|;
    var gram := new real[m, m]((_, _) => 0.0);
    ghost var whole := Gram(us, w);
    for i := 0 to m
      invariant forall p, q | 0 <= p < m && 0 <= q < m && (p < i || q < i) :: gram[p, q] == whole[p][q]
    {
      FillGram(us, w, gram, i, whole);
    }
    g := AsMat(gram);
    SameMatrix(g, Gram(us, w), m);
  }

  lemma SameMatrix(a: Mat, b: Mat, m: nat)
    requires Rows(a, m, m) && Rows(b, m, m)
    requires forall i, j | 0 <= i < m && 0 <= j < m :: a[i][j] == b[i][j]
    ensures a == b
  {
    forall i | 0 <= i < m
      ensures a[i] == b[i]
    {
    }
  }

  /** How many of the first `k` eigenvalues are kept. */
  function Kept(values: Vec, tolerance: real, k: nat): nat
    requires k <= |values|
  {
    if k == 0 then 0 else Kept(values, tolerance, k - 1) + if values[k-1] <= tolerance then 0 else 1
  }

  /** Entries (i, j) accumulated over the first `k` eigenpairs. */
  ghost predicate Accumulated(p: array2<real>, m: nat, sp: Spectrum, tolerance: real, k: nat)
    requires Rows(sp.vectors, m, m) && |sp.values| == m && tolerance >= 0.0 && k <= m
    reads p
  {
    && p.Length0 == p.Length1 == m
    && (forall i, j | 0 <= i < m && 0 <= j < m :: p[i, j] == PseudoEntry(m, sp, tolerance, i, j, k))
  }

  method AddEigenpair(p: array2<real>, m: nat, sp: Spectrum, tolerance: real, k: nat)
    requires Rows(sp.vectors, m, m) && |sp.values| == m && tolerance >= 0.0 && k < m
    requires Accumulated(p, m, sp, tolerance, k) && sp.values[k] > tolerance
    modifies p
    ensures Accumulated(p, m, sp, tolerance, k + 1)
  {
    for i := 0 to m
      invariant forall a, b | 0 <= a < m && 0 <= b < m ::
                  p[a, b] == PseudoEntry(m, sp, tolerance, a, b, if a < i then k + 1 else k)
    {
      for j := 0 to m
        invariant forall a, b | 0 <= a < m && 0 <= b < m ::
                    p[a, b] == PseudoEntry(m, sp, tolerance, a, b, if a < i || (a == i && b < j) then k + 1 else k)
      {
        PseudoStep(m, sp, tolerance, i, j, k);
        p[i, j] := p[i, j] + sp.vectors[k][i] * sp.vectors[k][j] / sp.values[k];
      }
    }
  }

  method BuildPseudoinverse(m: nat, sp: Spectrum, tolerance: real) returns (r: Mat, rank: nat)
    requires Rows(sp.vectors, m, m) && |sp.values| == m && tolerance >= 0.0
    ensures IsPseudoinverse(r, m, sp, tolerance) && rank == Kept(sp.values, tolerance, m)
  {
    var p := new real[m, m]((_, _) => 0.0);
    rank := 0;
    for k := 0 to m
      invariant Accumulated(p, m, sp, tolerance, k) && rank == Kept(sp.values, tolerance, k)
    {
      if sp.values[k] <= tolerance {
        forall i, j | 0 <= i < m && 0 <= j < m
          ensures PseudoEntry(m, sp, tolerance, i, j, k + 1) == PseudoEntry(m, sp, tolerance, i, j, k)
        {
          PseudoStep(m, sp, tolerance, i, j, k);
        }
        continue;
      }
      rank := rank + 1;
      AddEigenpair(p, m, sp, tolerance, k);
    }
    r := AsMat(p);
  }

  // ----- removing the protected part

  /** Subtract the combination of the directions, one direction at a time. */
  method Subtract(us: Mat, w: Vec, b: Vec, c: Vec) returns (x: Vec)
    requires Frame(us, w) && |b| == |w| && |c| == |us|
    ensures x == Remainder(us, w, b, c)
  {
    var n := |b|;
    ghost var t := Transpose(us, |us|, n);
    var braked := new real[n](k requires 0 <= k < n => b[k]);
    for i := 0 to |us|
      invariant forall k | 0 <= k < n :: braked[k] == b[k] - Dot(t[k], c, i)
    {
      for k := 0 to n
        invariant forall q | 0 <= q < n :: braked[q] == b[q] - Dot(t[q], c, if q < k then i + 1 else i)
      {
        braked[k] := braked[k] - c[i] * us[i][k];
      }
    }
    x := braked[..];
    assert forall k | 0 <= k < n :: x[k] == Remainder(us, w, b, c)[k];
  }

  /** The residual of one direction, relative to the proposal and to the direction. */
  function Residual(numerator: real, reference: real, energy: real): (r: real)
    requires energy > 0.0 && reference >= 0.0 && numerator >= 0.0
    ensures r >= 0.0
    ensures reference > 0.0 ==> r * (reference * energy) == numerator
  {
    if reference == 0.0 then 0.0
    else
      Positive(reference, energy, reference * energy);
      QuotientNonneg(numerator, reference * energy);
      numerator / (reference * energy)
  }

  lemma QuotientNonneg(a: real, d: real)
    requires a >= 0.0 && d > 0.0
    ensures a / d >= 0.0
    ensures a / d * d == a
  {
  }

  /** Direction `u` sees at most `bound` of the proposal, in units of both energies. */
  predicate WithinBound(sqrt: real -> real, w: Vec, u: Vec, x: Vec, reference: real, bound: real) {
    && |u| == |x| == |w|
    && (reference > 0.0 ==> Abs(Wdot(u, x, w)) <= bound * (reference * sqrt(Wdot(u, u, w))))
  }

  lemma NonzeroSquare(r: real, x: real)
    requires r * r == x && x > 0.0
    ensures r != 0.0
  {
  }

  lemma RootPositive(sqrt: real -> real, x: real)
    requires IsSqrt(sqrt) && x > 0.0
    ensures sqrt(x) > 0.0
  {
    var r := sqrt(x);
    NonzeroSquare(r, x);
  }

  predicate AllWithin(sqrt: real -> real, us: Mat, w: Vec, x: Vec, reference: real, bound: real, k: nat)
    requires k <= |us|
  {
    forall i | 0 <= i < k :: WithinBound(sqrt, w, us[i], x, reference, bound)
  }

  /** What direction `u` still sees of `x`, relative to the proposal and to the direction. */
  function Relative(sqrt: real -> real, w: Vec, u: Vec, x: Vec, reference: real): (r: real)
    requires |u| == |x| == |w| && reference >= 0.0
    ensures r >= 0.0
  {
    var s := sqrt(Wdot(u, u, w));
    if s > 0.0 then Residual(Abs(Wdot(u, x, w)), reference, s) else 0.0
  }

  /** The largest of the first `k` relative residuals, at least zero. */
  function Worst(sqrt: real -> real, us: Mat, w: Vec, x: Vec, reference: real, k: nat): (r: real)
    requires Frame(us, w) && |x| == |w| && reference >= 0.0 && k <= |us|
    ensures r >= 0.0
  {
    if k == 0 then 0.0
    else Max(Worst(sqrt, us, w, x, reference, k - 1), Relative(sqrt, w, us[k-1], x, reference))
  }

  /** The largest relative residual over the directions. */
  method MaxResidual(sqrt: real -> real, us: Mat, w: Vec, x: Vec, reference: real) returns (r: real)
    requires IsSqrt(sqrt) && Frame(us, w) && |x| == |w| && Observable(us, w) && reference >= 0.0
    ensures r == Worst(sqrt, us, w, x, reference, |us|) && AllWithin(sqrt, us, w, x, reference, r, |us|)
    ensures Orthogonalised(us, w, x) ==> r == 0.0
  {
    r := 0.0;
    for i := 0 to |us|
      invariant r == Worst(sqrt, us, w, x, reference, i) && AllWithin(sqrt, us, w, x, reference, r, i)
      invariant Orthogonalised(us, w, x) ==> r == 0.0
    {
      var residual := OneResidual(sqrt, us, w, x, reference, i);
      WithinMore(sqrt, us, w, x, reference, r, residual, i);
      r := Max(r, residual);
    }
  }

  lemma WithinMore(sqrt: real -> real, us: Mat, w: Vec, x: Vec, reference: real, r: real, residual: real, i: nat)
    requires IsSqrt(sqrt) && Frame(us, w) && i < |us| && AllWithin(sqrt, us, w, x, reference, r, i)
    requires WithinBound(sqrt, w, us[i], x, reference, residual)
    ensures AllWithin(sqrt, us, w, x, reference, Max(r, residual), i + 1)
  {
    forall j | 0 <= j < i + 1
      ensures WithinBound(sqrt, w, us[j], x, reference, Max(r, residual))
    {
      WeightedNonneg(w, us[j], |w|);
      WiderBound(sqrt, w, us[j], x, reference, if j < i then r else residual, Max(r, residual));
    }
  }

  lemma WiderBound(sqrt: real -> real, w: Vec, u: Vec, x: Vec, reference: real, a: real, b: real)
    requires IsSqrt(sqrt) && WithinBound(sqrt, w, u, x, reference, a) && a <= b && Wdot(u, u, w) >= 0.0
    ensures WithinBound(sqrt, w, u, x, reference, b)
  {
    if reference > 0.0 {
      Times(reference, sqrt(Wdot(u, u, w)));
      Times(b - a, reference * sqrt(Wdot(u, u, w)));
    }
  }

  method OneResidual(sqrt: real -> real, us: Mat, w: Vec, x: Vec, reference: real, i: nat) returns (r: real)
    requires IsSqrt(sqrt) && Frame(us, w) && |x| == |w| && Observable(us, w) && reference >= 0.0 && i < |us|
    ensures r == Relative(sqrt, w, us[i], x, reference)
    ensures WithinBound(sqrt, w, us[i], x, reference, r) && Wdot(us[i], us[i], w) >= 0.0
    ensures Orthogonalised(us, w, x) ==> r == 0.0
  {
    WeightedNonneg(w, us[i], |w|);
    var energy := Wdot(us[i], us[i], w);
    RootPositive(sqrt, energy);
    var directionEnergy := sqrt(energy);
    WdotComm(x, us[i], w);
    var numerator := Abs(Wdot(x, us[i], w));
    r := Residual(numerator, reference, directionEnergy);
    if reference > 0.0 {
      Positive(reference, directionEnergy, reference * directionEnergy);
      if numerator == 0.0 {
        NoZeroFactor(reference * directionEnergy, r);
      }
    }
  }

  // ----- what was removed

  /** The part of the step that was taken away, against the whole step. */
  function Damage(sqrt: real -> real, removed: real, whole: real): real {
    if sqrt(whole) == 0.0 then 0.0 else sqrt(removed) / sqrt(whole)
  }

  lemma SquaresOrder(x: real, y: real)
    requires x >= 0.0 && y >= 0.0
    ensures x <= y <==> x * x <= y * y
  {
    if x <= y {
      Times(y - x, y + x);
    } else {
      Positive(x - y, x + y, (x - y) * (x + y));
    }
  }

  /** The damage test compares squared lengths. */
  lemma DamageSquared(sqrt: real -> real, removed: real, whole: real, most: real)
    requires IsSqrt(sqrt) && removed >= 0.0 && whole > 0.0 && most >= 0.0
    ensures Damage(sqrt, removed, whole) <= most <==> removed <= (most * most) * whole
  {
    var r, s := sqrt(removed), sqrt(whole);
    RootPositive(sqrt, whole);
    Times(most, s);
    SquaresOrder(r, most * s);
    assert (most * s) * (most * s) == (most * most) * (s * s);
    var d := r / s;
    assert d * s == r;
    if d <= most {
      Times(most - d, s);
    } else {
      Positive(d - most, s, (d - most) * s);
    }
  }

  // ----- the whole projection

  /** The projected step, and how many eigenvalues were kept. */
  datatype Projection = Projection(x: Vec, rank: nat, residual: real)

  ghost predicate CleanGram(eigen: Mat -> Spectrum, us: Mat, w: Vec)
    requires Frame(us, w)
  {
    Clean(eigen(Gram(us, w)).values, GramTolerance(eigen(Gram(us, w)).values))
  }

  lemma {:induction false} NoneKept(values: Vec, tolerance: real, k: nat, e: nat)
    requires e < k <= |values| && Kept(values, tolerance, k) == 0
    ensures values[e] <= tolerance
  {
    if e < k - 1 {
      NoneKept(values, tolerance, k - 1, e);
    }
  }

  /** When every eigenvalue is zero, nothing is measured of any vector. */
  lemma NothingMeasured(g: Mat, us: Mat, w: Vec, b: Vec, sp: Spectrum)
    requires Frame(us, w) && |b| == |w| && IsGram(g, us, w) && IsEigenbasis(g, |us|, sp)
    requires forall e | 0 <= e < |us| :: sp.values[e] <= 0.0
    ensures Measured(us, w, b) == Zeros(|us|)
  {
    var r := Measured(us, w, b);
    forall e | 0 <= e < |us|
      ensures Dot(sp.vectors[e], r, |us|) == 0.0
    {
      EigenEnergy(g, us, w, b, sp, e);
      NullSeesNothing(g, us, w, b, sp, e);
    }
    Resolve(sp.vectors, |us|, r);
    AllZero(sp.vectors, |us|, MatVec(sp.vectors, r));
  }

  /** An observable direction needs an eigenvalue above the tolerance when the spectrum is clean. */
  lemma CleanKeeps(g: Mat, us: Mat, w: Vec, sp: Spectrum, tolerance: real)
    requires Frame(us, w) && us != [] && Observable(us, w) && IsGram(g, us, w) && IsEigenbasis(g, |us|, sp)
    requires tolerance >= 0.0 && Clean(sp.values, tolerance)
    ensures Kept(sp.values, tolerance, |us|) > 0
  {
    if Kept(sp.values, tolerance, |us|) == 0 {
      forall e | 0 <= e < |us|
        ensures sp.values[e] <= 0.0
      {
        NoneKept(sp.values, tolerance, |us|, e);
      }
      NothingMeasured(g, us, w, us[0], sp);
    }
  }

  lemma AllZero(v: Mat, m: nat, y: Vec)
    requires Rows(v, m, m) && |y| == m && forall e | 0 <= e < m :: y[e] == 0.0
    ensures Combine(v, m, y) == Zeros(m)
  {
    forall i | 0 <= i < m
      ensures Combine(v, m, y)[i] == 0.0
    {
      DotZero(Transpose(v, m, m)[i], y, m);
    }
  }

  function ResidualTolerance(sqrt: real -> real, m: nat): real {
    ROOT * sqrt(Max(m as real, 1.0)) * 16.0
  }

  /** The step that is left is the braked step minus a combination of the protected directions. */
  ghost predicate IsRemainder(us: Mat, w: Vec, braked: Vec, x: Vec)
    requires Frame(us, w) && |braked| == |w|
  {
    exists c: Vec {:trigger Remainder(us, w, braked, c)} :: |c| == |us| && x == Remainder(us, w, braked, c)
  }

  /** The spectrum the code computes. */
  ghost function GramSpectrum(eigen: Mat -> Spectrum, us: Mat, w: Vec): (sp: Spectrum)
    requires Diagonalises(eigen) && Frame(us, w)
    ensures IsEigenbasis(Gram(us, w), |us|, sp) && sp == eigen(Gram(us, w))
  {
    GramDecomposed(eigen, us, w);
    eigen(Gram(us, w))
  }

  /** How many of its eigenvalues survive the truncation. */
  ghost function Rank(eigen: Mat -> Spectrum, us: Mat, w: Vec): nat
    requires Diagonalises(eigen) && Frame(us, w)
  {
    var sp := GramSpectrum(eigen, us, w);
    Kept(sp.values, GramTolerance(sp.values), |us|)
  }

  /** The truncated pseudoinverse. */
  ghost function Truncated(m: nat, sp: Spectrum, tolerance: real): (p: Mat)
    requires Rows(sp.vectors, m, m) && |sp.values| == m && tolerance >= 0.0
    ensures IsPseudoinverse(p, m, sp, tolerance)
  {
    seq(m, i requires 0 <= i < m => seq(m, j requires 0 <= j < m => PseudoEntry(m, sp, tolerance, i, j, m)))
  }

  lemma OnePseudoinverse(p: Mat, m: nat, sp: Spectrum, tolerance: real)
    requires Rows(sp.vectors, m, m) && |sp.values| == m && tolerance >= 0.0
    requires IsPseudoinverse(p, m, sp, tolerance)
    ensures p == Truncated(m, sp, tolerance)
  {
    SameMatrix(p, Truncated(m, sp, tolerance), m);
  }

  /** What the projection leaves of the braked step. */
  ghost function Left(eigen: Mat -> Spectrum, us: Mat, w: Vec, braked: Vec): (x: Vec)
    requires Diagonalises(eigen) && Frame(us, w) && |braked| == |w|
    ensures |x| == |w| && IsRemainder(us, w, braked, x)
  {
    var sp := GramSpectrum(eigen, us, w);
    var p := Truncated(|us|, sp, GramTolerance(sp.values));
    assert Project(us, w, braked, p) == Remainder(us, w, braked, MatVec(p, Measured(us, w, braked)));
    Project(us, w, braked, p)
  }

  /** The relative residual of the projection, as the code measures it. */
  ghost function Remaining(eigen: Mat -> Spectrum, sqrt: real -> real, us: Mat, w: Vec, delta: Vec, braked: Vec): real
    requires Diagonalises(eigen) && IsSqrt(sqrt) && Frame(us, w) && |delta| == |braked| == |w|
  {
    WeightedNonneg(w, delta, |w|);
    Worst(sqrt, us, w, Left(eigen, us, w, braked), sqrt(Wdot(delta, delta, w)), |us|)
  }

  /** No refusal: every direction is observable, the truncation keeps a rank, and the residual passes. */
  ghost predicate Accepts(eigen: Mat -> Spectrum, sqrt: real -> real, us: Mat, w: Vec, delta: Vec, braked: Vec)
    requires Diagonalises(eigen) && IsSqrt(sqrt) && Frame(us, w) && |delta| == |braked| == |w|
  {
    || us == []
    || (Observable(us, w) && Rank(eigen, us, w) > 0
        && Remaining(eigen, sqrt, us, w, delta, braked) <= ResidualTolerance(sqrt, |us|))
  }

  method ProjectOff(eigen: Mat -> Spectrum, sqrt: real -> real, us: Mat, w: Vec, delta: Vec, braked: Vec)
    returns (r: Result<Projection>)
    requires Diagonalises(eigen) && IsSqrt(sqrt) && Frame(us, w) && |delta| == |braked| == |w| && us != []
    ensures r.Ok? <==> Accepts(eigen, sqrt, us, w, delta, braked)
    ensures r.Ok? ==> r.value == Projection(Left(eigen, us, w, braked), Rank(eigen, us, w),
                                            Remaining(eigen, sqrt, us, w, delta, braked))
    ensures r.Ok? ==> AllWithin(sqrt, us, w, r.value.x, sqrt(Wdot(delta, delta, w)), r.value.residual, |us|)
    ensures Observable(us, w) && CleanGram(eigen, us, w) ==>
              r.Ok? && Orthogonalised(us, w, r.value.x) && r.value.residual == 0.0
  {
    if !Observable(us, w) {
      return Err("protected_direction_unobservable_in_metric");
    }
    var m := |us|;
    var gram := BuildGram(us, w);
    GramDecomposed(eigen, us, w);
    var sp := eigen(gram);
    var tolerance := GramTolerance(sp.values);
    NeverNegative(gram, us, w, sp, tolerance);
    if exists e | 0 <= e < m :: sp.values[e] < -tolerance {
      return Err("protected_gram_not_psd");
    }
    var p, rank := BuildPseudoinverse(m, sp, tolerance);
    OnePseudoinverse(p, m, sp, tolerance);
    if Clean(sp.values, tolerance) {
      CleanKeeps(gram, us, w, sp, tolerance);
    }
    if rank == 0 {
      return Err("protected_directions_unobservable_in_metric");
    }
    var coefficients := MatVec(p, Measured(us, w, braked));
    var x := Subtract(us, w, braked, coefficients);
    if Clean(sp.values, tolerance) {
      CleanSolves(gram, us, w, braked, sp, p, tolerance);
      OrthogonalIffSolved(gram, us, w, braked, coefficients);
    }
    r := Check(sqrt, us, w, delta, x, rank);
  }

  lemma NeverNegative(g: Mat, us: Mat, w: Vec, sp: Spectrum, tolerance: real)
    requires Frame(us, w) && IsGram(g, us, w) && IsEigenbasis(g, |us|, sp) && tolerance >= 0.0
    ensures forall e | 0 <= e < |us| :: sp.values[e] >= -tolerance
  {
    forall e | 0 <= e < |us|
      ensures sp.values[e] >= -tolerance
    {
      EigenEnergy(g, us, w, Zeros(|w|), sp, e);
    }
  }

  /** Refuse a projection whose relative residual is too large. */
  method Check(sqrt: real -> real, us: Mat, w: Vec, delta: Vec, x: Vec, rank: nat) returns (r: Result<Projection>)
    requires IsSqrt(sqrt) && Frame(us, w) && |delta| == |x| == |w| && Observable(us, w)
    ensures Wdot(delta, delta, w) >= 0.0
    ensures r.Ok? <==> Worst(sqrt, us, w, x, sqrt(Wdot(delta, delta, w)), |us|) <= ResidualTolerance(sqrt, |us|)
    ensures r.Ok? ==> r.value == Projection(x, rank, Worst(sqrt, us, w, x, sqrt(Wdot(delta, delta, w)), |us|))
    ensures r.Ok? ==> AllWithin(sqrt, us, w, x, sqrt(Wdot(delta, delta, w)), r.value.residual, |us|)
    ensures Orthogonalised(us, w, x) ==> r.Ok? && r.value.residual == 0.0
  {
    WeightedNonneg(w, delta, |w|);
    var residual := MaxResidual(sqrt, us, w, x, sqrt(Wdot(delta, delta, w)));
    Times(ROOT, sqrt(Max(|us| as real, 1.0)));
    if residual > ResidualTolerance(sqrt, |us|) {
      return Err("protected_joint_projection_residual");
    }
    r := Ok(Projection(x, rank, residual));
  }

  lemma InputFrame(delta: Vec, cortex: Cortex)
    requires ValidInput(delta, cortex)
    ensures Frame(Active(cortex.directions), cortex.importance)
  {
    ActiveRows(cortex.directions, |delta|);
  }

  /** What was removed, and whether that is allowed. */
  ghost predicate Accounted(sqrt: real -> real, delta: Vec, most: real, o: Outcome) {
    && |o.projected| == |delta|
    && o.removedEnergy == Dot(Sub(delta, o.projected), Sub(delta, o.projected), |delta|)
    && o.damage == Damage(sqrt, o.removedEnergy, Dot(delta, delta, |delta|))
    && (o.allowed <==> o.damage <= most)
  }

  /** What every accepted projection satisfies. */
  ghost predicate Protects(sqrt: real -> real, us: Mat, w: Vec, delta: Vec, braked: Vec, x: Vec, residual: real) {
    && Frame(us, w) && |delta| == |braked| == |x| == |w| && Observable(us, w)
    && IsRemainder(us, w, braked, x)
    && AllWithin(sqrt, us, w, x, sqrt(Wdot(delta, delta, w)), residual, |us|)
  }

  /** The projection, or the braked step itself when nothing is protected. */
  method Reduce(eigen: Mat -> Spectrum, sqrt: real -> real, us: Mat, w: Vec, delta: Vec, braked: Vec)
    returns (r: Result<Projection>)
    requires Diagonalises(eigen) && IsSqrt(sqrt) && Frame(us, w) && |delta| == |braked| == |w|
    ensures r.Ok? <==> Accepts(eigen, sqrt, us, w, delta, braked)
    ensures r.Ok? ==> r.value == Projection(Left(eigen, us, w, braked), Rank(eigen, us, w),
                                            Remaining(eigen, sqrt, us, w, delta, braked))
    ensures r.Ok? ==> Protects(sqrt, us, w, delta, braked, r.value.x, r.value.residual)
    ensures Observable(us, w) && CleanGram(eigen, us, w) ==>
              r.Ok? && Orthogonalised(us, w, r.value.x) && r.value.residual == 0.0
  {
    if us == [] {
      NothingRemoved(us, w, braked);
      return Ok(Projection(braked, 0, 0.0));
    }
    r := ProjectOff(eigen, sqrt, us, w, delta, braked);
  }

  /** The exact result holds for every proposal under a clean Gram spectrum. */
  ghost predicate Clear(eigen: Mat -> Spectrum, cortex: Cortex) {
    var us, w := Active(cortex.directions), cortex.importance;
    Frame(us, w) && Observable(us, w) && CleanGram(eigen, us, w)
  }

  ghost predicate Exact(cortex: Cortex, o: Outcome) {
    var us, w := Active(cortex.directions), cortex.importance;
    Frame(us, w) && |o.projected| == |w| && Orthogonalised(us, w, o.projected) && o.maxResidual == 0.0
  }

  /** What every accepted call delivers: a braked, projected step with its account. */
  ghost predicate Delivers(sqrt: real -> real, delta: Vec, cortex: Cortex, o: Outcome) {
    && ValidInput(delta, cortex) && Accounted(sqrt, delta, cortex.maxDamage, o)
    && Protects(sqrt, Active(cortex.directions), cortex.importance, delta, Brake(delta, cortex.importance),
                o.projected, o.maxResidual)
  }

  /** The call is accepted: the input is valid and the projection is not refused. */
  ghost predicate Passes(eigen: Mat -> Spectrum, sqrt: real -> real, delta: Vec, cortex: Cortex)
    requires Diagonalises(eigen) && IsSqrt(sqrt)
  {
    && ValidInput(delta, cortex)
    && (InputFrame(delta, cortex);
        Accepts(eigen, sqrt, Active(cortex.directions), cortex.importance, delta, Brake(delta, cortex.importance)))
  }

  /** The projected step, the rank and the residual of an accepted call. */
  ghost predicate Computes(eigen: Mat -> Spectrum, sqrt: real -> real, delta: Vec, cortex: Cortex, o: Outcome)
    requires Diagonalises(eigen) && IsSqrt(sqrt) && ValidInput(delta, cortex)
  {
    InputFrame(delta, cortex);
    var us, w, braked := Active(cortex.directions), cortex.importance, Brake(delta, cortex.importance);
    && o.projected == Left(eigen, us, w, braked) && o.rank == Rank(eigen, us, w)
    && o.maxResidual == Remaining(eigen, sqrt, us, w, delta, braked)
  }

  method ProjectToSafeSubspace(eigen: Mat -> Spectrum, sqrt: real -> real, delta: Vec, cortex: Cortex)
    returns (r: Result<Outcome>)
    requires Diagonalises(eigen) && IsSqrt(sqrt)
    ensures r.Ok? <==> Passes(eigen, sqrt, delta, cortex)
    ensures r.Ok? ==> Computes(eigen, sqrt, delta, cortex, r.value) && Delivers(sqrt, delta, cortex, r.value)
    ensures ValidInput(delta, cortex) && Clear(eigen, cortex) ==> r.Ok? && Exact(cortex, r.value)
  {
    if !ValidInput(delta, cortex) {
      return Err("protected_shape_or_values");
    }
    InputFrame(delta, cortex);
    var braked := Brake(delta, cortex.importance);
    var projection := Reduce(eigen, sqrt, Active(cortex.directions), cortex.importance, delta, braked);
    if projection.Err? {
      return Err(projection.code);
    }
    var outcome := Summarise(sqrt, delta, cortex, projection.value);
    r := Ok(outcome);
  }

  /** The account of an accepted projection. */
  method Summarise(sqrt: real -> real, delta: Vec, cortex: Cortex, p: Projection) returns (o: Outcome)
    requires IsSqrt(sqrt) && |p.x| == |delta|
    ensures o.projected == p.x && o.maxResidual == p.residual && o.rank == p.rank
    ensures Accounted(sqrt, delta, cortex.maxDamage, o)
  {
    DotSelf(Sub(delta, p.x), |delta|);
    o := Account(sqrt, delta, cortex.maxDamage, p);
  }

  function Account(sqrt: real -> real, delta: Vec, most: real, p: Projection): (o: Outcome)
    requires |p.x| == |delta| && IsRoot(sqrt, Sub(delta, p.x))
    ensures o.projected == p.x && o.rank == p.rank && o.maxResidual == p.residual
    ensures Accounted(sqrt, delta, most, o)
  {
    var removed := Sub(delta, p.x);
    var removedNorm := sqrt(Dot(removed, removed, |removed|));
    var deltaNorm := sqrt(Dot(delta, delta, |delta|));
    var damage := if deltaNorm == 0.0 then 0.0 else removedNorm / deltaNorm;
    Outcome(p.x, damage, damage <= most, removedNorm * removedNorm, p.rank, p.residual)
  }

  predicate IsRoot(sqrt: real -> real, v: Vec) {
    sqrt(Dot(v, v, |v|)) * sqrt(Dot(v, v, |v|)) == Dot(v, v, |v|)
  }

  lemma NothingRemoved(us: Mat, w: Vec, b: Vec)
    requires Frame(us, w) && |b| == |w| && us == []
    ensures Remainder(us, w, b, []) == b
  {
    var f := SpanFit(us, w, b);
    assert forall k | 0 <= k < |b| :: f.Predict([])[k] == 0.0;
  }

  // ----- reading the result

  /** A coordinate without importance that no protected direction touches is unchanged. */
  lemma UntouchedCoordinate(us: Mat, w: Vec, delta: Vec, x: Vec, k: nat)
    requires Frame(us, w) && |delta| == |x| == |w| && IsRemainder(us, w, Brake(delta, w), x)
    requires k < |w| && w[k] == 0.0 && forall i | 0 <= i < |us| :: us[i][k] == 0.0
    ensures x[k] == delta[k]
  {
    var c: Vec :| |c| == |us| && x == Remainder(us, w, Brake(delta, w), c);
    var f := SpanFit(us, w, Brake(delta, w));
    forall i | 0 <= i < |us|
      ensures f.xs[k][i] == 0.0
    {
      assert f.Columns()[i] == us[i];
    }
    DotZero(f.xs[k], c, |us|);
  }

  /** Nothing changes a step more cautiously: of all steps that differ from the braked one by a combination of the
      protected directions, an exact projection has the least energy in the metric. */
  lemma ExactIsNearest(us: Mat, w: Vec, braked: Vec, x: Vec, d: Vec)
    requires Frame(us, w) && |braked| == |x| == |w| && |d| == |us|
    requires IsRemainder(us, w, braked, x) && Orthogonalised(us, w, x)
    ensures Wdot(x, x, w) <= Wdot(Remainder(us, w, braked, d), Remainder(us, w, braked, d), w)
  {
    var c: Vec :| |c| == |us| && x == Remainder(us, w, braked, c);
    RemainderIsNearest(Gram(us, w), us, w, braked, c, d);
  }
}
