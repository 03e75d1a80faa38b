/** `fit_affine_with_policy` under the centred trace ridge, down to its kernels. */
module Transport {
  import opened Prelude
  import opened Vectors
  import opened LeastSquares
  import opened RidgeFit
  import opened RootMeanSquare
  import opened AffineObjective
  import opened TrainingError

  // ----- the ridge solve

  /** Entry (i, j) of the normal matrix over the first `k` rows. */
  ghost function GramSum(f: Fit, i: nat, j: nat, k: nat): real
    requires f.Valid() && i < f.n && j < f.n && k <= |f.xs|
  {
    Dot(f.Columns()[i], Weighted(f.ws, f.Columns()[j]), k)
  }

  /** Entry `i` of the right side over the first `k` rows. */
  ghost function RhsSum(f: Fit, i: nat, k: nat): real
    requires f.Valid() && i < f.n && k <= |f.xs|
  {
    Dot(f.Columns()[i], Weighted(f.ws, f.ys), k)
  }

  ghost predicate Gathered(f: Fit, a: array2<real>, b: array<real>, k: nat)
    requires f.Valid() && k <= |f.xs|
    reads a, b
  {
    && a.Length0 == a.Length1 == b.Length == f.n
    && (forall i, j | 0 <= i < f.n && 0 <= j < f.n :: a[i, j] == GramSum(f, i, j, k))
    && (forall i | 0 <= i < f.n :: b[i] == RhsSum(f, i, k))
  }

  lemma GatherTerm(f: Fit, i: nat, v: Vec, k: nat)
    requires f.Valid() && i < f.n && |v| == |f.xs| && k < |f.xs|
    ensures Dot(f.Columns()[i], Weighted(f.ws, v), k + 1)
         == Dot(f.Columns()[i], Weighted(f.ws, v), k) + Share(f.ws[k], f.xs[k][i], v[k])
  {
    DotTerm(f.ws, f.Columns()[i], v, k);
    Reorder(f.xs[k][i], f.ws[k], v[k]);
  }

  lemma GramStep(f: Fit, i: nat, j: nat, k: nat)
    requires f.Valid() && i < f.n && j < f.n && k < |f.xs|
    ensures GramSum(f, i, j, k + 1) == GramSum(f, i, j, k) + Share(f.ws[k], f.xs[k][i], f.xs[k][j])
  {
    GatherTerm(f, i, f.Columns()[j], k);
    assert f.Columns()[j][k] == f.xs[k][j];
  }

  lemma RhsStep(f: Fit, i: nat, k: nat)
    requires f.Valid() && i < f.n && k < |f.xs|
    ensures RhsSum(f, i, k + 1) == RhsSum(f, i, k) + Share(f.ws[k], f.xs[k][i], f.ys[k])
  {
    GatherTerm(f, i, f.ys, k);
  }

  /** What one row of the design adds. */
  function Share(w: real, x: real, v: real): real {
    w * x * v
  }

  lemma Reorder(x: real, w: real, v: real)
    ensures Term(x, w, v) == Share(w, x, v)
  {
  }

  /** Add row `k`'s products to row `i` of the normal matrix. */
  method GatherProducts(f: Fit, a: array2<real>, k: nat, i: nat)
    requires f.Valid() && k < |f.xs| && i < f.n && a.Length0 == a.Length1 == f.n
    requires forall q | 0 <= q < f.n :: a[i, q] == GramSum(f, i, q, k)
    modifies a
    ensures forall q | 0 <= q < f.n :: a[i, q] == GramSum(f, i, q, k + 1)
    ensures forall p, q | 0 <= p < f.n && 0 <= q < f.n && p != i :: a[p, q] == old(a[p, q])
  {
    for j := 0 to f.n
      invariant forall q | 0 <= q < j :: a[i, q] == GramSum(f, i, q, k + 1)
      invariant forall q | j <= q < f.n :: a[i, q] == GramSum(f, i, q, k)
      invariant forall p, q | 0 <= p < f.n && 0 <= q < f.n && p != i :: a[p, q] == old(a[p, q])
    {
      GramStep(f, i, j, k);
      a[i, j] := a[i, j] + Share(f.ws[k], f.xs[k][i], f.xs[k][j]);
    }
  }

  /** Rows below `i` of the normal equations hold `k + 1` rows of the design, the others `k`. */
  ghost predicate GatheredRow(f: Fit, a: array2<real>, b: array<real>, k: nat, i: nat, p: nat)
    requires f.Valid() && k < |f.xs| && a.Length0 == a.Length1 == b.Length == f.n && p < f.n
    reads a, b
  {
    var rows := if p < i then k + 1 else k;
    b[p] == RhsSum(f, p, rows) && forall q | 0 <= q < f.n :: a[p, q] == GramSum(f, p, q, rows)
  }

  ghost predicate GatheredUpTo(f: Fit, a: array2<real>, b: array<real>, k: nat, i: nat)
    requires f.Valid() && k < |f.xs|
    reads a, b
  {
    a.Length0 == a.Length1 == b.Length == f.n && forall p: nat | p < f.n :: GatheredRow(f, a, b, k, i, p)
  }

  lemma GatheredAll(f: Fit, a: array2<real>, b: array<real>, k: nat)
    requires f.Valid() && k < |f.xs| && GatheredUpTo(f, a, b, k, f.n)
    ensures Gathered(f, a, b, k + 1)
  {
    forall p, q | 0 <= p < f.n && 0 <= q < f.n
      ensures a[p, q] == GramSum(f, p, q, k + 1)
    {
      assert GatheredRow(f, a, b, k, f.n, p);
    }
    forall p | 0 <= p < f.n
      ensures b[p] == RhsSum(f, p, k + 1)
    {
      assert GatheredRow(f, a, b, k, f.n, p);
    }
  }

  /** Add row `k` to the normal equations. */
  method GatherRow(f: Fit, a: array2<real>, b: array<real>, k: nat)
    requires f.Valid() && k < |f.xs| && Gathered(f, a, b, k)
    modifies a, b
    ensures Gathered(f, a, b, k + 1)
  {
    for i := 0 to f.n
      invariant GatheredUpTo(f, a, b, k, i)
    {
      GatherOne(f, a, b, k, i);
    }
    GatheredAll(f, a, b, k);
  }

  /** Add row `k` to equation `i`. */
  method GatherOne(f: Fit, a: array2<real>, b: array<real>, k: nat, i: nat)
    requires f.Valid() && k < |f.xs| && i < f.n && GatheredUpTo(f, a, b, k, i)
    modifies a, b
    ensures GatheredUpTo(f, a, b, k, i + 1)
  {
    assert GatheredRow(f, a, b, k, i, i);
    RhsStep(f, i, k);
    b[i] := b[i] + Share(f.ws[k], f.xs[k][i], f.ys[k]);
    GatherProducts(f, a, k, i);
    ghost var done := i + 1;
    forall p: nat | p < f.n
      ensures GatheredRow(f, a, b, k, done, p)
    {
      assert old(GatheredRow(f, a, b, k, i, p));
    }
  }

  /** The normal equations of every row. */
  method Gather(f: Fit) returns (m: array2<real>, rhs: array<real>)
    requires f.Valid()
    ensures fresh(m) && fresh(rhs) && Gathered(f, m, rhs, |f.xs|)
  {
    m := new real[f.n, f.n]((_, _) => 0.0);
    rhs := new real[f.n](_ => 0.0);
    for k := 0 to |f.xs|
      invariant Gathered(f, m, rhs, k)
    {
      GatherRow(f, m, rhs, k);
    }
  }

  /** The solver gave up, with this code, on the normal equations of the ridged fit. */
  ghost predicate SolverRefuses(solve: Solver, f: Fit, ridge: real, code: string)
    requires f.Valid()
  {
    exists a, b :: IsNormal(Ridged(f, ridge), a, b) && solve(a, b) == Err(code)
  }

  /** `weighted_normal_solve`: gather, add the ridge, solve. */
  method WeightedNormalSolve(solve: Solver, f: Fit, ridge: real) returns (r: Result<Vec>, ghost a: Mat, ghost b: Vec)
    requires SolvesExactly(solve) && f.Valid()
    ensures r.Ok? ==> |r.value| == f.n && f.xs != [] && f.n > 0 && ridge >= 0.0 && Convex(f)
    ensures r.Ok? ==> IsNormal(Ridged(f, ridge), a, b) && MatVec(a, r.value) == b
    ensures r.Err? ==> f.xs == [] || f.n == 0 || ridge < 0.0 || !Convex(f) || SolverRefuses(solve, f, ridge, r.code)
  {
    a, b := [], [];
    if f.xs == [] || f.n == 0 || ridge < 0.0 || exists k | 0 <= k < |f.ws| :: f.ws[k] < 0.0 {
      return Err("weighted_ls_shape"), a, b;
    }
    var m, rhs := Gather(f);
    AddRidge(f, ridge, m, rhs);
    a, b := AsMat(m), rhs[..];
    r := solve(AsMat(m), rhs[..]);
    SolvedIsNormal(solve, f, ridge, a, b);
  }

  lemma SolvedIsNormal(solve: Solver, f: Fit, ridge: real, a: Mat, b: Vec)
    requires SolvesExactly(solve) && f.Valid() && Assembled(f, ridge, a, b)
    ensures IsNormal(Ridged(f, ridge), a, b)
    ensures solve(a, b).Ok? ==> |solve(a, b).value| == f.n && MatVec(a, solve(a, b).value) == b
  {
    AssembledIsNormal(f, ridge, a, b);
  }

  method AddRidge(f: Fit, ridge: real, m: array2<real>, rhs: array<real>)
    requires f.Valid() && Gathered(f, m, rhs, |f.xs|)
    modifies m
    ensures m.Length0 == m.Length1 == rhs.Length == f.n && Assembled(f, ridge, AsMat(m), rhs[..])
  {
    for i := 0 to f.n
      invariant forall p, q | 0 <= p < f.n && 0 <= q < f.n ::
                  m[p, q] == GramSum(f, p, q, |f.xs|) + if p == q && p < i then ridge else 0.0
    {
      m[i, i] := m[i, i] + ridge;
    }
  }

  // ----- the unit of the design

  /** The unit: its square is the trace of the centred design over its dimension. */
  lemma UnitSquare(rms: real, root: real, n: nat, d: nat, energy: real, unit: real)
    requires n > 0 && d > 0 && IsRms(rms, n * d, energy) && root * root == n as real && unit == rms * root
    ensures unit * unit == energy / d as real
  {
    assert (n * d) as real == n as real * d as real;
    calc {
      unit * unit * d as real;
      (rms * rms) * ((root * root) * d as real);
      rms * rms * (n * d) as real;
      energy;
    }
    QuotientIs(unit * unit, d as real, energy);
  }

  lemma QuotientIs(q: real, d: real, e: real)
    requires d != 0.0 && q * d == e
    ensures q == e / d
  {
  }

  /** `unit` is the square root of the trace of the centred design over its dimension. */
  ghost predicate IsUnit(xs: Mat, d: nat, unit: real)
    requires Rows(xs, |xs|, d) && |xs| > 0 && d > 0
  {
    unit >= 0.0 && Mul(unit, unit) == Energy(Centred(xs, d), d, |xs|) / d as real
  }

  method DesignUnit(sqrt: real -> real, xs: Mat, d: nat) returns (unit: real)
    requires IsSqrt(sqrt) && Rows(xs, |xs|, d) && |xs| > 0 && d > 0
    ensures IsUnit(xs, d, unit)
  {
    var flat := Flatten(Centred(xs, d));
    FlatLength(xs, d);
    var rms := StableRms(sqrt, flat);
    unit := rms.value * sqrt(|xs| as real);
    UnitOfRms(xs, d, rms.value, sqrt(|xs| as real), unit);
  }

  lemma FlatLength(xs: Mat, d: nat)
    requires Rows(xs, |xs|, d) && |xs| > 0 && d > 0
    ensures Flatten(Centred(xs, d)) != []
  {
    FlattenEnergy(Centred(xs, d), d);
    NonzeroCount(|xs|, d);
  }

  lemma UnitOfRms(xs: Mat, d: nat, rms: real, root: real, unit: real)
    requires Rows(xs, |xs|, d) && |xs| > 0 && d > 0 && root >= 0.0 && root * root == |xs| as real
    requires IsRms(rms, |Flatten(Centred(xs, d))|,
                   Dot(Flatten(Centred(xs, d)), Flatten(Centred(xs, d)), |Flatten(Centred(xs, d))|))
    requires unit == rms * root
    ensures IsUnit(xs, d, unit)
  {
    FlattenEnergy(Centred(xs, d), d);
    Times(rms, root);
    UnitSquare(rms, root, |xs|, d, Energy(Centred(xs, d), d, |xs|), unit);
  }

  // ----- the fit

  datatype Map = Map(weights: Mat, bias: Vec)

  /** The fit with its root mean square error on the anchors and the units the fit was solved in. */
  datatype Fitted = Fitted(fit: Map, trainingRms: real, designTrace: real, scale: real, effectiveRidge: real)

  predicate Anchors(rows: Mat, d: nat) {
    |rows| >= 3 && d > 0 && Rows(rows, |rows|, d)
  }

  /** Every output row is the unique minimiser of its own documented objective. */
  ghost predicate BestMap(xs: Mat, d: nat, ys: Mat, t: nat, rho: real, m: Map) {
    && Anchors(xs, d) && Anchors(ys, t) && |ys| == |xs| && Rows(m.weights, t, d) && |m.bias| == t
    && (forall o | 0 <= o < t :: BestOutput(xs, d, ys, t, rho, m, o))
  }

  ghost predicate BestOutput(xs: Mat, d: nat, ys: Mat, t: nat, rho: real, m: Map, o: nat)
    requires Anchors(xs, d) && Anchors(ys, t) && |ys| == |xs| && o < t && o < |m.weights| && o < |m.bias|
  {
    IsBest(xs, d, Column(ys, t, o), TraceRidge(xs, d, rho), m.weights[o], m.bias[o])
  }

  /** One output: solve in unit coordinates, scale back, recover the bias. */
  method FitOutput(solve: Solver, xs: Mat, d: nat, y: Vec, rho: real, unit: real) returns (r: Result<(Vec, real)>)
    requires SolvesExactly(solve) && Anchors(xs, d) && |y| == |xs| && rho > 0.0 && unit > 0.0 && IsUnit(xs, d, unit)
    ensures r.Ok? ==> |r.value.0| == d && IsBest(xs, d, y, TraceRidge(xs, d, rho), r.value.0, r.value.1)
    ensures r.Err? ==> SolverRefuses(solve, UnitFit(xs, d, y, unit), rho, r.code)
  {
    var beta, a, b := WeightedNormalSolve(solve, UnitFit(xs, d, y, unit), rho);
    if beta.Err? {
      UnitConvex(xs, d, y, unit);
      return Err(beta.code);
    }
    var w := seq(d, i requires 0 <= i < d => beta.value[i] / unit);
    Rescaled(beta.value, unit, w);
    OutputBest(xs, d, y, rho, unit, a, b, w);
    r := Ok((w, BestBias(xs, d, y, w)));
  }

  lemma UnitConvex(xs: Mat, d: nat, y: Vec, unit: real)
    requires Shaped(xs, d, y) && unit > 0.0
    ensures Convex(UnitFit(xs, d, y, unit))
  {
  }

  lemma OutputBest(xs: Mat, d: nat, y: Vec, rho: real, unit: real, a: Mat, b: Vec, w: Vec)
    requires Shaped(xs, d, y) && d > 0 && rho > 0.0 && unit > 0.0 && IsUnit(xs, d, unit) && |w| == d
    requires IsNormal(Ridged(UnitFit(xs, d, y, unit), rho), a, b) && MatVec(a, Scaled(unit, w)) == b
    ensures IsBest(xs, d, y, TraceRidge(xs, d, rho), w, BestBias(xs, d, y, w))
  {
    SolveIsBest(xs, d, y, rho, unit, TraceRidge(xs, d, rho), a, b, w);
  }

  lemma Rescaled(beta: Vec, unit: real, w: Vec)
    requires unit > 0.0 && |w| == |beta| && forall i | 0 <= i < |w| :: w[i] == beta[i] / unit
    ensures Scaled(unit, w) == beta
  {
    forall i | 0 <= i < |w|
      ensures Scaled(unit, w)[i] == beta[i]
    {
      TimesQuotient(beta[i], unit);
    }
  }

  lemma TimesQuotient(x: real, u: real)
    requires u != 0.0
    ensures u * (x / u) == x
  {
  }

  /** What the entry checks accept: enough anchors, as many targets, a positive ridge. */
  predicate Acceptable(xs: Mat, ys: Mat, rho: real) {
    rho > 0.0 && |xs| == |ys| && |xs| >= 3 && Anchors(xs, |xs[0]|) && Anchors(ys, |ys[0]|)
  }

  /** The solver gave up on output `o`. */
  ghost predicate RefusesOutput(solve: Solver, xs: Mat, d: nat, ys: Mat, t: nat, rho: real, unit: real, o: nat,
                                code: string) {
    && Anchors(xs, d) && Anchors(ys, t) && |ys| == |xs| && unit > 0.0 && IsUnit(xs, d, unit) && o < t
    && SolverRefuses(solve, UnitFit(xs, d, Column(ys, t, o), unit), rho, code)
  }

  /** The diagnostics are the trace of the centred design, its share of one dimension, and the ridge that was used. */
  ghost predicate Diagnoses(xs: Mat, d: nat, rho: real, f: Fitted)
    requires Anchors(xs, d)
  {
    && f.designTrace == Energy(Centred(xs, d), d, |xs|) && Mul(f.scale, d as real) == f.designTrace
    && f.effectiveRidge == TraceRidge(xs, d, rho)
  }

  /** The training error is the root mean square of every miss on every anchor. */
  ghost predicate IsTrained(xs: Mat, d: nat, ys: Mat, t: nat, f: Fitted)
    requires Anchors(xs, d) && Anchors(ys, t) && |ys| == |xs| && Rows(f.fit.weights, t, d) && |f.fit.bias| == t
  {
    IsRms(f.trainingRms, |ys| * t, Energy(MissMatrix(xs, d, ys, t, f.fit.weights, f.fit.bias), t, |ys|))
  }

  ghost predicate IsFitted(xs: Mat, d: nat, ys: Mat, t: nat, rho: real, f: Fitted) {
    BestMap(xs, d, ys, t, rho, f.fit) && Diagnoses(xs, d, rho, f) && IsTrained(xs, d, ys, t, f)
  }

  /** The root mean square of the map's misses, row after row. */
  method TrainingRms(sqrt: real -> real, xs: Mat, d: nat, ys: Mat, t: nat, m: Map) returns (rms: real)
    requires IsSqrt(sqrt) && Anchors(xs, d) && Anchors(ys, t) && |ys| == |xs|
    requires Rows(m.weights, t, d) && |m.bias| == t
    ensures IsRms(rms, |ys| * t, Energy(MissMatrix(xs, d, ys, t, m.weights, m.bias), t, |ys|))
  {
    var misses := MissMatrix(xs, d, ys, t, m.weights, m.bias);
    FlattenEnergy(misses, t);
    NonzeroCount(|ys|, t);
    var one := StableRms(sqrt, Flatten(misses));
    rms := one.value;
  }

  lemma Diagnosed(xs: Mat, d: nat, rho: real, unit: real, f: Fitted)
    requires Anchors(xs, d) && IsUnit(xs, d, unit) && f.scale == Mul(unit, unit)
    requires f.designTrace == Mul(f.scale, d as real) && f.effectiveRidge == Mul(rho, f.scale)
    ensures Diagnoses(xs, d, rho, f)
  {
    var e := Energy(Centred(xs, d), d, |xs|);
    DiagnosticValues(rho, e, d as real, f.scale);
    RidgeOf(xs, d, rho, e);
  }

  lemma DiagnosticValues(rho: real, e: real, d: real, scale: real)
    requires d > 0.0 && scale == e / d
    ensures Mul(scale, d) == e && Mul(rho, scale) == Ridge(rho, e, d)
  {
    DivideTimes(e, d);
  }

  /** On its own anchors a fitted map never does worse than predicting the mean target. */
  lemma TrainedBelowMean(xs: Mat, d: nat, ys: Mat, t: nat, rho: real, f: Fitted, spread: real)
    requires rho > 0.0 && IsFitted(xs, d, ys, t, rho, f)
    requires IsRms(spread, |ys| * t, Energy(Centred(ys, t), t, |ys|))
    ensures f.trainingRms <= spread
  {
    forall o | 0 <= o < t
      ensures BestColumn(xs, d, ys, t, TraceRidge(xs, d, rho), f.fit.weights, f.fit.bias, o)
    {
      assert BestOutput(xs, d, ys, t, rho, f.fit, o);
    }
    RidgeNonneg(xs, d, rho);
    TrainingBelowMean(xs, d, ys, t, TraceRidge(xs, d, rho), f.fit.weights, f.fit.bias, f.trainingRms, spread);
  }

  lemma RidgeNonneg(xs: Mat, d: nat, rho: real)
    requires Anchors(xs, d) && rho > 0.0
    ensures TraceRidge(xs, d, rho) >= 0.0
  {
    var e := Energy(Centred(xs, d), d, |xs|);
    var q := e / d as real;
    DivideTimes(e, d as real);
    if q < 0.0 {
      Positive(-q, d as real, -q * d as real);
    }
    Times(rho, q);
  }

  method FitCentred(solve: Solver, sqrt: real -> real, xs: Mat, ys: Mat, rho: real) returns (r: Result<Fitted>)
    requires SolvesExactly(solve) && IsSqrt(sqrt)
    ensures r.Ok? ==> Acceptable(xs, ys, rho) && IsFitted(xs, |xs[0]|, ys, |ys[0]|, rho, r.value)
    ensures r.Err? && Acceptable(xs, ys, rho) ==>
              || Energy(Centred(xs, |xs[0]|), |xs[0]|, |xs|) == 0.0
              || exists unit, o: nat :: RefusesOutput(solve, xs, |xs[0]|, ys, |ys[0]|, rho, unit, o, r.code)
  {
    if rho <= 0.0 {
      return Err("transport_regularization_policy_invalid");
    }
    if |xs| != |ys| {
      return Err("transport_anchor_count");
    }
    if |xs| < 3 || !Anchors(xs, |xs[0]|) {
      return Err("transport_source_shape");
    }
    if !Anchors(ys, |ys[0]|) {
      return Err("transport_target_shape");
    }
    var d, t := |xs[0]|, |ys[0]|;
    var unit := DesignUnit(sqrt, xs, d);
    if unit <= 0.0 {
      ZeroUnit(unit, Energy(Centred(xs, d), d, |xs|), d);
      return Err("transport_centered_design_degenerate");
    }
    var fit := FitOutputs(solve, xs, d, ys, t, rho, unit);
    if fit.Err? {
      return Err(fit.code);
    }
    var f := Report(sqrt, xs, d, ys, t, rho, unit, fit.value);
    r := Ok(f);
  }

  /** Every output in turn. */
  method FitOutputs(solve: Solver, xs: Mat, d: nat, ys: Mat, t: nat, rho: real, unit: real) returns (r: Result<Map>)
    requires SolvesExactly(solve) && Anchors(xs, d) && Anchors(ys, t) && |ys| == |xs| && rho > 0.0
    requires unit > 0.0 && IsUnit(xs, d, unit)
    ensures r.Ok? ==> BestMap(xs, d, ys, t, rho, r.value)
    ensures r.Err? ==> exists o: nat :: RefusesOutput(solve, xs, d, ys, t, rho, unit, o, r.code)
  {
    var weights: Mat, bias: Vec := [], [];
    for o := 0 to t
      invariant |weights| == |bias| == o && forall p | 0 <= p < o :: |weights[p]| == d
      invariant forall p | 0 <= p < o :: BestOutput(xs, d, ys, t, rho, Map(weights, bias), p)
    {
      var one := FitOutput(solve, xs, d, Column(ys, t, o), rho, unit);
      if one.Err? {
        assert RefusesOutput(solve, xs, d, ys, t, rho, unit, o, one.code);
        return Err(one.code);
      }
      KeepOutputs(xs, d, ys, t, rho, weights, bias, one.value.0, one.value.1);
      weights := weights + [one.value.0];
      bias := bias + [one.value.1];
    }
    r := Ok(Map(weights, bias));
  }

  /** The training error and the diagnostics of a finished map. */
  method Report(sqrt: real -> real, xs: Mat, d: nat, ys: Mat, t: nat, rho: real, unit: real, m: Map)
    returns (f: Fitted)
    requires IsSqrt(sqrt) && BestMap(xs, d, ys, t, rho, m) && IsUnit(xs, d, unit)
    ensures IsFitted(xs, d, ys, t, rho, f)
  {
    var rms := TrainingRms(sqrt, xs, d, ys, t, m);
    var scale := Mul(unit, unit);
    f := Fitted(m, rms, Mul(scale, d as real), scale, Mul(rho, scale));
    Diagnosed(xs, d, rho, unit, f);
  }

  lemma ZeroUnit(unit: real, energy: real, d: nat)
    requires d > 0 && unit == 0.0 && unit * unit == energy / d as real
    ensures energy == 0.0
  {
    assert energy / d as real * d as real == energy;
  }

  lemma KeepOutputs(xs: Mat, d: nat, ys: Mat, t: nat, rho: real, weights: Mat, bias: Vec, w: Vec, b: real)
    requires Anchors(xs, d) && Anchors(ys, t) && |ys| == |xs| && |weights| == |bias| < t
    requires forall p | 0 <= p < |weights| :: BestOutput(xs, d, ys, t, rho, Map(weights, bias), p)
    requires IsBest(xs, d, Column(ys, t, |weights|), TraceRidge(xs, d, rho), w, b)
    ensures forall p | 0 <= p <= |weights| :: BestOutput(xs, d, ys, t, rho, Map(weights + [w], bias + [b]), p)
  {
    forall p | 0 <= p <= |weights|
      ensures BestOutput(xs, d, ys, t, rho, Map(weights + [w], bias + [b]), p)
    {
      if p < |weights| {
        assert BestOutput(xs, d, ys, t, rho, Map(weights, bias), p);
      }
    }
  }
}
