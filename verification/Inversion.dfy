/** `sbas_inversion`: cumulative drift from pairwise differentials. */
module Inversion {
  import opened Prelude
  import opened Vectors
  import opened LeastSquares
  import opened RidgeFit
  import opened MeasurementGraph
  import opened ConditionEstimate
  import opened LinearTrend
  import Cholesky

  /** `differential` measures the drift from epoch `a` to epoch `b`. */
  datatype Pair = Pair(a: nat, b: nat, differential: real)

  function Measurements(pairs: seq<Pair>): (ms: seq<Measurement>)
    ensures |ms| == |pairs|
    ensures forall k | 0 <= k < |pairs| :: ms[k] == Measurement(pairs[k].a, pairs[k].b, pairs[k].differential, 1.0)
  {
    seq(|pairs|, k requires 0 <= k < |pairs| => Measurement(pairs[k].a, pairs[k].b, pairs[k].differential, 1.0))
  }

  /** What the entry checks accept. */
  predicate Accepted(n: nat, pairs: seq<Pair>, regularisation: real) {
    && n >= 2 && pairs != [] && regularisation >= 0.0
    && (forall k | 0 <= k < |pairs| :: pairs[k].a < n && pairs[k].b < n && pairs[k].a != pairs[k].b)
  }

  /** The accumulators hold the first `k` measurements. */
  ghost predicate Accumulated(n: nat, ms: seq<Measurement>, ata: array2<real>, atb: array<real>, k: nat)
    requires k <= |ms| && n >= 1
    reads ata, atb
  {
    && ata.Length0 == ata.Length1 == atb.Length == n - 1
    && (forall i, j | 0 <= i < n - 1 && 0 <= j < n - 1 :: ata[i, j] == Entry(n, ms, i, j, k))
    && (forall i | 0 <= i < n - 1 :: atb[i] == RhsEntry(ms, i, k))
  }

  /** Add one pair to the normal equations. */
  method Accumulate(n: nat, ms: seq<Measurement>, ata: array2<real>, atb: array<real>, k: nat)
    requires WellFormed(n, ms) && k < |ms| && ms[k].weight == 1.0
    requires Accumulated(n, ms, ata, atb, k)
    modifies ata, atb
    ensures Accumulated(n, ms, ata, atb, k + 1)
  {
    var pair := ms[k];
    if pair.b > 0 {
      var cb := pair.b - 1;
      ata[cb, cb] := ata[cb, cb] + 1.0;
      atb[cb] := atb[cb] + pair.diff;
    }
    if pair.a > 0 {
      var ca := pair.a - 1;
      ata[ca, ca] := ata[ca, ca] + 1.0;
      atb[ca] := atb[ca] - pair.diff;
    }
    if pair.a > 0 && pair.b > 0 {
      var ca, cb := pair.a - 1, pair.b - 1;
      ata[ca, cb] := ata[ca, cb] - 1.0;
      ata[cb, ca] := ata[cb, ca] - 1.0;
    }
    assert 1.0 * pair.diff == pair.diff;
  }

  /** The normal equations of all pairs, with the ridge on the diagonal. */
  method Assemble(n: nat, ms: seq<Measurement>, mu: real)
    returns (ata: array2<real>, atb: array<real>, ghost a: Mat)
    requires WellFormed(n, ms) && forall k | 0 <= k < |ms| :: ms[k].weight == 1.0
    ensures fresh(ata) && fresh(atb)
    ensures Cholesky.Mirrors(ata, a, n - 1) && atb.Length == n - 1
    ensures forall i | 0 <= i < n - 1 :: ata[i, i] == Diagonal(n, ms, mu)[i]
    ensures Assembled(GraphFit(n, ms), mu, a, atb[..])
  {
    var unknowns := n - 1;
    ata := new real[unknowns, unknowns]((_, _) => 0.0);
    atb := new real[unknowns](_ => 0.0);
    for k := 0 to |ms|
      invariant Accumulated(n, ms, ata, atb, k)
    {
      Accumulate(n, ms, ata, atb, k);
    }
    for i := 0 to unknowns
      invariant forall p, q | 0 <= p < unknowns && 0 <= q < unknowns ::
                  ata[p, q] == Entry(n, ms, p, q, |ms|) + if p == q && p < i then mu else 0.0
      invariant forall p | 0 <= p < unknowns :: atb[p] == RhsEntry(ms, p, |ms|)
    {
      ata[i, i] := ata[i, i] + mu;
    }
    a := seq(unknowns, i requires 0 <= i < unknowns => seq(unknowns, j requires 0 <= j < unknowns =>
           Entry(n, ms, i, j, |ms|) + if i == j then mu else 0.0));
    EntriesAssemble(n, ms, mu, a, atb[..]);
  }

  /** The potentials minimise the energy, and nothing else does. */
  ghost predicate IsInversion(n: nat, ms: seq<Measurement>, mu: real, u: Vec)
    requires WellFormed(n, ms)
  {
    && |u| == n && u[0] == 0.0
    && (forall z: Vec {:trigger Energy(ms, mu, z)} | |z| == n && z[0] == 0.0 && z != u ::
      Energy(ms, mu, u) < Energy(ms, mu, z))
  }

  /** What the source returns; the intercept of the fitted line is not kept. */
  datatype TimeSeries = TimeSeries(cumulative: Vec, velocity: real, residualRms: real, condition: real)

  /** The drift, the slope of its least-squares line, what is left around the line, and the condition estimate. */
  ghost predicate IsSeries(n: nat, ms: seq<Measurement>, mu: real, ceiling: real, t: TimeSeries)
    requires WellFormed(n, ms)
  {
    && IsInversion(n, ms, mu, t.cumulative) && IsCondition(Diagonal(n, ms, mu), ceiling, t.condition)
    && (exists intercept :: IsTrend(t.cumulative, Trend(t.velocity, intercept, t.residualRms)))
  }

  /** Succeeds exactly when the pairs connect every epoch to epoch 0 or the regularisation is positive. */
  method SbasInversion(sqrt: real -> real, ceiling: real, numEpochs: nat, pairs: seq<Pair>, regularisation: real)
    returns (r: Result<TimeSeries>)
    requires IsSqrt(sqrt)
    ensures r.Ok? <==> Accepted(numEpochs, pairs, regularisation)
                       && (regularisation > 0.0 || Anchored(numEpochs, Measurements(pairs)))
    ensures r.Ok? ==> IsSeries(numEpochs, Measurements(pairs), regularisation, ceiling, r.value)
  {
    if numEpochs < 2 {
      return Err("sbas_insufficient_epochs");
    }
    if pairs == [] {
      return Err("sbas_no_pairs");
    }
    if regularisation < 0.0 {
      return Err("sbas_regularisation_invalid");
    }
    for k := 0 to |pairs|
      invariant forall i | 0 <= i < k :: pairs[i].a < numEpochs && pairs[i].b < numEpochs && pairs[i].a != pairs[i].b
    {
      if pairs[k].a >= numEpochs || pairs[k].b >= numEpochs {
        return Err("sbas_epoch_out_of_range");
      }
      if pairs[k].a == pairs[k].b {
        return Err("sbas_self_pair");
      }
    }
    r := InvertAccepted(sqrt, ceiling, numEpochs, pairs, regularisation);
  }

  method InvertAccepted(sqrt: real -> real, ceiling: real, n: nat, pairs: seq<Pair>, mu: real)
    returns (r: Result<TimeSeries>)
    requires IsSqrt(sqrt) && Accepted(n, pairs, mu)
    ensures r.Ok? <==> mu > 0.0 || Anchored(n, Measurements(pairs))
    ensures r.Ok? ==> IsSeries(n, Measurements(pairs), mu, ceiling, r.value)
  {
    var ms := Measurements(pairs);
    var ata, atb; ghost var a;
    ata, atb, a := Assemble(n, ms, mu);
    var condition := EstimateCondition(ata, Diagonal(n, ms, mu), ceiling);
    var cumulative := SolveAssembled(sqrt, n, ms, mu, ata, a, atb[..]);
    if cumulative.Err? {
      return Err(cumulative.code);
    }
    var trend := FitTrend(sqrt, cumulative.value);
    r := Ok(TimeSeries(cumulative.value, trend.velocity, trend.residualRms, condition));
    KeptSeries(n, ms, mu, ceiling, r.value, trend);
  }

  lemma KeptSeries(n: nat, ms: seq<Measurement>, mu: real, ceiling: real, t: TimeSeries, trend: Trend)
    requires WellFormed(n, ms) && IsInversion(n, ms, mu, t.cumulative) && IsTrend(t.cumulative, trend)
    requires t.velocity == trend.velocity && t.residualRms == trend.residualRms
    requires IsCondition(Diagonal(n, ms, mu), ceiling, t.condition)
    ensures IsSeries(n, ms, mu, ceiling, t)
  {
    assert IsTrend(t.cumulative, Trend(t.velocity, trend.intercept, t.residualRms));
  }

  lemma AssembledFacts(n: nat, ms: seq<Measurement>, mu: real, a: Mat, b: Vec)
    requires WellFormed(n, ms) && mu >= 0.0 && Assembled(GraphFit(n, ms), mu, a, b)
    ensures Symmetric(a, n - 1)
    ensures PositiveDefinite(a, n - 1) <==> mu > 0.0 || Anchored(n, ms)
  {
    AssembledIsNormal(GraphFit(n, ms), mu, a, b);
    NormalIsSymmetric(Ridged(GraphFit(n, ms), mu), a, b);
    DefiniteIffAnchored(n, ms, mu, a, b);
  }

  lemma InversionIsMinimal(n: nat, ms: seq<Measurement>, mu: real, a: Mat, b: Vec, x: Vec)
    requires WellFormed(n, ms) && mu >= 0.0 && Assembled(GraphFit(n, ms), mu, a, b)
    requires |x| == n - 1 && MatVec(a, x) == b && PositiveDefinite(a, n - 1)
    ensures IsInversion(n, ms, mu, Potentials(x))
  {
    forall z: Vec | |z| == n && z[0] == 0.0 && z != Potentials(x)
      ensures Energy(ms, mu, Potentials(x)) < Energy(ms, mu, z)
    {
      SolutionIsMinimal(n, ms, mu, a, b, x, z);
    }
  }

  method SolveAssembled(sqrt: real -> real, n: nat, ms: seq<Measurement>, mu: real,
                        ata: array2<real>, ghost a: Mat, b: Vec)
    returns (r: Result<Vec>)
    requires IsSqrt(sqrt) && WellFormed(n, ms) && mu >= 0.0 && Cholesky.Mirrors(ata, a, n - 1)
    requires Assembled(GraphFit(n, ms), mu, a, b)
    ensures r.Ok? <==> mu > 0.0 || Anchored(n, ms)
    ensures r.Ok? ==> IsInversion(n, ms, mu, r.value)
  {
    AssembledFacts(n, ms, mu, a, b);
    var x := Cholesky.Solve(sqrt, ata, a, n - 1, b);
    if x.Err? {
      return Err(x.code);
    }
    InversionIsMinimal(n, ms, mu, a, b, x.value);
    r := Ok(Potentials(x.value));
  }
}
