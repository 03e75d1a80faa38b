/** What an affine map misses on its own anchors, all outputs together. */
module TrainingError {
  import opened Prelude
  import opened Vectors
  import opened RootMeanSquare
  import opened AffineObjective

  /** The map's misses: one row for each anchor, one column for each output. */
  function MissMatrix(xs: Mat, d: nat, ys: Mat, t: nat, weights: Mat, bias: Vec): (c: Mat)
    requires Rows(xs, |ys|, d) && Rows(ys, |ys|, t) && Rows(weights, t, d) && |bias| == t
    ensures Rows(c, |ys|, t)
    ensures forall r, o | 0 <= r < |ys| && 0 <= o < t :: c[r][o] == Dot(xs[r], weights[o], d) + bias[o] - ys[r][o]
  {
    seq(|ys|, r requires 0 <= r < |ys| =>
      seq(t, o requires 0 <= o < t => Dot(xs[r], weights[o], d) + bias[o] - ys[r][o]))
  }

  function Flatten(c: Mat): Vec {
    if c == [] then [] else Flatten(c[..|c|-1]) + c[|c|-1]
  }

  lemma {:induction false} FlattenEnergy(c: Mat, d: nat)
    requires Rows(c, |c|, d)
    ensures |Flatten(c)| == |c| * d
    ensures Dot(Flatten(c), Flatten(c), |Flatten(c)|) == Energy(c, d, |c|)
  {
    if c != [] {
      var init, last := c[..|c|-1], c[|c|-1];
      FlattenEnergy(init, d);
      DotConcat(Flatten(init), last, Flatten(init), last, d);
      EnergySame(init, c, d, |init|);
      assert |c| * d == |init| * d + d;
    }
  }

  // ----- the energy by columns

  /** The squared length of the first `j` columns, over the first `k` rows. */
  function ColumnEnergy(c: Mat, d: nat, j: nat, k: nat): real
    requires Rows(c, |c|, d) && j <= d && k <= |c|
  {
    if j == 0 then 0.0 else ColumnEnergy(c, d, j - 1, k) + Dot(Column(c, d, j - 1), Column(c, d, j - 1), k)
  }

  lemma {:induction false} NextRow(c: Mat, d: nat, j: nat, k: nat)
    requires Rows(c, |c|, d) && j <= d && k < |c|
    ensures ColumnEnergy(c, d, j, k + 1) == ColumnEnergy(c, d, j, k) + Dot(c[k], c[k], j)
  {
    if j > 0 {
      NextRow(c, d, j - 1, k);
    }
  }

  lemma {:induction false} NoRows(c: Mat, d: nat, j: nat)
    requires Rows(c, |c|, d) && j <= d
    ensures ColumnEnergy(c, d, j, 0) == 0.0
  {
    if j > 0 {
      NoRows(c, d, j - 1);
    }
  }

  /** Rows and columns add up to the same. */
  lemma {:induction false} EnergyByColumns(c: Mat, d: nat, k: nat)
    requires Rows(c, |c|, d) && k <= |c|
    ensures Energy(c, d, k) == ColumnEnergy(c, d, d, k)
  {
    if k == 0 {
      NoRows(c, d, d);
    } else {
      EnergyByColumns(c, d, k - 1);
      NextRow(c, d, d, k - 1);
    }
  }

  // ----- no worse than the mean

  lemma BestIsBelow(xs: Mat, d: nat, y: Vec, lambda: real, w: Vec, b: real, v: Vec, c: real)
    requires IsBest(xs, d, y, lambda, w, b) && |v| == d
    ensures Objective(xs, d, y, lambda, w, b) <= Objective(xs, d, y, lambda, v, c)
  {
  }

  lemma MissesBelowObjective(xs: Mat, d: nat, y: Vec, lambda: real, w: Vec, b: real)
    requires Shaped(xs, d, y) && |w| == d && lambda >= 0.0
    ensures Dot(Misses(xs, d, y, w, b), Misses(xs, d, y, w, b), |xs|) <= Objective(xs, d, y, lambda, w, b)
  {
    DotSelf(w, d);
    Times(lambda, Dot(w, w, d));
  }

  /** The best map of one output misses no more than its mean does. */
  lemma OutputBelowMean(xs: Mat, d: nat, y: Vec, lambda: real, w: Vec, b: real)
    requires IsBest(xs, d, y, lambda, w, b) && lambda >= 0.0
    ensures Dot(Misses(xs, d, y, w, b), Misses(xs, d, y, w, b), |xs|)
         <= Dot(CentredTarget(y), CentredTarget(y), |xs|)
  {
    MissesBelowObjective(xs, d, y, lambda, w, b);
    BestIsBelow(xs, d, y, lambda, w, b, Zeros(d), Mean(y));
    MeanObjective(xs, d, y, lambda);
  }

  /** The objective of predicting the mean. */
  lemma MeanObjective(xs: Mat, d: nat, y: Vec, lambda: real)
    requires Shaped(xs, d, y)
    ensures Objective(xs, d, y, lambda, Zeros(d), Mean(y)) == Dot(CentredTarget(y), CentredTarget(y), |xs|)
  {
    var m, z := Misses(xs, d, y, Zeros(d), Mean(y)), CentredTarget(y);
    forall r | 0 <= r < |xs|
      ensures m[r] == Scaled(-1.0, z)[r]
    {
      DotZero(xs[r], Zeros(d), d);
    }
    assert m == Scaled(-1.0, z);
    ScaledForm(-1.0, z, z, |xs|);
    DotZero(Zeros(d), Zeros(d), d);
  }

  ghost predicate BestColumn(xs: Mat, d: nat, ys: Mat, t: nat, lambda: real, weights: Mat, bias: Vec, o: nat)
    requires Rows(ys, |ys|, t) && o < t && o < |weights| && o < |bias|
  {
    IsBest(xs, d, Column(ys, t, o), lambda, weights[o], bias[o])
  }

  lemma MissColumn(xs: Mat, d: nat, ys: Mat, t: nat, weights: Mat, bias: Vec, o: nat)
    requires Rows(xs, |ys|, d) && Rows(ys, |ys|, t) && Rows(weights, t, d) && |bias| == t && o < t && |ys| > 0
    ensures Column(MissMatrix(xs, d, ys, t, weights, bias), t, o)
         == Misses(xs, d, Column(ys, t, o), weights[o], bias[o])
  {
  }

  lemma CentredColumn(ys: Mat, t: nat, o: nat)
    requires Rows(ys, |ys|, t) && |ys| > 0 && o < t
    ensures Column(Centred(ys, t), t, o) == CentredTarget(Column(ys, t, o))
  {
  }

  /** One output misses no more than its mean does. */
  lemma ColumnBelowMean(xs: Mat, d: nat, ys: Mat, t: nat, lambda: real, weights: Mat, bias: Vec, o: nat, m: Vec, z: Vec)
    requires Rows(xs, |ys|, d) && Rows(ys, |ys|, t) && Rows(weights, t, d) && |bias| == t && |ys| > 0 && o < t
    requires lambda >= 0.0 && BestColumn(xs, d, ys, t, lambda, weights, bias, o)
    requires m == Column(MissMatrix(xs, d, ys, t, weights, bias), t, o) && z == Column(Centred(ys, t), t, o)
    ensures Dot(m, m, |ys|) <= Dot(z, z, |ys|)
  {
    OutputBelowMean(xs, d, Column(ys, t, o), lambda, weights[o], bias[o]);
    MissColumn(xs, d, ys, t, weights, bias, o);
    CentredColumn(ys, t, o);
  }

  lemma {:induction false} ColumnsBelow(m: Mat, z: Mat, n: nat, t: nat, j: nat)
    requires Rows(m, n, t) && Rows(z, n, t) && j <= t
    requires forall o {:trigger Column(m, t, o)} | 0 <= o < t ::
               Dot(Column(m, t, o), Column(m, t, o), n) <= Dot(Column(z, t, o), Column(z, t, o), n)
    ensures ColumnEnergy(m, t, j, n) <= ColumnEnergy(z, t, j, n)
  {
    if j > 0 {
      ColumnsBelow(m, z, n, t, j - 1);
    }
  }

  /** Over all outputs together, a best map never misses more than predicting the mean of the targets does. */
  lemma TrainingBelowMean(xs: Mat, d: nat, ys: Mat, t: nat, lambda: real, weights: Mat, bias: Vec, rms: real,
                          spread: real)
    requires Rows(xs, |ys|, d) && Rows(ys, |ys|, t) && Rows(weights, t, d) && |bias| == t && |ys| > 0 && t > 0
    requires lambda >= 0.0
    requires forall o {:trigger BestColumn(xs, d, ys, t, lambda, weights, bias, o)} | 0 <= o < t ::
               BestColumn(xs, d, ys, t, lambda, weights, bias, o)
    requires IsRms(rms, |ys| * t, Energy(MissMatrix(xs, d, ys, t, weights, bias), t, |ys|))
    requires IsRms(spread, |ys| * t, Energy(Centred(ys, t), t, |ys|))
    ensures rms <= spread
  {
    var m, z := MissMatrix(xs, d, ys, t, weights, bias), Centred(ys, t);
    EnergyBelowMean(xs, d, ys, t, lambda, weights, bias, m, z);
    NonzeroCount(|ys|, t);
    RmsMonotone(rms, spread, |ys| * t, Energy(m, t, |ys|), Energy(z, t, |ys|));
  }

  lemma EnergyBelowMean(xs: Mat, d: nat, ys: Mat, t: nat, lambda: real, weights: Mat, bias: Vec, m: Mat, z: Mat)
    requires Rows(xs, |ys|, d) && Rows(ys, |ys|, t) && Rows(weights, t, d) && |bias| == t && |ys| > 0
    requires lambda >= 0.0 && m == MissMatrix(xs, d, ys, t, weights, bias) && z == Centred(ys, t)
    requires forall o {:trigger BestColumn(xs, d, ys, t, lambda, weights, bias, o)} | 0 <= o < t ::
               BestColumn(xs, d, ys, t, lambda, weights, bias, o)
    ensures Energy(m, t, |ys|) <= Energy(z, t, |ys|)
  {
    forall o | 0 <= o < t
      ensures Dot(Column(m, t, o), Column(m, t, o), |ys|) <= Dot(Column(z, t, o), Column(z, t, o), |ys|)
    {
      assert BestColumn(xs, d, ys, t, lambda, weights, bias, o);
      ColumnBelowMean(xs, d, ys, t, lambda, weights, bias, o, Column(m, t, o), Column(z, t, o));
    }
    ColumnsBelow(m, z, |ys|, t, t);
    EnergyByColumns(m, t, |ys|);
    EnergyByColumns(z, t, |ys|);
  }

  lemma NonzeroCount(n: nat, d: nat)
    requires n > 0 && d > 0
    ensures n * d > 0
  {
  }

  lemma RmsMonotone(r: real, s: real, n: nat, x: real, y: real)
    requires n > 0 && IsRms(r, n, x) && IsRms(s, n, y) && x <= y
    ensures r <= s
  {
    if r > s {
      Positive(r - s, r, (r - s) * r);
      Times(r - s, s);
      Positive(r * r - s * s, n as real, (r * r - s * s) * n as real);
    }
  }
}
