/** Which way a reconstructed drift runs: consistent measurements are recovered as they are, and otherwise the steps
    taken agree with the steps observed. */
module DriftLaws {
  import opened Prelude
  import opened Vectors
  import opened MeasurementGraph
  import opened Inversion
  import opened EdgeResiduals
  import Trajectory

  // ----- consistent pairs

  /** Every pair measures the change of `v` from its first epoch to its second. */
  ghost predicate Consistent(pairs: seq<Pair>, v: Vec) {
    forall k | 0 <= k < |pairs| ::
      pairs[k].a < |v| && pairs[k].b < |v| && pairs[k].differential == v[pairs[k].b] - v[pairs[k].a]
  }

  lemma ConsistentIsExact(pairs: seq<Pair>, v: Vec)
    requires Consistent(pairs, v)
    ensures Exact(Measurements(pairs), v)
  {
  }

  /** Without regularisation a consistent drift is recovered exactly. */
  lemma RecoversDrift(n: nat, pairs: seq<Pair>, v: Vec, u: Vec)
    requires Accepted(n, pairs, 0.0) && Consistent(pairs, v) && |v| == n && v[0] == 0.0
    requires IsInversion(n, Measurements(pairs), 0.0, u)
    ensures u == v
  {
    var ms := Measurements(pairs);
    ConsistentIsExact(pairs, v);
    ExactMisfit(ms, v, |ms|);
    MisfitNonneg(n, ms, u, |ms|);
    assert Energy(ms, 0.0, v) == 0.0;
    assert Energy(ms, 0.0, u) >= 0.0;
  }

  // ----- steps taken and steps observed

  /** The weighted product of the steps of `u` with the steps measured. */
  function Agreement(ms: seq<Measurement>, u: Vec, k: nat): real
    requires k <= |ms| && forall i | 0 <= i < |ms| :: ms[i].a < |u| && ms[i].b < |u|
  {
    if k == 0 then 0.0
    else Agreement(ms, u, k - 1) + Product(ms[k-1].weight, u[ms[k-1].b] - u[ms[k-1].a], ms[k-1].diff)
  }

  function Product(w: real, step: real, diff: real): real {
    w * (step * diff)
  }

  /** The misfit of `u` is at least that of standing still, less twice the agreement. */
  lemma {:induction false} MisfitAgreement(n: nat, ms: seq<Measurement>, u: Vec, k: nat)
    requires WellFormed(n, ms) && |u| == n && k <= |ms|
    ensures EdgeMisfit(ms, u, k) >= EdgeMisfit(ms, Zeros(n), k) - 2.0 * Agreement(ms, u, k)
  {
    if k > 0 {
      var m := ms[k-1];
      MisfitAgreement(n, ms, u, k - 1);
      CostAgreement(m.weight, u[m.b] - u[m.a], m.diff);
    }
  }

  lemma CostAgreement(w: real, step: real, diff: real)
    requires w > 0.0
    ensures Cost(w, step - diff) >= Cost(w, 0.0 - 0.0 - diff) - 2.0 * Product(w, step, diff)
  {
    Square(step, step * step);
    Times(w, step * step);
    assert (step - diff) * (step - diff) == step * step - 2.0 * (step * diff) + diff * diff;
    Expanded(w, step * step, step * diff, diff * diff);
  }

  lemma Expanded(w: real, a: real, b: real, c: real)
    ensures w * (a - 2.0 * b + c) == w * a - 2.0 * (w * b) + w * c
  {
  }

  /** The best potentials step the way the measurements say: their agreement is positive unless they stand still. */
  lemma BestAgrees(n: nat, ms: seq<Measurement>, mu: real, u: Vec)
    requires WellFormed(n, ms) && mu >= 0.0 && IsInversion(n, ms, mu, u)
    ensures u == Zeros(n) || Agreement(ms, u, |ms|) > 0.0
  {
    if u != Zeros(n) {
      assert Energy(ms, mu, u) < Energy(ms, mu, Zeros(n));
      MisfitAgreement(n, ms, u, |ms|);
      DotZero(Zeros(n), Zeros(n), n);
      DotSelf(u, n);
      Times(mu, Dot(u, u, n));
    }
  }

  /** The agreement of coordinate `p` of a reconstruction, from checkpoint to checkpoint as observed. */
  function ObservedAgreement(obs: seq<Trajectory.Observation>, order: seq<string>, potentials: Mat, p: nat,
                             k: nat): real
    requires Trajectory.Placed(obs, order, potentials) && p < |obs[0].delta| && k <= |obs|
  {
    if k == 0 then 0.0
    else ObservedAgreement(obs, order, potentials, p, k - 1)
         + Product(obs[k-1].reliability, Trajectory.StepOf(obs[k-1], order, potentials, p), obs[k-1].delta[p])
  }

  lemma {:induction false} SameAgreement(obs: seq<Trajectory.Observation>, order: seq<string>, potentials: Mat, p: nat,
                                         k: nat)
    requires Trajectory.Placed(obs, order, potentials) && p < |obs[0].delta| && k <= |obs|
    ensures ObservedAgreement(obs, order, potentials, p, k)
         == Agreement(Trajectory.Coordinate(obs, order, p), Trajectory.Column(potentials, p), k)
  {
    if k > 0 {
      SameAgreement(obs, order, potentials, p, k - 1);
    }
  }

  /** A reconstruction steps the way its observations say, coordinate by coordinate, unless it does not move. */
  lemma StepsAgree(obs: seq<Trajectory.Observation>, order: seq<string>, ridge: real, potentials: Mat, p: nat)
    requires Trajectory.Accepted(obs, ridge) && Trajectory.Placed(obs, order, potentials) && p < |obs[0].delta|
    requires Trajectory.Reconstructs(obs, order, ridge, potentials)
    ensures Trajectory.Column(potentials, p) == Zeros(|order|)
         || ObservedAgreement(obs, order, potentials, p, |obs|) > 0.0
  {
    var u := Trajectory.Column(potentials, p);
    assert Trajectory.Minimises(obs, order, ridge, p, u);
    BestAgrees(|order|, Trajectory.Coordinate(obs, order, p), ridge, u);
    SameAgreement(obs, order, potentials, p, |obs|);
  }
}
