/** Quadratic trust regions: uniform scaling. */
module TrustRegion {
  import opened Prelude
  import opened Vectors

  /** Proposals at or below this cost are never scaled. */
  const NEGLIGIBLE: real := 0.000000000000000001

  /** The quadratic cost of a composition; over the reals neither the sign check nor the clamp acts. */
  method QuadraticCost(validate: Mat -> bool, metric: Mat, x: Vec) returns (r: Result<real>)
    requires Validates(validate)
    ensures r.Ok? <==> validate(metric) && |metric| == |x|
    ensures r.Ok? ==> r.value == Quad(metric, |x|, x) >= 0.0
  {
    if !validate(metric) {
      return Err("trust_region_metric");
    }
    if |metric| != |x| || x == [] {
      return Err("trust_region_shape");
    }
    var cost := Dot(x, MatVec(metric, x), |x|);
    assert cost == Quad(metric, |x|, x);
    if cost < -ROOT {
      return Err("trust_region_negative_psd_cost");
    }
    r := Ok(Max(cost, 0.0));
  }

  datatype Allocation = Allocation(accepted: Vec, proposedCost: real, acceptedCost: real, budget: real, scale: real,
                                   constrained: bool, retention: Vec)

  lemma QuadScaled(a: Mat, n: nat, c: real, x: Vec)
    requires Rows(a, n, n) && |x| == n
    ensures Quad(a, n, Scaled(c, x)) == Twice(c, Quad(a, n, x))
  {
    forall i | 0 <= i < n
      ensures MatVec(a, Scaled(c, x))[i] == Scaled(c, MatVec(a, x))[i]
    {
      DotScaled(c, x, a[i], n);
    }
    assert MatVec(a, Scaled(c, x)) == Scaled(c, MatVec(a, x));
    ScaledForm(c, x, MatVec(a, x), n);
  }

  /** The uniform scale. */
  function Scale(sqrt: real -> real, proposed: real, budget: real): real {
    if proposed <= budget || proposed <= NEGLIGIBLE then 1.0
    else if budget <= 0.0 then 0.0
    else Clamp(sqrt(budget / proposed), 0.0, 1.0)
  }

  lemma RootBelowOne(s: real, q: real)
    requires s >= 0.0 && s * s == q && q <= 1.0
    ensures s <= 1.0
  {
    if s > 1.0 {
      Positive(s - 1.0, s, (s - 1.0) * s);
    }
  }

  /** A scaled proposal lands exactly on the budget. */
  lemma ScaleLands(sqrt: real -> real, proposed: real, budget: real)
    requires IsSqrt(sqrt) && budget >= 0.0 && proposed > budget && proposed > NEGLIGIBLE
    ensures 0.0 <= Scale(sqrt, proposed, budget) < 1.0
    ensures Twice(Scale(sqrt, proposed, budget), proposed) == budget
  {
    var s := Scale(sqrt, proposed, budget);
    if budget > 0.0 {
      var q := budget / proposed;
      assert q * proposed == budget;
      Ratio(q, proposed, budget);
      RootBelowOne(sqrt(q), q);
      assert s == sqrt(q) && s * s == q;
      assert s * (s * proposed) == (s * s) * proposed;
    }
  }

  lemma Ratio(q: real, proposed: real, budget: real)
    requires q * proposed == budget && 0.0 < budget < proposed
    ensures 0.0 <= q < 1.0
  {
    if q < 0.0 {
      Positive(-q, proposed, -q * proposed);
    } else if q >= 1.0 {
      Times(q - 1.0, proposed);
    }
  }

  lemma ScaledByOne(x: Vec)
    ensures Scaled(1.0, x) == x
  {
  }

  /** Uniform contraction. The accepted cost meets the budget exactly when the proposal did or was not negligible. */
  method ApplyUniform(sqrt: real -> real, validate: Mat -> bool, metric: Mat, x: Vec, budget: real)
    returns (r: Result<Allocation>)
    requires IsSqrt(sqrt) && Validates(validate)
    ensures r.Ok? <==> budget >= 0.0 && validate(metric) && |metric| == |x|
    ensures r.Ok? ==> r.value.proposedCost == Quad(metric, |x|, x) && r.value.budget == budget
    ensures r.Ok? ==> r.value.accepted == Scaled(r.value.scale, x) && 0.0 <= r.value.scale <= 1.0
    ensures r.Ok? ==> r.value.acceptedCost == Quad(metric, |x|, r.value.accepted)
    ensures r.Ok? ==> (r.value.constrained <==> r.value.scale < 1.0)
    ensures r.Ok? ==> r.value.retention == seq(|x|, _ => r.value.scale)
    ensures r.Ok? ==> (r.value.proposedCost <= budget || r.value.proposedCost <= NEGLIGIBLE ==> r.value.accepted == x)
    ensures r.Ok? && r.value.proposedCost > budget && r.value.proposedCost > NEGLIGIBLE ==>
              r.value.acceptedCost == budget
    ensures r.Ok? ==> (r.value.acceptedCost <= budget
                       <==> r.value.proposedCost <= budget || r.value.proposedCost > NEGLIGIBLE)
  {
    if budget < 0.0 {
      return Err("trust_region_budget_invalid");
    }
    var proposed := QuadraticCost(validate, metric, x);
    if proposed.Err? {
      return Err(proposed.code);
    }
    var scale := Scale(sqrt, proposed.value, budget);
    var accepted := Scaled(scale, x);
    QuadScaled(metric, |x|, scale, x);
    ScaledByOne(x);
    if proposed.value > budget && proposed.value > NEGLIGIBLE {
      ScaleLands(sqrt, proposed.value, budget);
    }
    var cost := QuadraticCost(validate, metric, accepted);
    if cost.Err? {
      return Err("trust_region_metric");
    }
    r := Ok(Allocation(accepted, proposed.value, cost.value, budget, scale, scale < 1.0, seq(|x|, _ => scale)));
  }

  /** A negligible proposal is left alone even when the budget is zero. */
  lemma NegligibleOverrunsBudget(sqrt: real -> real) returns (metric: Mat, x: Vec)
    ensures IsPsd(metric, 1) && |x| == 1 && Quad(metric, 1, x) > 0.0
    ensures Scale(sqrt, Quad(metric, 1, x), 0.0) == 1.0
  {
    metric, x := [[1.0]], [0.000000001];
    forall y: Vec | |y| == 1
      ensures Quad(metric, 1, y) >= 0.0
    {
      QuadOne(metric, y);
      Square(y[0], y[0] * y[0]);
    }
    QuadOne(metric, x);
  }

  lemma QuadOne(a: Mat, y: Vec)
    requires a == [[1.0]] && |y| == 1
    ensures Quad(a, 1, y) == y[0] * y[0]
  {
    assert Dot(a[0], y, 1) == Dot(a[0], y, 0) + 1.0 * y[0];
    assert MatVec(a, y) == [y[0]];
    assert Dot(y, MatVec(a, y), 1) == Dot(y, MatVec(a, y), 0) + y[0] * y[0];
  }
}
