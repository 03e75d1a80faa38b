/** `apply_causal_priority_trust_region`: contract one coordinate at a time until the budget is met. */
module CausalContraction {
  import opened Prelude
  import opened Vectors
  import opened TrustRegion

  // ----- signs and magnitudes

  function Sgn(x: real): (s: real)
    ensures s * s == 1.0
  {
    if x < 0.0 then -1.0 else 1.0
  }

  function Magnitudes(x: Vec): (m: Vec)
    ensures |m| == |x| && forall i | 0 <= i < |x| :: m[i] == Abs(x[i])
  {
    seq(|x|, i requires 0 <= i < |x| => Abs(x[i]))
  }

  /** The magnitudes with the signs of `c` put back. */
  function Signed(c: Vec, m: Vec): (x: Vec)
    requires |m| == |c|
    ensures |x| == |c| && forall i | 0 <= i < |c| :: x[i] == Sgn(c[i]) * m[i]
  {
    seq(|c|, i requires 0 <= i < |c| => Sgn(c[i]) * m[i])
  }

  lemma SignedMagnitudes(c: Vec)
    ensures Signed(c, Magnitudes(c)) == c
  {
    assert forall i | 0 <= i < |c| :: Signed(c, Magnitudes(c))[i] == c[i];
  }

  /** An entry with the signs of its row and its column. */
  function Flip(e: real, ci: real, cj: real): real {
    e * Sgn(ci) * Sgn(cj)
  }

  /** The metric seen by the magnitudes: every entry carries the product of its signs. */
  ghost predicate IsFlipped(t: Mat, a: Mat, c: Vec) {
    && Rows(a, |c|, |c|) && Rows(t, |c|, |c|)
    && (forall i, j | 0 <= i < |c| && 0 <= j < |c| :: t[i][j] == Flip(a[i][j], c[i], c[j]))
  }

  function Signs(c: Vec): (s: Vec)
    ensures |s| == |c| && forall i | 0 <= i < |c| :: s[i] == Sgn(c[i])
  {
    seq(|c|, i requires 0 <= i < |c| => Sgn(c[i]))
  }

  lemma SignedIsWeighted(c: Vec, m: Vec)
    requires |m| == |c|
    ensures Signed(c, m) == Weighted(Signs(c), m)
  {
  }

  lemma FlipTerm(e: real, ci: real, cj: real)
    ensures Flip(e, ci, cj) == Sgn(ci) * (Sgn(cj) * e)
  {
  }

  /** A flipped row is the original row with every entry signed, times its own sign. */
  lemma FlippedRowIs(t: Mat, a: Mat, c: Vec, i: nat)
    requires IsFlipped(t, a, c) && i < |c|
    ensures t[i] == Scaled(Sgn(c[i]), Weighted(Signs(c), a[i]))
  {
    forall j | 0 <= j < |c|
      ensures t[i][j] == Scaled(Sgn(c[i]), Weighted(Signs(c), a[i]))[j]
    {
      FlipTerm(a[i][j], c[i], c[j]);
    }
  }

  lemma SignedRowDot(ti: Vec, sign: real, signs: Vec, row: Vec, m: Vec, sm: Vec, d: real)
    requires |signs| == |row| == |m| && ti == Scaled(sign, Weighted(signs, row))
    requires sm == Weighted(signs, m) && d == Dot(row, sm, |m|)
    ensures Dot(ti, m, |m|) == Mul(sign, d)
  {
    var w := Weighted(signs, row);
    DotComm(w, m, |m|);
    DotWeighted(signs, m, row, |m|);
    ScaledIs(ti, sign, w, m, d);
  }

  lemma ScaledIs(ti: Vec, sign: real, w: Vec, m: Vec, d: real)
    requires |w| == |m| && ti == Scaled(sign, w) && d == Dot(w, m, |m|)
    ensures Dot(ti, m, |m|) == Mul(sign, d)
  {
    DotScaled(sign, w, m, |m|);
  }

  lemma WeightedAt(w: Vec, v: Vec, i: nat, x: real)
    requires |w| == |v| && i < |w| && x == Mul(w[i], v[i])
    ensures x == Weighted(w, v)[i]
  {
  }

  lemma FlippedMatVec(t: Mat, a: Mat, c: Vec, m: Vec, sm: Vec)
    requires IsFlipped(t, a, c) && |m| == |c| && sm == Weighted(Signs(c), m)
    ensures MatVec(t, m) == Weighted(Signs(c), MatVec(a, sm))
  {
    forall i | 0 <= i < |c|
      ensures MatVec(t, m)[i] == Weighted(Signs(c), MatVec(a, sm))[i]
    {
      FlippedRowIs(t, a, c, i);
      SignedRowDot(t[i], Sgn(c[i]), Signs(c), a[i], m, sm, MatVec(a, sm)[i]);
      WeightedAt(Signs(c), MatVec(a, sm), i, MatVec(t, m)[i]);
    }
  }

  /** The cost tracked on magnitudes is the cost of the signed vector in the original metric. */
  lemma FlippedCost(t: Mat, a: Mat, c: Vec, m: Vec)
    requires IsFlipped(t, a, c) && |m| == |c|
    ensures Quad(t, |c|, m) == Quad(a, |c|, Signed(c, m))
  {
    SignedIsWeighted(c, m);
    FlippedMatVec(t, a, c, m, Signed(c, m));
    SignedForm(Signs(c), m, MatVec(a, Signed(c, m)));
  }

  lemma SignedForm(signs: Vec, m: Vec, ax: Vec)
    requires |signs| == |m| == |ax|
    ensures Dot(m, Weighted(signs, ax), |m|) == Dot(Weighted(signs, m), ax, |m|)
  {
    DotWeighted(signs, m, ax, |m|);
    DotComm(ax, Weighted(signs, m), |m|);
  }

  lemma FlippedEntrySymmetric(e: real, ci: real, cj: real)
    ensures Flip(e, ci, cj) == Flip(e, cj, ci)
  {
  }

  /** Flipping signs keeps the metric positive semidefinite, so its validation never fails. */
  lemma FlippedPsd(t: Mat, a: Mat, c: Vec)
    requires IsFlipped(t, a, c) && IsPsd(a, |c|)
    ensures IsPsd(t, |c|)
  {
    forall i, j | 0 <= i < |c| && 0 <= j < |c|
      ensures t[i][j] == t[j][i]
    {
      FlippedEntrySymmetric(a[i][j], c[i], c[j]);
    }
    forall m: Vec | |m| == |c|
      ensures Quad(t, |c|, m) >= 0.0
    {
      FlippedCost(t, a, c, m);
      assert Quad(a, |c|, Signed(c, m)) >= 0.0;
    }
  }

  method SignedMagnitudeMetric(validate: Mat -> bool, a: Mat, c: Vec) returns (r: Result<Mat>)
    requires Validates(validate) && validate(a)
    ensures r.Ok? <==> |a| == |c|
    ensures r.Ok? ==> IsFlipped(r.value, a, c) && validate(r.value)
  {
    if |a| != |c| || c == [] {
      return Err("causal_trust_region_shape");
    }
    var n := |c|;
    var out := new real[n, n]((_, _) => 0.0);
    for row := 0 to n
      invariant forall i, j | 0 <= i < row && 0 <= j < n :: out[i, j] == Flip(a[i][j], c[i], c[j])
    {
      for col := 0 to n
        invariant forall i, j | 0 <= i < row && 0 <= j < n :: out[i, j] == Flip(a[i][j], c[i], c[j])
        invariant forall j | 0 <= j < col :: out[row, j] == Flip(a[row][j], c[row], c[j])
      {
        out[row, col] := Flip(a[row][col], c[row], c[col]);
      }
    }
    var t := AsMat(out);
    FlippedPsd(t, a, c);
    if !validate(t) {
      return Err("trust_region_metric");
    }
    r := Ok(t);
  }

  // ----- the coordinate to sacrifice

  function AbsSum(v: Vec, k: nat): (s: real)
    requires k <= |v|
    ensures s >= 0.0
  {
    if k == 0 then 0.0 else AbsSum(v, k - 1) + Abs(v[k-1])
  }

  function CandidateTolerance(m: Vec, g: Vec): (t: real)
    ensures t > 0.0
  {
    ROOT * (1.0 + AbsSum(m, |m|) + AbsSum(g, |g|))
  }

  /** Both the magnitude and its marginal cost are above the tolerance. */
  predicate Eligible(m: Vec, g: Vec, i: nat)
    requires |m| == |g| && i < |m|
  {
    m[i] > CandidateTolerance(m, g) && g[i] > CandidateTolerance(m, g)
  }

  /** Causal utility given up per unit of marginal cost relieved. */
  function UtilityRatio(priority: real, gradient: real): real
    requires gradient > 0.0
  {
    priority / (2.0 * gradient)
  }

  /** Candidate `b` is within the tolerance of the cheapest among the first `k`. */
  ghost predicate Cheapest(m: Vec, g: Vec, ps: Vec, k: nat, b: nat, ratio: real)
    requires |m| == |g| == |ps| && k <= |m|
  {
    && b < k && Eligible(m, g, b) && ratio == UtilityRatio(ps[b], g[b])
    && forall i: nat | i < k && Eligible(m, g, i) :: ratio <= UtilityRatio(ps[i], g[i]) + CandidateTolerance(m, g)
  }

  lemma RatioPositive(p: real, g: real)
    requires p > 0.0 && g > 0.0
    ensures UtilityRatio(p, g) > 0.0
  {
    var r := UtilityRatio(p, g);
    assert r * (2.0 * g) == p;
    if r <= 0.0 {
      Times(-r, 2.0 * g);
    }
  }

  /** The cheapest eligible coordinate, up to the tolerance; none exactly when none is eligible. */
  method CausalPriorityCandidate(metric: Mat, m: Vec, ps: Vec) returns (r: Result<Option<nat>>)
    requires Rows(metric, |m|, |m|) && |ps| == |m| && forall i | 0 <= i < |ps| :: ps[i] > 0.0
    ensures r.Ok?
    ensures r.value.None? <==> forall i: nat | i < |m| :: !Eligible(m, MatVec(metric, m), i)
    ensures r.value.Some? ==> r.value.value < |m| && MatVec(metric, m)[r.value.value] > 0.0
                              && Cheapest(m, MatVec(metric, m), ps, |m|, r.value.value,
                                          UtilityRatio(ps[r.value.value], MatVec(metric, m)[r.value.value]))
  {
    var gradient := MatVec(metric, m);
    var tolerance := CandidateTolerance(m, gradient);
    var selected: Option<(nat, real)> := None;
    for index := 0 to |m|
      invariant selected.None? <==> forall i: nat | i < index :: !Eligible(m, gradient, i)
      invariant selected.Some? ==> Cheapest(m, gradient, ps, index, selected.value.0, selected.value.1)
    {
      if m[index] <= tolerance || gradient[index] <= tolerance {
        continue;
      }
      assert Eligible(m, gradient, index);
      var ratio := UtilityRatio(ps[index], gradient[index]);
      RatioPositive(ps[index], gradient[index]);
      if ratio <= 0.0 {
        return Err("causal_trust_region_priority_ratio_invalid");
      }
      if selected.None? || ratio < selected.value.1 - tolerance
         || (Abs(ratio - selected.value.1) <= tolerance && index < selected.value.0) {
        selected := Some((index, ratio));
      }
    }
    r := Ok(if selected.Some? then Some(selected.value.0) else None);
  }

  // ----- one contraction

  function Pow2(k: nat): (p: real)
    ensures p > 0.0
  {
    if k == 0 then 1.0 else 2.0 * Pow2(k - 1)
  }

  function Lower(m: Vec, i: nat, x: real): Vec
    requires i < |m|
  {
    m[i := m[i] - x]
  }

  /** No magnitude grows and none turns negative. */
  predicate Shrunk(m: Vec, m0: Vec) {
    |m| == |m0| && forall i | 0 <= i < |m0| :: 0.0 <= m[i] <= m0[i]
  }

  /** Giving coordinate `i` back by `w`, a 2^-96 part of its proposal at most, would exceed the budget. */
  ghost predicate Tight(t: Mat, m: Vec, m0: Vec, budget: real, i: nat, w: real) {
    && |m| == |m0| && Rows(t, |m|, |m|) && i < |m|
    && w > 0.0 && w * Pow2(96) <= m0[i] && m[i] + w <= m0[i]
    && Quad(t, |m|, m[i := m[i] + w]) > budget
  }

  /** Every diagonal entry is above the tolerance. */
  predicate Steep(t: Mat, tolerance: real) {
    forall i | 0 <= i < |t| :: |t[i]| == |t| && t[i][i] > tolerance
  }

  /** Moving down towards the minimum along one coordinate never raises the cost. */
  lemma DownhillCost(t: Mat, m: Vec, i: nat, x: real)
    requires Symmetric(t, |m|) && i < |m| && t[i][i] > 0.0
    requires 0.0 <= x && x * t[i][i] <= MatVec(t, m)[i]
    ensures Quad(t, |m|, Lower(m, i, x)) <= Quad(t, |m|, m)
  {
    CoordinateCost(t, |m|, m, i, x);
    Downhill(Quad(t, |m|, m), MatVec(t, m)[i], t[i][i], x);
  }

  lemma Downhill(c: real, g: real, d: real, x: real)
    requires 0.0 <= x && d > 0.0 && x * d <= g
    ensures Along(c, g, d, -x) <= c
  {
    Times(x, g - x * d);
    Times(x, d);
    Times(x, x * d);
    assert Along(c, g, d, -x) == c - 2.0 * (x * (g - x * d)) - x * (x * d);
  }

  /** How far down the coordinate may go: to the minimum along it, never past zero. */
  function BestDecrement(m: real, g: real, d: real, tolerance: real): (x: real)
    requires m >= 0.0 && tolerance >= 0.0
    ensures x <= m
    ensures x >= 0.0
  {
    if d > tolerance then Clamp(g / d, 0.0, m) else m
  }

  lemma DecrementDownhill(m: real, g: real, d: real, tolerance: real)
    requires m >= 0.0 && tolerance >= 0.0 && d > tolerance && g > 0.0
    ensures BestDecrement(m, g, d, tolerance) * d <= g
  {
    var x, q := BestDecrement(m, g, d, tolerance), g / d;
    assert q * d == g;
    if q < 0.0 {
      Positive(-q, d, -q * d);
    }
    Times(q - x, d);
  }

  /** The width of a bracket before `k` halvings. */
  function Spread(lo: real, high: real, k: nat): real {
    (high - lo) * Pow2(k)
  }

  /** Lowering coordinate `i` by `lo` overruns the budget, by `high` it does not. */
  ghost predicate Brackets(t: Mat, m: Vec, i: nat, budget: real, tolerance: real, lo: real, high: real)
    requires Rows(t, |m|, |m|) && i < |m|
  {
    && 0.0 <= lo < high <= m[i]
    && Quad(t, |m|, Lower(m, i, lo)) > budget && Quad(t, |m|, Lower(m, i, high)) <= budget + tolerance
  }

  /** 96 halvings of the interval between an overrun and a cost within the budget. */
  method Bisect(validate: Mat -> bool, t: Mat, m: Vec, i: nat, best: real, budget: real, tolerance: real)
    returns (r: Result<real>, ghost low: real)
    requires Validates(validate) && validate(t) && |t| == |m| && i < |m| && tolerance >= 0.0
    requires Brackets(t, m, i, budget, tolerance, 0.0, best)
    ensures r.Ok? && Brackets(t, m, i, budget, tolerance, low, r.value) && r.value <= best
    ensures Spread(low, r.value, 96) == best
  {
    var lo, high := 0.0, best;
    for k := 0 to 96
      invariant Brackets(t, m, i, budget, tolerance, lo, high) && high <= best
      invariant Spread(lo, high, k) == best
    {
      var middle := (lo + high) * 0.5;
      Halved(lo, high, middle, k, best);
      var overruns := StillOverruns(validate, t, m, i, middle, budget, tolerance);
      if overruns {
        lo := middle;
      } else {
        high := middle;
      }
    }
    r, low := Ok(high), lo;
  }

  /** Does lowering coordinate `i` by `middle` still overrun the budget? */
  method StillOverruns(validate: Mat -> bool, t: Mat, m: Vec, i: nat, middle: real, budget: real, tolerance: real)
    returns (r: bool)
    requires Validates(validate) && validate(t) && |t| == |m| && i < |m| && tolerance >= 0.0 && 0.0 <= middle <= m[i]
    ensures if r then Quad(t, |m|, Lower(m, i, middle)) > budget
            else Quad(t, |m|, Lower(m, i, middle)) <= budget + tolerance
  {
    var candidate := m[i := Max(m[i] - middle, 0.0)];
    assert candidate == Lower(m, i, middle);
    var cost := QuadraticCost(validate, t, candidate);
    r := cost.value > budget;
  }

  lemma Halved(lo: real, high: real, middle: real, k: nat, best: real)
    requires lo < high && middle == (lo + high) * 0.5 && Spread(lo, high, k) == best
    ensures lo < middle < high
    ensures Spread(middle, high, k + 1) == best && Spread(lo, middle, k + 1) == best
  {
    var h := high - middle;
    assert h == middle - lo && high - lo == 2.0 * h;
    assert h * (2.0 * Pow2(k)) == (2.0 * h) * Pow2(k);
  }

  /** Coordinate `i` is the one to sacrifice, and `x` is how far it may go down. */
  ghost predicate Sacrifices(t: Mat, m: Vec, ps: Vec, tolerance: real, i: nat, x: real)
    requires Rows(t, |m|, |m|) && |ps| == |m|
  {
    && i < |m| && m[i] >= 0.0 && tolerance >= 0.0 && MatVec(t, m)[i] > 0.0
    && Cheapest(m, MatVec(t, m), ps, |m|, i, UtilityRatio(ps[i], MatVec(t, m)[i]))
    && x == BestDecrement(m[i], MatVec(t, m)[i], t[i][i], tolerance)
  }

  /** No coordinate may be sacrificed, or the chosen one cannot move, or its diagonal is too flat to relieve cost. */
  ghost predicate Stuck(t: Mat, m: Vec, ps: Vec, tolerance: real)
    requires Rows(t, |m|, |m|) && |ps| == |m|
  {
    || (forall i: nat | i < |m| :: !Eligible(m, MatVec(t, m), i))
    || exists i: nat, x :: Sacrifices(t, m, ps, tolerance, i, x) && (x <= tolerance || t[i][i] <= tolerance)
  }

  /** What one pass did: failed, met the budget by bisection, or moved to the minimum along a coordinate. */
  datatype Move = Fault(code: string) | Landed(magnitudes: Vec) | Lowered(magnitudes: Vec)

  /** What a pass guarantees about the magnitudes it hands on. */
  ghost predicate MoveOk(t: Mat, ps: Vec, m: Vec, budget: real, tolerance: real, r: Move, i: nat, w: real)
    requires Rows(t, |m|, |m|) && |ps| == |m|
  {
    match r
    case Fault(_) => Stuck(t, m, ps, tolerance)
    case Landed(n) => Lands(t, ps, m, n, budget, tolerance, i, w)
    case Lowered(n) => Steps(t, ps, m, n, budget, tolerance, i)
  }

  /** The sacrificed coordinate, and no other, comes down to the boundary of the budget. */
  ghost predicate Lands(t: Mat, ps: Vec, m: Vec, n: Vec, budget: real, tolerance: real, i: nat, w: real)
    requires Rows(t, |m|, |m|) && |ps| == |m|
  {
    && Shrunk(n, m) && Quad(t, |m|, n) <= budget + tolerance && Tight(t, n, m, budget, i, w)
    && exists x, high :: Sacrifices(t, m, ps, tolerance, i, x) && 0.0 < high <= x && n == Lower(m, i, high)
  }

  /** The sacrificed coordinate, and no other, comes down all the way, and the budget is still overrun. */
  ghost predicate Steps(t: Mat, ps: Vec, m: Vec, n: Vec, budget: real, tolerance: real, i: nat)
    requires Rows(t, |m|, |m|) && |ps| == |m|
  {
    && Shrunk(n, m) && budget + tolerance < Quad(t, |m|, n) <= Quad(t, |m|, m) + tolerance
    && (Steep(t, tolerance) ==> Quad(t, |m|, n) <= Quad(t, |m|, m))
    && exists x :: Sacrifices(t, m, ps, tolerance, i, x) && x > tolerance && n == Lower(m, i, x)
  }

  lemma LoweredShrunk(m: Vec, i: nat, x: real)
    requires i < |m| && 0.0 <= x <= m[i] && forall k | 0 <= k < |m| :: m[k] >= 0.0
    ensures Shrunk(Lower(m, i, x), m)
  {
  }

  lemma LandedTight(t: Mat, m: Vec, i: nat, low: real, high: real, best: real, budget: real)
    requires Rows(t, |m|, |m|) && i < |m| && 0.0 <= low < high <= best <= m[i] && Spread(low, high, 96) == best
    requires Quad(t, |m|, Lower(m, i, low)) > budget
    ensures Tight(t, Lower(m, i, high), m, budget, i, high - low)
  {
    var n := Lower(m, i, high);
    assert n[i := n[i] + (high - low)] == Lower(m, i, low);
  }

  lemma SteepDescent(t: Mat, m: Vec, i: nat, tolerance: real)
    requires IsPsd(t, |m|) && i < |m| && m[i] >= 0.0 && tolerance >= 0.0 && MatVec(t, m)[i] > 0.0
    ensures t[i][i] >= 0.0
    ensures t[i][i] > tolerance ==>
              Quad(t, |m|, Lower(m, i, BestDecrement(m[i], MatVec(t, m)[i], t[i][i], tolerance))) <= Quad(t, |m|, m)
  {
    DiagonalNonneg(t, |m|, i);
    if t[i][i] > tolerance {
      DecrementDownhill(m[i], MatVec(t, m)[i], t[i][i], tolerance);
      DownhillCost(t, m, i, BestDecrement(m[i], MatVec(t, m)[i], t[i][i], tolerance));
    }
  }

  /** One pass of the contraction loop, from a cost above the budget. */
  method ContractOnce(validate: Mat -> bool, t: Mat, ps: Vec, m: Vec, budget: real, tolerance: real)
    returns (r: Move, ghost i: nat, ghost w: real)
    requires Validates(validate) && validate(t) && |t| == |m| == |ps| && tolerance > 0.0
    requires forall k | 0 <= k < |m| :: m[k] >= 0.0 && ps[k] > 0.0
    requires Quad(t, |m|, m) > budget + tolerance
    ensures MoveOk(t, ps, m, budget, tolerance, r, i, w)
    ensures if r.Fault? then Stuck(t, m, ps, tolerance)
            else Shrunk(r.magnitudes, m) && (r.Landed? <==> Quad(t, |m|, r.magnitudes) <= budget + tolerance)
  {
    i, w := 0, 0.0;
    var choice := CausalPriorityCandidate(t, m, ps);
    if choice.value.None? {
      return Fault("causal_trust_region_no_lawful_contraction"), i, w;
    }
    var index := choice.value.value;
    var gradient, diagonal := MatVec(t, m), t[index][index];
    DiagonalNonneg(t, |m|, index);
    if diagonal < 0.0 {
      return Fault("causal_trust_region_curvature_invalid"), i, w;
    }
    var decrement := BestDecrement(m[index], gradient[index], diagonal, tolerance);
    assert Sacrifices(t, m, ps, tolerance, index, decrement);
    if decrement <= tolerance {
      return Fault("causal_trust_region_zero_relief"), i, w;
    }
    r, w := Sacrifice(validate, t, ps, m, index, decrement, budget, tolerance);
    i := index;
  }

  /** Bring the chosen coordinate down as far as it may go, or as far as the budget asks. */
  method Sacrifice(validate: Mat -> bool, t: Mat, ps: Vec, m: Vec, index: nat, decrement: real, budget: real,
                   tolerance: real)
    returns (r: Move, ghost w: real)
    requires Validates(validate) && validate(t) && |t| == |m| == |ps| && tolerance > 0.0
    requires forall k | 0 <= k < |m| :: m[k] >= 0.0
    requires Quad(t, |m|, m) > budget + tolerance
    requires Sacrifices(t, m, ps, tolerance, index, decrement) && decrement > tolerance
    ensures MoveOk(t, ps, m, budget, tolerance, r, index, w)
    ensures if r.Fault? then Stuck(t, m, ps, tolerance)
            else Shrunk(r.magnitudes, m) && (r.Landed? <==> Quad(t, |m|, r.magnitudes) <= budget + tolerance)
  {
    w := 0.0;
    var accepted := Quad(t, |m|, m);
    SteepDescent(t, m, index, tolerance);
    var best := m[index := Max(m[index] - decrement, 0.0)];
    assert best == Lower(m, index, decrement);
    LoweredShrunk(m, index, decrement);
    var bestCost := QuadraticCost(validate, t, best);
    if bestCost.Err? {
      return Fault("trust_region_metric"), w;
    }
    if bestCost.value > accepted + tolerance {
      return Fault("causal_trust_region_nonconvex_coordinate"), w;
    }
    if bestCost.value > budget + tolerance {
      return Lowered(best), w;
    }
    r, w := Land(validate, t, ps, m, index, decrement, budget, tolerance);
  }

  /** Bisect to the boundary and lower the coordinate to it. */
  method Land(validate: Mat -> bool, t: Mat, ghost ps: Vec, m: Vec, i: nat, best: real, budget: real, tolerance: real)
    returns (r: Move, ghost w: real)
    requires Validates(validate) && validate(t) && |t| == |m| == |ps| && tolerance >= 0.0
    requires forall k | 0 <= k < |m| :: m[k] >= 0.0
    requires Sacrifices(t, m, ps, tolerance, i, best) && 0.0 < best <= m[i]
    requires Quad(t, |m|, m) > budget && Quad(t, |m|, Lower(m, i, best)) <= budget + tolerance
    ensures r.Landed? && Lands(t, ps, m, r.magnitudes, budget, tolerance, i, w)
  {
    assert Lower(m, i, 0.0) == m;
    var high, low := Bisect(validate, t, m, i, best, budget, tolerance);
    w := high.value - low;
    LandedTight(t, m, i, low, high.value, best, budget);
    LoweredShrunk(m, i, high.value);
    var landed := m[i := Max(m[i] - high.value, 0.0)];
    assert landed == Lower(m, i, high.value);
    r := Landed(landed);
  }

  // ----- the whole contraction

  /** What every pass keeps: nothing grows, and with a steep diagonal the cost never rises. */
  ghost predicate Contracting(t: Mat, m0: Vec, m: Vec, tolerance: real) {
    && Rows(t, |m0|, |m0|) && Shrunk(m, m0)
    && (Steep(t, tolerance) ==> Quad(t, |m0|, m) <= Quad(t, |m0|, m0))
  }

  lemma ShrunkTwice(a: Vec, b: Vec, c: Vec)
    requires Shrunk(a, b) && Shrunk(b, c)
    ensures Shrunk(a, c)
  {
  }

  lemma TightTwice(t: Mat, n: Vec, m: Vec, m0: Vec, budget: real, i: nat, w: real)
    requires Tight(t, n, m, budget, i, w) && Shrunk(m, m0)
    ensures Tight(t, n, m0, budget, i, w)
  {
  }

  /** The magnitudes before each pass: every pass sacrifices one coordinate and leaves the budget overrun. */
  ghost predicate Passes(t: Mat, ps: Vec, m0: Vec, budget: real, tolerance: real, trace: seq<Vec>) {
    && Rows(t, |m0|, |m0|) && |ps| == |m0| && trace != [] && trace[0] == m0
    && (forall k {:trigger trace[k]} | 0 <= k < |trace| :: |trace[k]| == |m0|)
    && forall k: nat {:trigger trace[k]} | k + 1 < |trace| :: Pass(t, ps, budget, tolerance, trace[k], trace[k+1])
  }

  ghost predicate Pass(t: Mat, ps: Vec, budget: real, tolerance: real, m: Vec, n: Vec)
    requires Rows(t, |m|, |m|) && |ps| == |m|
  {
    exists i: nat :: Steps(t, ps, m, n, budget, tolerance, i)
  }

  lemma OneMorePass(t: Mat, ps: Vec, m0: Vec, budget: real, tolerance: real, trace: seq<Vec>, n: Vec, i: nat)
    requires Passes(t, ps, m0, budget, tolerance, trace)
    requires Steps(t, ps, trace[|trace|-1], n, budget, tolerance, i)
    ensures Passes(t, ps, m0, budget, tolerance, trace + [n])
  {
    var more := trace + [n];
    forall k: nat | k + 1 < |more|
      ensures Pass(t, ps, budget, tolerance, more[k], more[k+1])
    {
      if k + 1 < |trace| {
        assert Pass(t, ps, budget, tolerance, trace[k], trace[k+1]);
      }
    }
  }

  /** How often the contraction loop may run. */
  function MaxPasses(n: nat): nat {
    if n == 0 then 128 else n * 128
  }

  /** The run gave up: its last magnitudes are stuck, or every allowed pass has been used. */
  ghost predicate GaveUp(t: Mat, ps: Vec, m0: Vec, budget: real, tolerance: real, trace: seq<Vec>) {
    && Passes(t, ps, m0, budget, tolerance, trace)
    && (Stuck(t, trace[|trace|-1], ps, tolerance) || |trace| == 1 + if m0 == [] then 128 else 128 * |m0|)
  }

  /** Pass after pass until the budget is met: at most 128 per coordinate. */
  method Contract(validate: Mat -> bool, t: Mat, ps: Vec, m0: Vec, budget: real, tolerance: real)
    returns (r: Result<Vec>, ghost trace: seq<Vec>, ghost i: nat, ghost w: real)
    requires Validates(validate) && validate(t) && |t| == |m0| == |ps| && tolerance > 0.0
    requires forall k | 0 <= k < |m0| :: m0[k] >= 0.0 && ps[k] > 0.0
    requires Quad(t, |m0|, m0) > budget + tolerance
    ensures Passes(t, ps, m0, budget, tolerance, trace)
    ensures r.Ok? ==> Contracting(t, m0, r.value, tolerance) && Quad(t, |m0|, r.value) <= budget + tolerance
    ensures r.Ok? ==> Tight(t, r.value, m0, budget, i, w)
    ensures r.Ok? ==> Lands(t, ps, trace[|trace|-1], r.value, budget, tolerance, i, w)
    ensures r.Err? ==> GaveUp(t, ps, m0, budget, tolerance, trace)
  {
    trace, i, w := [m0], 0, 0.0;
    var m := m0;
    for pass := 0 to MaxPasses(|m0|)
      invariant Contracting(t, m0, m, tolerance) && Quad(t, |m0|, m) > budget + tolerance
      invariant Passes(t, ps, m0, budget, tolerance, trace) && |trace| == pass + 1 && trace[pass] == m
    {
      var move;
      move, i, w := ContractOnce(validate, t, ps, m, budget, tolerance);
      match move {
        case Fault(code) =>
          return Err(code), trace, i, w;
        case Landed(n) =>
          ShrunkTwice(n, m, m0);
          TightTwice(t, n, m, m0, budget, i, w);
          return Ok(n), trace, i, w;
        case Lowered(n) =>
          ShrunkTwice(n, m, m0);
          OneMorePass(t, ps, m0, budget, tolerance, trace, n, i);
          trace := trace + [n];
          m := n;
      }
    }
    r := Err("causal_trust_region_budget_not_reached");
  }

  /** The retained fraction of a magnitude. */
  function Retained(original: real, accepted: real): (f: real)
    ensures 0.0 <= f <= 1.0
  {
    if original <= EPSILON then 1.0 else Clamp(accepted / original, 0.0, 1.0)
  }

  lemma RetainedIs(original: real, accepted: real)
    requires 0.0 <= accepted <= original && original > EPSILON
    ensures Retained(original, accepted) * original == accepted
  {
    var q := accepted / original;
    assert q * original == accepted;
    if q < 0.0 {
      Positive(-q, original, -q * original);
    } else if q > 1.0 {
      Positive(q - 1.0, original, (q - 1.0) * original);
    }
  }

  function Retention(m0: Vec, m: Vec): (f: Vec)
    requires |m| == |m0|
    ensures |f| == |m0| && forall i | 0 <= i < |m0| :: f[i] == Retained(m0[i], m[i])
  {
    seq(|m0|, i requires 0 <= i < |m0| => Retained(m0[i], m[i]))
  }

  /** The least of one and the first `k` entries. */
  function Least(f: Vec, k: nat): (s: real)
    requires k <= |f|
    ensures s <= 1.0 && (forall i | 0 <= i < k :: s <= f[i])
    ensures s == 1.0 || exists i :: 0 <= i < k && s == f[i]
  {
    if k == 0 then 1.0 else Min(Least(f, k - 1), f[k-1])
  }

  function Tolerance(proposed: real, budget: real): (t: real)
    ensures t > 0.0
  {
    ROOT * (1.0 + Abs(proposed) + Abs(budget))
  }

  predicate PositiveWeights(ps: Vec, n: nat) {
    |ps| == n && forall i | 0 <= i < n :: ps[i] > 0.0
  }

  /** The accepted composition keeps every sign, grows no magnitude, costs what is reported, meets the budget up to
      the tolerance, and each retained fraction is exact. */
  ghost predicate Contracted(a: Mat, c: Vec, budget: real, r: Allocation, m: Vec) {
    && Rows(a, |c|, |c|) && |m| == |r.retention| == |c| && Shrunk(m, Magnitudes(c))
    && r.accepted == Signed(c, m) && r.acceptedCost == Quad(a, |c|, r.accepted)
    && r.proposedCost == Quad(a, |c|, c) && r.budget == budget
    && r.acceptedCost <= budget + Tolerance(r.proposedCost, budget)
    && r.retention == Retention(Magnitudes(c), m) && r.scale == Least(r.retention, |c|)
    && (r.constrained <==> r.acceptedCost < r.proposedCost - Tolerance(r.proposedCost, budget))
  }

  /** The signed vector stays on the diagonal steps' side of the proposal. */
  ghost predicate NoCostlier(a: Mat, c: Vec, r: Allocation) {
    Steep(a, Tolerance(r.proposedCost, r.budget)) ==> r.acceptedCost <= r.proposedCost
  }

  /** Giving one accepted component back by at most a 2^-96 part of its proposal would exceed the budget. */
  ghost predicate Boundary(a: Mat, c: Vec, m: Vec, budget: real, i: nat, w: real) {
    && Rows(a, |c|, |c|) && |m| == |c| && i < |c| && w > 0.0 && w * Pow2(96) <= Abs(c[i])
    && Quad(a, |c|, Signed(c, m[i := m[i] + w])) > budget
  }

  lemma SteepFlipped(t: Mat, a: Mat, c: Vec, tolerance: real)
    requires IsFlipped(t, a, c) && Steep(a, tolerance)
    ensures Steep(t, tolerance)
  {
    forall i | 0 <= i < |c|
      ensures t[i][i] == a[i][i]
    {
      SignCancels(a[i][i], Sgn(c[i]));
    }
  }

  lemma SignCancels(e: real, s: real)
    requires s * s == 1.0
    ensures e * s * s == e
  {
    assert e * s * s == e * (s * s);
  }

  lemma TightIsBoundary(t: Mat, a: Mat, c: Vec, m: Vec, budget: real, i: nat, w: real)
    requires IsFlipped(t, a, c) && Tight(t, m, Magnitudes(c), budget, i, w)
    ensures Boundary(a, c, m, budget, i, w)
  {
    FlippedCost(t, a, c, m[i := m[i] + w]);
  }

  /** The passes over the magnitudes of `c` ended at `m`, on the boundary of the budget. */
  ghost predicate Reaches(a: Mat, c: Vec, ps: Vec, budget: real, tolerance: real, trace: seq<Vec>, m: Vec) {
    exists t, i, w {:trigger ReachesIn(t, a, c, ps, budget, tolerance, trace, m, i, w)} ::
      ReachesIn(t, a, c, ps, budget, tolerance, trace, m, i, w)
  }

  ghost predicate ReachesIn(t: Mat, a: Mat, c: Vec, ps: Vec, budget: real, tolerance: real, trace: seq<Vec>, m: Vec,
                            i: nat, w: real) {
    && IsFlipped(t, a, c) && Passes(t, ps, Magnitudes(c), budget, tolerance, trace)
    && Lands(t, ps, trace[|trace|-1], m, budget, tolerance, i, w)
  }

  /** The passes over the magnitudes of `c` gave up. */
  ghost predicate Refuses(a: Mat, c: Vec, ps: Vec, budget: real, tolerance: real, trace: seq<Vec>) {
    exists t {:trigger IsFlipped(t, a, c)} ::
      IsFlipped(t, a, c) && GaveUp(t, ps, Magnitudes(c), budget, tolerance, trace)
  }

  /** Contract the magnitudes if the proposal overruns the budget. */
  method Settle(validate: Mat -> bool, a: Mat, t: Mat, c: Vec, ps: Vec, proposed: real, budget: real)
    returns (r: Result<Vec>, ghost trace: seq<Vec>, ghost i: nat, ghost w: real)
    requires Validates(validate) && validate(a) && validate(t) && IsFlipped(t, a, c) && c != []
    requires PositiveWeights(ps, |c|) && proposed == Quad(a, |c|, c)
    ensures proposed <= budget + Tolerance(proposed, budget) ==> r == Ok(Magnitudes(c))
    ensures r.Ok? ==> Contracting(t, Magnitudes(c), r.value, Tolerance(proposed, budget))
    ensures r.Ok? ==> Quad(t, |c|, r.value) <= budget + Tolerance(proposed, budget)
    ensures r.Ok? && proposed > budget + Tolerance(proposed, budget) ==>
              && Tight(t, r.value, Magnitudes(c), budget, i, w)
              && Reaches(a, c, ps, budget, Tolerance(proposed, budget), trace, r.value)
    ensures r.Err? ==> Refuses(a, c, ps, budget, Tolerance(proposed, budget), trace)
  {
    trace, i, w := [], 0, 0.0;
    var tolerance := Tolerance(proposed, budget);
    var m0 := Magnitudes(c);
    SignedMagnitudes(c);
    FlippedCost(t, a, c, m0);
    r := Ok(m0);
    if proposed > budget + tolerance {
      r, trace, i, w := Contract(validate, t, ps, m0, budget, tolerance);
      if r.Ok? {
        assert ReachesIn(t, a, c, ps, budget, tolerance, trace, r.value, i, w);
      }
    }
  }

  /** Accepted unchanged within the budget; otherwise contracted pass by pass to its boundary, or refused because the
      passes got stuck or ran out. */
  method ApplyCausalPriority(validate: Mat -> bool, a: Mat, c: Vec, budget: real, ps: Vec)
    returns (r: Result<Allocation>, ghost trace: seq<Vec>, ghost m: Vec, ghost i: nat, ghost w: real)
    requires Validates(validate)
    ensures r.Ok? ==> Lawful(validate, a, c, budget, ps)
    ensures r.Ok? ==> Contracted(a, c, budget, r.value, m) && NoCostlier(a, c, r.value)
    ensures Lawful(validate, a, c, budget, ps) && !Overruns(a, c, budget) ==> r.Ok? && r.value.accepted == c
    ensures Lawful(validate, a, c, budget, ps) && Overruns(a, c, budget) ==>
              if r.Ok? then
                && Boundary(a, c, m, budget, i, w)
                && Reaches(a, c, ps, budget, Tolerance(Quad(a, |c|, c), budget), trace, m)
              else Refuses(a, c, ps, budget, Tolerance(Quad(a, |c|, c), budget), trace)
  {
    trace, m, i, w := [], [], 0, 0.0;
    if budget < 0.0 || c == [] || !PositiveWeights(ps, |c|) {
      return Err("causal_trust_region_contract_invalid"), trace, m, i, w;
    }
    if !validate(a) {
      return Err("trust_region_metric"), trace, m, i, w;
    }
    var proposed := QuadraticCost(validate, a, c);
    if proposed.Err? {
      return Err(proposed.code), trace, m, i, w;
    }
    var metric := SignedMagnitudeMetric(validate, a, c);
    if metric.Err? {
      return Err("causal_trust_region_shape"), trace, m, i, w;
    }
    var settled;
    settled, trace, i, w := Settle(validate, a, metric.value, c, ps, proposed.value, budget);
    if settled.Err? {
      return Err(settled.code), trace, m, i, w;
    }
    m := settled.value;
    r := Report(validate, a, metric.value, c, settled.value, proposed.value, budget);
    SignedMagnitudes(c);
    if Overruns(a, c, budget) {
      TightIsBoundary(metric.value, a, c, m, budget, i, w);
    }
  }

  /** The inputs the source accepts. */
  ghost predicate Lawful(validate: Mat -> bool, a: Mat, c: Vec, budget: real, ps: Vec)
    requires Validates(validate)
    ensures Lawful(validate, a, c, budget, ps) ==> Rows(a, |c|, |c|)
  {
    budget >= 0.0 && validate(a) && |a| == |c| && PositiveWeights(ps, |c|)
  }

  /** The proposal costs more than the budget, tolerance included. */
  ghost predicate Overruns(a: Mat, c: Vec, budget: real)
    requires Rows(a, |c|, |c|)
  {
    Quad(a, |c|, c) > budget + Tolerance(Quad(a, |c|, c), budget)
  }

  /** Put the signs back and account for what was kept. */
  method Report(validate: Mat -> bool, a: Mat, t: Mat, c: Vec, m: Vec, proposed: real, budget: real)
    returns (r: Result<Allocation>)
    requires Validates(validate) && validate(t) && IsFlipped(t, a, c) && |m| == |c| && c != []
    requires proposed == Quad(a, |c|, c) && Contracting(t, Magnitudes(c), m, Tolerance(proposed, budget))
    requires Quad(t, |c|, m) <= budget + Tolerance(proposed, budget)
    ensures r.Ok? && Contracted(a, c, budget, r.value, m) && NoCostlier(a, c, r.value)
  {
    var tolerance := Tolerance(proposed, budget);
    var accepted := QuadraticCost(validate, t, m);
    if accepted.Err? {
      return Err("trust_region_metric");
    }
    if accepted.value > budget + tolerance {
      return Err("causal_trust_region_budget_not_reached");
    }
    FlippedCost(t, a, c, m);
    SignedMagnitudes(c);
    FlippedCost(t, a, c, Magnitudes(c));
    if Steep(a, tolerance) {
      SteepFlipped(t, a, c, tolerance);
    }
    var retention := Retention(Magnitudes(c), m);
    r := Ok(Allocation(Signed(c, m), proposed, accepted.value, budget, Least(retention, |c|),
                       accepted.value < proposed - tolerance, retention));
  }

  /** Reading the report: same signs, smaller magnitudes, exact fractions. */
  lemma ContractedComponent(a: Mat, c: Vec, budget: real, r: Allocation, m: Vec, i: nat)
    requires Contracted(a, c, budget, r, m) && i < |c|
    ensures Abs(r.accepted[i]) <= Abs(c[i])
    ensures r.accepted[i] > 0.0 ==> c[i] > 0.0
    ensures r.accepted[i] < 0.0 ==> c[i] < 0.0
    ensures 0.0 <= r.scale <= r.retention[i] <= 1.0
    ensures Abs(c[i]) > EPSILON ==> r.retention[i] * c[i] == r.accepted[i]
  {
    ComponentAt(c, m, r.retention, r.accepted, i);
    ScaleAt(c, m, r.retention, r.scale, i);
  }

  lemma ScaleAt(c: Vec, m: Vec, kept: Vec, scale: real, i: nat)
    requires |m| == |c| && kept == Retention(Magnitudes(c), m) && scale == Least(kept, |c|) && i < |c|
    ensures 0.0 <= scale <= kept[i] <= 1.0
  {
    LeastNonneg(kept, |c|);
  }

  lemma ComponentAt(c: Vec, m: Vec, kept: Vec, accepted: Vec, i: nat)
    requires |m| == |c| && Shrunk(m, Magnitudes(c)) && kept == Retention(Magnitudes(c), m) && accepted == Signed(c, m)
    requires i < |c|
    ensures Abs(accepted[i]) <= Abs(c[i])
    ensures accepted[i] > 0.0 ==> c[i] > 0.0
    ensures accepted[i] < 0.0 ==> c[i] < 0.0
    ensures Abs(c[i]) > EPSILON ==> kept[i] * c[i] == accepted[i]
  {
    Component(c[i], m[i], kept[i], accepted[i]);
  }

  lemma Component(c: real, m: real, kept: real, accepted: real)
    requires 0.0 <= m <= Abs(c) && accepted == Sgn(c) * m && kept == Retained(Abs(c), m)
    ensures Abs(accepted) <= Abs(c)
    ensures accepted > 0.0 ==> c > 0.0
    ensures accepted < 0.0 ==> c < 0.0
    ensures Abs(c) > EPSILON ==> kept * c == accepted
  {
    if Abs(c) > EPSILON {
      RetainedIs(Abs(c), m);
      if c < 0.0 {
        assert kept * c == -(kept * Abs(c));
      }
    }
  }

  lemma {:induction false} LeastNonneg(f: Vec, k: nat)
    requires k <= |f| && forall i | 0 <= i < |f| :: f[i] >= 0.0
    ensures Least(f, k) >= 0.0
  {
    if k > 0 {
      LeastNonneg(f, k - 1);
    }
  }
}
