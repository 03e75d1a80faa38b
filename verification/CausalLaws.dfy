/** Which coordinate a contraction sacrifices, how far it goes, and by how much a budget may be exceeded, in plain
    products and numbers. */
module CausalLaws {
  import opened Prelude
  import opened Vectors
  import opened TrustRegion
  import opened CausalContraction

  // ----- the coordinate sacrificed

  /** Giving up `b` costs no more utility per unit of relief than giving up `i`, up to the tolerance. */
  ghost predicate Preferred(g: Vec, ps: Vec, tolerance: real, b: nat, i: nat) {
    && |g| == |ps| && b < |g| && i < |g|
    && Mul(ps[b], g[i]) <= Mul(ps[i], g[b]) + Mul(2.0 * tolerance, Mul(g[b], g[i]))
  }

  lemma RatioTimes(p: real, g: real)
    requires g > 0.0
    ensures UtilityRatio(p, g) * (2.0 * g) == p
  {
    DivideTimes(p, 2.0 * g);
  }

  /** Comparing the ratios is comparing the products across. */
  lemma CrossProducts(p: real, q: real, g: real, h: real, tolerance: real)
    requires g > 0.0 && h > 0.0 && UtilityRatio(p, g) <= UtilityRatio(q, h) + tolerance
    ensures Mul(p, h) <= Mul(q, g) + Mul(2.0 * tolerance, Mul(g, h))
  {
    var r, s := UtilityRatio(p, g), UtilityRatio(q, h);
    RatioTimes(p, g);
    RatioTimes(q, h);
    Positive(g, h, Mul(g, h));
    Times(s + tolerance - r, Mul(g, h));
    Across(r, s, g, h, p, q, tolerance);
  }

  lemma Across(r: real, s: real, g: real, h: real, p: real, q: real, tolerance: real)
    requires r * (2.0 * g) == p && s * (2.0 * h) == q && (s + tolerance - r) * Mul(g, h) >= 0.0
    ensures Mul(p, h) <= Mul(q, g) + Mul(2.0 * tolerance, Mul(g, h))
  {
    assert Mul(p, h) == 2.0 * (r * Mul(g, h));
    assert Mul(q, g) == 2.0 * (s * Mul(g, h));
  }

  /** The chosen coordinate against every eligible one. */
  lemma CheapestPreferred(m: Vec, g: Vec, ps: Vec, b: nat, i: nat)
    requires |m| == |g| == |ps| && b < |m| && i < |m| && Eligible(m, g, i) && g[b] > 0.0
    requires Cheapest(m, g, ps, |m|, b, UtilityRatio(ps[b], g[b]))
    ensures Preferred(g, ps, CandidateTolerance(m, g), b, i)
  {
    CrossProducts(ps[b], ps[i], g[b], g[i], CandidateTolerance(m, g));
  }

  /** With equal priorities the steepest coordinate goes, with equal slopes the least important one. */
  lemma PreferredMeans(g: Vec, ps: Vec, tolerance: real, b: nat, i: nat)
    requires Preferred(g, ps, tolerance, b, i) && g[b] > 0.0 && g[i] > 0.0 && ps[b] > 0.0
    ensures ps[b] == ps[i] ==> Mul(ps[b], g[i] - g[b]) <= Mul(2.0 * tolerance, Mul(g[b], g[i]))
    ensures g[b] == g[i] ==> ps[b] <= ps[i] + 2.0 * tolerance * g[b]
  {
    if g[b] == g[i] {
      EqualSlopes(ps[b], ps[i], g[b], tolerance);
    }
  }

  lemma EqualSlopes(p: real, q: real, g: real, tolerance: real)
    requires g > 0.0 && Mul(p, g) <= Mul(q, g) + Mul(2.0 * tolerance, Mul(g, g))
    ensures p <= q + 2.0 * tolerance * g
  {
    var d := q + 2.0 * tolerance * g - p;
    assert d * g == Mul(q, g) + Mul(2.0 * tolerance, Mul(g, g)) - Mul(p, g);
    if d < 0.0 {
      Positive(-d, g, -d * g);
    }
  }

  // ----- the tolerance of the choice

  lemma {:induction false} AbsSumIs(v: Vec, k: nat)
    requires k <= |v|
    ensures AbsSum(v, k) == Dot(Magnitudes(v), Ones(|v|), k)
  {
    if k > 0 {
      AbsSumIs(v, k - 1);
    }
  }

  /** The sum of the absolute values. */
  function Size(v: Vec): real {
    Dot(Magnitudes(v), Ones(|v|), |v|)
  }

  /** A coordinate may be sacrificed when its magnitude and its slope exceed a 2^-26 part of one and both sizes. */
  lemma EligibleMeans(m: Vec, g: Vec, i: nat)
    requires |m| == |g| && i < |m|
    ensures 67108864.0 * CandidateTolerance(m, g) == 1.0 + Size(m) + Size(g)
    ensures Eligible(m, g, i) <==>
            67108864.0 * m[i] > 1.0 + Size(m) + Size(g) && 67108864.0 * g[i] > 1.0 + Size(m) + Size(g)
  {
    AbsSumIs(m, |m|);
    AbsSumIs(g, |g|);
  }

  // ----- how far it goes

  /** `x` is the cheapest place in reach of coordinate `i`, which may come down to zero. */
  ghost predicate LowestAlong(t: Mat, m: Vec, i: nat, x: real)
    requires Rows(t, |m|, |m|) && i < |m|
  {
    && 0.0 <= x <= m[i]
    && forall y {:trigger Lower(m, i, y)} | 0.0 <= y <= m[i] ::
         Quad(t, |m|, Lower(m, i, x)) <= Quad(t, |m|, Lower(m, i, y))
  }

  /** A quadratic is lowest where it is clamped to its vertex. */
  lemma VertexBest(c: real, g: real, d: real, m: real, x: real, y: real)
    requires d > 0.0 && 0.0 <= y <= m && x == Clamp(g / d, 0.0, m)
    ensures Along(c, g, d, -x) <= Along(c, g, d, -y)
  {
    var v := g / d;
    DivideTimes(g, d);
    FromVertex(c, g, d, v, x);
    FromVertex(c, g, d, v, y);
    CloserIsLower(d, v, x, y, m);
  }

  lemma FromVertex(c: real, g: real, d: real, v: real, x: real)
    requires v * d == g
    ensures Along(c, g, d, -x) == c - v * g + d * ((x - v) * (x - v))
  {
    assert x * g == (x * v) * d;
    assert v * g == (v * v) * d;
    assert d * ((x - v) * (x - v)) == (x * x) * d - 2.0 * ((x * v) * d) + (v * v) * d;
  }

  lemma CloserIsLower(d: real, v: real, x: real, y: real, m: real)
    requires d > 0.0 && 0.0 <= y <= m && x == Clamp(v, 0.0, m)
    ensures d * ((x - v) * (x - v)) <= d * ((y - v) * (y - v))
  {
    SquareGrows(Abs(x - v), Abs(y - v));
    AbsSquare(x - v);
    AbsSquare(y - v);
    Times(d, (y - v) * (y - v) - (x - v) * (x - v));
  }

  lemma AbsSquare(x: real)
    ensures Abs(x) * Abs(x) == x * x
  {
  }

  lemma SquareGrows(x: real, y: real)
    requires 0.0 <= x <= y
    ensures x * x <= y * y
  {
    Times(y - x, y);
    Times(y - x, x);
  }

  /** The decrement reaches the minimum along the coordinate; where that is too flat it goes all the way to zero. */
  lemma DecrementBest(t: Mat, m: Vec, i: nat, tolerance: real, x: real)
    requires Symmetric(t, |m|) && i < |m| && m[i] >= 0.0 && tolerance >= 0.0
    requires x == BestDecrement(m[i], MatVec(t, m)[i], t[i][i], tolerance)
    ensures t[i][i] > tolerance ==> LowestAlong(t, m, i, x)
    ensures t[i][i] <= tolerance ==> x == m[i]
  {
    if t[i][i] > tolerance {
      forall y | 0.0 <= y <= m[i]
        ensures Quad(t, |m|, Lower(m, i, x)) <= Quad(t, |m|, Lower(m, i, y))
      {
        CoordinateCost(t, |m|, m, i, x);
        CoordinateCost(t, |m|, m, i, y);
        VertexBest(Quad(t, |m|, m), MatVec(t, m)[i], t[i][i], m[i], x, y);
      }
    }
  }

  // ----- every pass of every run

  /** Coordinate `i` may be sacrificed, and no other that may be is preferred to it. */
  ghost predicate Chosen(t: Mat, ps: Vec, m: Vec, i: nat) {
    && Rows(t, |m|, |m|) && |ps| == |m| && i < |m| && Eligible(m, MatVec(t, m), i)
    && (forall j: nat {:trigger Eligible(m, MatVec(t, m), j)} | j < |m| && Eligible(m, MatVec(t, m), j) ::
          Preferred(MatVec(t, m), ps, CandidateTolerance(m, MatVec(t, m)), i, j))
  }

  /** The chosen coordinate, and no other, comes down: to the minimum along it, or to zero where that is too flat. */
  ghost predicate LawfulPass(t: Mat, ps: Vec, tolerance: real, m: Vec, n: Vec, i: nat) {
    && Chosen(t, ps, m, i) && |n| == |m| && n == m[i := n[i]]
    && (t[i][i] > tolerance ==> LowestAlong(t, m, i, m[i] - n[i]))
    && (t[i][i] <= tolerance ==> n[i] == 0.0)
  }

  lemma SacrificedChosen(t: Mat, ps: Vec, m: Vec, tolerance: real, i: nat, x: real)
    requires Rows(t, |m|, |m|) && |ps| == |m| && Sacrifices(t, m, ps, tolerance, i, x)
    ensures Chosen(t, ps, m, i)
  {
    forall j: nat | j < |m| && Eligible(m, MatVec(t, m), j)
      ensures Preferred(MatVec(t, m), ps, CandidateTolerance(m, MatVec(t, m)), i, j)
    {
      CheapestPreferred(m, MatVec(t, m), ps, i, j);
    }
  }

  lemma SteppedLawful(t: Mat, ps: Vec, m: Vec, n: Vec, budget: real, tolerance: real, i: nat)
    requires Symmetric(t, |m|) && |ps| == |m| && Steps(t, ps, m, n, budget, tolerance, i)
    ensures LawfulPass(t, ps, tolerance, m, n, i)
  {
    var x :| Sacrifices(t, m, ps, tolerance, i, x) && x > tolerance && n == Lower(m, i, x);
    SacrificedChosen(t, ps, m, tolerance, i, x);
    DecrementBest(t, m, i, tolerance, x);
  }

  ghost predicate Lawfully(t: Mat, ps: Vec, tolerance: real, m: Vec, n: Vec) {
    exists i :: LawfulPass(t, ps, tolerance, m, n, i)
  }

  ghost predicate LawfulRun(t: Mat, ps: Vec, tolerance: real, trace: seq<Vec>) {
    forall k: nat {:trigger trace[k]} | k + 1 < |trace| :: Lawfully(t, ps, tolerance, trace[k], trace[k+1])
  }

  /** Every pass of every run is lawful. */
  lemma PassesLawful(t: Mat, ps: Vec, m0: Vec, budget: real, tolerance: real, trace: seq<Vec>)
    requires Symmetric(t, |m0|) && Passes(t, ps, m0, budget, tolerance, trace)
    ensures LawfulRun(t, ps, tolerance, trace)
  {
    forall k: nat | k + 1 < |trace|
      ensures Lawfully(t, ps, tolerance, trace[k], trace[k+1])
    {
      assert Pass(t, ps, budget, tolerance, trace[k], trace[k+1]);
      var i: nat :| Steps(t, ps, trace[k], trace[k+1], budget, tolerance, i);
      SteppedLawful(t, ps, trace[k], trace[k+1], budget, tolerance, i);
    }
  }

  /** The pass that meets the budget lowers the chosen coordinate and no other. */
  lemma LandedLawful(t: Mat, ps: Vec, m: Vec, n: Vec, budget: real, tolerance: real, i: nat, w: real)
    requires Rows(t, |m|, |m|) && |ps| == |m| && Lands(t, ps, m, n, budget, tolerance, i, w)
    ensures Chosen(t, ps, m, i) && |n| == |m| && n == m[i := n[i]] && n[i] < m[i]
  {
    var x, high :| Sacrifices(t, m, ps, tolerance, i, x) && 0.0 < high <= x && n == Lower(m, i, high);
    SacrificedChosen(t, ps, m, tolerance, i, x);
  }

  /** A contraction that ends on its boundary went there by lawful passes alone. */
  lemma ReachedLawfully(a: Mat, c: Vec, ps: Vec, budget: real, tolerance: real, trace: seq<Vec>, m: Vec)
    returns (t: Mat, i: nat)
    requires IsPsd(a, |c|) && Reaches(a, c, ps, budget, tolerance, trace, m)
    ensures IsFlipped(t, a, c) && trace != [] && trace[0] == Magnitudes(c)
    ensures LawfulRun(t, ps, tolerance, trace)
    ensures var last := trace[|trace|-1]; Chosen(t, ps, last, i) && |m| == |last| && m == last[i := m[i]]
  {
    var w;
    t, i, w :| ReachesIn(t, a, c, ps, budget, tolerance, trace, m, i, w);
    FlippedPsd(t, a, c);
    PassesLawful(t, ps, Magnitudes(c), budget, tolerance, trace);
    LandedLawful(t, ps, trace[|trace|-1], m, budget, tolerance, i, w);
  }

  // ----- by how much a budget may be exceeded

  /** The accepted cost is within the budget up to a 2^-26 part of one, the proposed cost and the budget, and a proposal
      counts as constrained when it lost more than that. */
  lemma BudgetMet(a: Mat, c: Vec, budget: real, r: Allocation, m: Vec)
    requires Contracted(a, c, budget, r, m) && budget >= 0.0 && r.proposedCost >= 0.0
    ensures 67108864.0 * (r.acceptedCost - budget) <= 1.0 + r.proposedCost + budget
    ensures r.constrained <==> 67108864.0 * (r.proposedCost - r.acceptedCost) > 1.0 + r.proposedCost + budget
  {
  }

  /** A proposal is contracted exactly when it exceeds the budget by more than that. */
  lemma OverrunsMeans(a: Mat, c: Vec, budget: real)
    requires Rows(a, |c|, |c|) && budget >= 0.0 && Quad(a, |c|, c) >= 0.0
    ensures Overruns(a, c, budget) <==>
            67108864.0 * (Quad(a, |c|, c) - budget) > 1.0 + Quad(a, |c|, c) + budget
  {
  }
}
