/** The residuals a reconstruction reports: one for each observed edge, their weighted root mean square, the largest. */
module EdgeResiduals {
  import opened Prelude
  import opened Vectors
  import opened MeasurementGraph
  import opened Inversion

  const TINY: real := 0.000000000001

  // ----- one edge

  /** The length of the miss over the length of what was observed. */
  function EdgeResidual(sqrt: real -> real, from: Vec, to: Vec, delta: Vec): real
    requires IsSqrt(sqrt) && |from| == |to| == |delta|
  {
    var miss := Sub(Sub(to, from), delta);
    Relative(sqrt(SquareLength(miss)), sqrt(SquareLength(delta)))
  }

  function SquareLength(v: Vec): (q: real)
    ensures q >= 0.0
  {
    DotSelf(v, |v|);
    Dot(v, v, |v|)
  }

  function Relative(miss: real, length: real): (r: real)
    requires miss >= 0.0 && length >= 0.0
    ensures r >= 0.0 && (r == 0.0 <==> miss == 0.0)
  {
    DivideTimes(miss, length + TINY);
    QuotientSign(miss / (length + TINY), length + TINY);
    miss / (length + TINY)
  }

  /** The residual times the observed length, a millionth of a millionth more, is the miss. */
  lemma RelativeMeans(miss: real, length: real)
    requires miss >= 0.0 && length >= 0.0
    ensures Mul(Relative(miss, length), length + 0.000000000001) == miss
  {
    DivideTimes(miss, length + TINY);
  }

  lemma QuotientSign(q: real, d: real)
    requires d > 0.0 && q * d >= 0.0
    ensures q >= 0.0 && (q == 0.0 <==> q * d == 0.0)
  {
    if q < 0.0 {
      Positive(-q, d, -q * d);
    } else if q > 0.0 {
      Positive(q, d, q * d);
    }
  }

  /** With the length of what was observed: the residual times it, all but, is the length of the miss. */
  lemma ResidualMeans(sqrt: real -> real, from: Vec, to: Vec, delta: Vec, length: real, miss: Vec)
    requires IsSqrt(sqrt) && |from| == |to| == |delta| == |miss|
    requires length >= 0.0 && length * length == Dot(delta, delta, |delta|)
    requires forall p | 0 <= p < |miss| :: miss[p] == to[p] - from[p] - delta[p]
    ensures var r := Mul(EdgeResidual(sqrt, from, to, delta), length + 0.000000000001);
            r >= 0.0 && r * r == Dot(miss, miss, |miss|)
  {
    assert miss == Sub(Sub(to, from), delta);
    RootUnique(sqrt, SquareLength(delta), length);
    RelativeMeans(sqrt(SquareLength(miss)), length);
  }

  lemma RootUnique(sqrt: real -> real, q: real, r: real)
    requires IsSqrt(sqrt) && r >= 0.0 && r * r == q
    ensures sqrt(q) == r
  {
    Square(r, q);
    var s := sqrt(q);
    if s < r {
      Positive(r - s, r, (r - s) * r);
      Times(r - s, s);
    } else if s > r {
      Positive(s - r, s, (s - r) * s);
      Times(s - r, r);
    }
  }

  /** An edge has no residual exactly when the potentials reproduce it. */
  lemma ResidualZero(sqrt: real -> real, from: Vec, to: Vec, delta: Vec)
    requires IsSqrt(sqrt) && |from| == |to| == |delta|
    ensures EdgeResidual(sqrt, from, to, delta) >= 0.0
    ensures EdgeResidual(sqrt, from, to, delta) == 0.0
       <==> forall p | 0 <= p < |delta| :: to[p] - from[p] == delta[p]
  {
    var miss := Sub(Sub(to, from), delta);
    RootZero(sqrt, SquareLength(miss));
    if SquareLength(miss) == 0.0 {
      forall p | 0 <= p < |delta|
        ensures to[p] - from[p] == delta[p]
      {
        if miss[p] != 0.0 {
          DotPositive(miss, |miss|, p);
        }
      }
    }
    if forall p | 0 <= p < |delta| :: to[p] - from[p] == delta[p] {
      DotZero(miss, miss, |miss|);
    }
  }

  // ----- the summary

  function Total(ws: Vec, k: nat): real
    requires k <= |ws|
  {
    if k == 0 then 0.0 else Total(ws, k - 1) + ws[k-1]
  }

  /** The largest of zero and the first `k` residuals. */
  function Largest(rs: Vec, k: nat): (hi: real)
    requires k <= |rs|
    ensures hi >= 0.0 && forall i | 0 <= i < k :: rs[i] <= hi
    ensures hi == 0.0 || exists i :: 0 <= i < k && rs[i] == hi
  {
    if k == 0 then 0.0 else Max(Largest(rs, k - 1), rs[k-1])
  }

  predicate Residuals(rs: Vec, ws: Vec) {
    |rs| == |ws| && rs != [] && forall i | 0 <= i < |rs| :: rs[i] >= 0.0 && ws[i] > 0.0
  }

  /** The weighted mean square of the first `k` residuals, before the division. */
  function Squares(rs: Vec, ws: Vec, k: nat): (s: real)
    requires k <= |rs| == |ws|
  {
    Dot(rs, Weighted(ws, rs), k)
  }

  lemma {:induction false} SquaresBelow(rs: Vec, ws: Vec, hi: real, top: real, k: nat)
    requires Residuals(rs, ws) && k <= |rs| && (forall i | 0 <= i < |rs| :: rs[i] <= hi) && top == Mul(hi, hi)
    ensures 0.0 <= Squares(rs, ws, k) <= Mul(top, Total(ws, k))
    ensures Total(ws, k) >= 0.0 && (k > 0 ==> Total(ws, k) > 0.0)
  {
    if k > 0 {
      SquaresBelow(rs, ws, hi, top, k - 1);
      TermBelow(rs[k-1], ws[k-1], hi, top);
      ShareBoth(Total(ws, k - 1), ws[k-1], top);
    }
  }

  lemma TermBelow(r: real, w: real, hi: real, top: real)
    requires 0.0 <= r <= hi && w > 0.0 && top == hi * hi
    ensures 0.0 <= r * (w * r) <= Mul(top, w)
  {
    Times(hi - r, r);
    Times(hi - r, hi);
    Times(r, r);
    Times(w, r * r);
    Times(w, top - r * r);
  }

  /** The root of the mean lies between zero and the largest, and vanishes with it. */
  lemma RootMeanBelow(sqrt: real -> real, rs: Vec, ws: Vec, q: real, hi: real)
    requires IsSqrt(sqrt) && Residuals(rs, ws) && q == MeanSquare(rs, ws) && hi == Largest(rs, |rs|)
    ensures q >= 0.0 && 0.0 <= sqrt(q) <= hi
    ensures sqrt(q) == 0.0 <==> hi == 0.0
  {
    MeanSquareBelow(rs, ws, q, hi, Mul(hi, hi));
    RootBelow(sqrt, q, hi, Mul(hi, hi));
    RootZero(sqrt, q);
    if hi > 0.0 {
      MeanSquarePositive(rs, ws, q, hi);
    }
  }

  lemma MeanSquareBelow(rs: Vec, ws: Vec, q: real, hi: real, top: real)
    requires Residuals(rs, ws) && q == MeanSquare(rs, ws) && hi == Largest(rs, |rs|) && top == Mul(hi, hi)
    ensures 0.0 <= q <= top
  {
    SquaresBelow(rs, ws, hi, top, |rs|);
    Times(hi, hi);
    MeanBelow(Squares(rs, ws, |rs|), Total(ws, |rs|), top, q);
  }

  lemma MeanSquarePositive(rs: Vec, ws: Vec, q: real, hi: real)
    requires Residuals(rs, ws) && q == MeanSquare(rs, ws) && hi == Largest(rs, |rs|) > 0.0
    ensures q > 0.0
  {
    var i :| 0 <= i < |rs| && rs[i] == hi;
    WeightedPositive(ws, rs, |rs|, i);
    MeanPositive(Squares(rs, ws, |rs|), Total(ws, |rs|), q);
  }

  function MeanSquare(rs: Vec, ws: Vec): real
    requires |rs| == |ws|
  {
    Share(Squares(rs, ws, |rs|), Total(ws, |rs|))
  }

  function Share(squares: real, total: real): real {
    squares / Max(total, TINY)
  }

  /** The squared root mean square times the total weight, unless negligible, is the weighted sum of squares. */
  lemma RootMeanMeans(sqrt: real -> real, rs: Vec, ws: Vec, r: real)
    requires IsSqrt(sqrt) && Residuals(rs, ws) && r == sqrt(MeanSquare(rs, ws))
    ensures r >= 0.0
    ensures Mul(Mul(r, r), Max(Total(ws, |rs|), 0.000000000001)) == Dot(rs, Weighted(ws, rs), |rs|)
  {
    var q := MeanSquare(rs, ws);
    RootMeanBelow(sqrt, rs, ws, q, Largest(rs, |rs|));
    RootSquares(sqrt, q, r);
    ShareTimes(Squares(rs, ws, |rs|), Total(ws, |rs|), q);
  }

  lemma RootSquares(sqrt: real -> real, q: real, r: real)
    requires IsSqrt(sqrt) && q >= 0.0 && r == sqrt(q)
    ensures Mul(r, r) == q
  {
  }

  lemma ShareTimes(squares: real, total: real, q: real)
    requires q == Share(squares, total)
    ensures Mul(q, Max(total, 0.000000000001)) == squares
  {
    DivideTimes(squares, Max(total, TINY));
  }

  lemma MeanBelow(s: real, w: real, top: real, q: real)
    requires 0.0 <= s <= Mul(top, w) && w > 0.0 && top >= 0.0 && q == Share(s, w)
    ensures 0.0 <= q <= top
  {
    var d := Max(w, TINY);
    DivideTimes(s, d);
    QuotientSign(q, d);
    Times(top, d - w);
    if q > top {
      Positive(q - top, d, (q - top) * d);
    }
  }

  lemma MeanPositive(s: real, w: real, q: real)
    requires s > 0.0 && q == Share(s, w)
    ensures q > 0.0
  {
    DivideTimes(s, Max(w, TINY));
    QuotientSign(q, Max(w, TINY));
  }

  lemma RootBelow(sqrt: real -> real, q: real, hi: real, top: real)
    requires IsSqrt(sqrt) && 0.0 <= q <= top && hi >= 0.0 && top == Mul(hi, hi)
    ensures 0.0 <= sqrt(q) <= hi
  {
    var r := sqrt(q);
    assert r * r == q;
    if r > hi {
      Positive(r - hi, r, (r - hi) * r);
      Times(r - hi, hi);
    }
  }

  // ----- when nothing is missed

  /** The potentials reproduce every measurement. */
  ghost predicate Exact(ms: seq<Measurement>, u: Vec) {
    forall k | 0 <= k < |ms| :: ms[k].a < |u| && ms[k].b < |u| && u[ms[k].b] - u[ms[k].a] == ms[k].diff
  }

  /** Shrinking exact potentials misses every measurement by the same share. */
  lemma {:induction false} ShrunkMisfit(ms: seq<Measurement>, u: Vec, e: real, k: nat)
    requires Exact(ms, u) && k <= |ms|
    ensures EdgeMisfit(ms, Scaled(1.0 - e, u), k) == Mul(e * e, EdgeMisfit(ms, Zeros(|u|), k))
  {
    if k > 0 {
      var m := ms[k-1];
      ShrunkMisfit(ms, u, e, k - 1);
      ShrunkCost(m.weight, u[m.a], u[m.b], m.diff, e, Scaled(1.0 - e, u)[m.a], Scaled(1.0 - e, u)[m.b]);
      ShareBoth(EdgeMisfit(ms, Zeros(|u|), k - 1), Cost(m.weight, 0.0 - 0.0 - m.diff), e * e);
    }
  }

  lemma ShareBoth(x: real, y: real, share: real)
    ensures Mul(share, x + y) == Mul(share, x) + Mul(share, y)
  {
  }

  lemma ShrunkCost(w: real, a: real, b: real, diff: real, e: real, a': real, b': real)
    requires b - a == diff && a' == (1.0 - e) * a && b' == (1.0 - e) * b
    ensures Cost(w, b' - a' - diff) == Mul(e * e, Cost(w, 0.0 - 0.0 - diff))
  {
    assert b' - a' - diff == -(e * diff);
    ShareSquared(w, e, diff);
  }

  lemma ShareSquared(w: real, e: real, diff: real)
    ensures Cost(w, -(e * diff)) == Mul(e * e, Cost(w, 0.0 - 0.0 - diff))
  {
    assert (e * diff) * (e * diff) == (e * e) * (diff * diff);
    Reordered(w, e * e, diff * diff);
  }

  lemma Reordered(w: real, x: real, y: real)
    ensures w * (x * y) == x * (w * y)
  {
  }

  /** The energy along the shrinking of exact potentials. */
  function ShrunkEnergy(e: real, misfit: real, ridge: real): real {
    Mul(e * e, misfit) + Twice(1.0 - e, ridge)
  }

  lemma EnergyShrinks(ms: seq<Measurement>, mu: real, u: Vec, e: real, z: Vec)
    requires Exact(ms, u) && z == Scaled(1.0 - e, u)
    ensures Energy(ms, mu, z) == ShrunkEnergy(e, EdgeMisfit(ms, Zeros(|u|), |ms|), Mul(mu, Dot(u, u, |u|)))
  {
    ShrunkMisfit(ms, u, e, |ms|);
    ShrunkLength(mu, u, 1.0 - e, z);
  }

  lemma ShrunkLength(mu: real, u: Vec, t: real, z: Vec)
    requires z == Scaled(t, u)
    ensures Mul(mu, Dot(z, z, |z|)) == Twice(t, Mul(mu, Dot(u, u, |u|)))
  {
    ScaledForm(t, u, u, |u|);
    TwiceTimes(mu, t, Dot(u, u, |u|));
  }

  lemma TwiceTimes(mu: real, t: real, q: real)
    ensures Mul(mu, Twice(t, q)) == Twice(t, Mul(mu, q))
  {
    Reordered(mu, t, t * q);
    Reordered(mu, t, q);
  }

  /** Some shrinking of exact, nonzero potentials has less energy. */
  lemma BetterShare(misfit: real, ridge: real) returns (e: real)
    requires misfit >= 0.0 && ridge > 0.0
    ensures e != 0.0 && ShrunkEnergy(e, misfit, ridge) < ridge
  {
    e := ridge / (misfit + ridge);
    DivideTimes(ridge, misfit + ridge);
    QuotientSign(e, misfit + ridge);
    BelowAt(e, misfit, ridge);
  }

  lemma BelowAt(e: real, misfit: real, ridge: real)
    requires e > 0.0 && ridge > 0.0 && e * (misfit + ridge) == ridge
    ensures ShrunkEnergy(e, misfit, ridge) < ridge
  {
    assert ShrunkEnergy(e, misfit, ridge) == e * (e * (misfit + ridge)) - 2.0 * e * ridge + ridge;
    Positive(e, ridge, e * ridge);
  }

  lemma {:induction false} MisfitNonneg(n: nat, ms: seq<Measurement>, u: Vec, k: nat)
    requires WellFormed(n, ms) && |u| == n && k <= |ms|
    ensures EdgeMisfit(ms, u, k) >= 0.0
  {
    if k > 0 {
      var e := u[ms[k-1].b] - u[ms[k-1].a] - ms[k-1].diff;
      MisfitNonneg(n, ms, u, k - 1);
      Square(e, e * e);
      Times(ms[k-1].weight, e * e);
    }
  }

  lemma {:induction false} ExactMisfit(ms: seq<Measurement>, u: Vec, k: nat)
    requires Exact(ms, u) && k <= |ms|
    ensures EdgeMisfit(ms, u, k) == 0.0
  {
    if k > 0 {
      ExactMisfit(ms, u, k - 1);
    }
  }

  /** Exact potentials that are not zero are not the best. */
  lemma BetterThanExact(n: nat, ms: seq<Measurement>, mu: real, u: Vec, i: nat) returns (z: Vec)
    requires WellFormed(n, ms) && mu > 0.0 && |u| == n && u[0] == 0.0 && Exact(ms, u) && i < n && u[i] != 0.0
    ensures |z| == n && z[0] == 0.0 && z != u && Energy(ms, mu, z) < Energy(ms, mu, u)
  {
    var ridge := Mul(mu, Dot(u, u, n));
    DotPositive(u, n, i);
    Positive(mu, Dot(u, u, n), ridge);
    ExactMisfit(ms, u, |ms|);
    MisfitNonneg(n, ms, Zeros(n), |ms|);
    var e := BetterShare(EdgeMisfit(ms, Zeros(n), |ms|), ridge);
    z := Scaled(1.0 - e, u);
    EnergyShrinks(ms, mu, u, e, z);
    ShareDiffers(u[i], e);
    assert z[i] != u[i];
  }

  lemma ShareDiffers(x: real, e: real)
    requires x != 0.0 && e != 0.0
    ensures (1.0 - e) * x != x
  {
    if e * x == 0.0 {
      Square(e, e * e);
      Square(x, x * x);
      Positive(e * e, x * x, (e * e) * (x * x));
    }
  }

  /** With a positive ridge the best potentials are never exact, except at zero. */
  lemma ExactIsZero(n: nat, ms: seq<Measurement>, mu: real, u: Vec)
    requires WellFormed(n, ms) && mu > 0.0 && IsInversion(n, ms, mu, u) && Exact(ms, u)
    ensures u == Zeros(n)
  {
    if i :| 0 <= i < n && u[i] != 0.0 {
      var z := BetterThanExact(n, ms, mu, u, i);
    }
  }

  /** Measurements of no change are reproduced by staying at zero. */
  lemma ZeroIsBest(n: nat, ms: seq<Measurement>, mu: real, u: Vec)
    requires WellFormed(n, ms) && mu > 0.0 && IsInversion(n, ms, mu, u)
    requires forall k | 0 <= k < |ms| :: ms[k].diff == 0.0
    ensures u == Zeros(n)
  {
    ExactMisfit(ms, Zeros(n), |ms|);
    DotZero(Zeros(n), Zeros(n), n);
    assert Energy(ms, mu, Zeros(n)) == 0.0;
    MisfitNonneg(n, ms, u, |ms|);
    DotSelf(u, n);
    Times(mu, Dot(u, u, n));
  }

  /** The best potentials are exact exactly when every measurement is zero. */
  lemma ExactIffZero(n: nat, ms: seq<Measurement>, mu: real, u: Vec)
    requires WellFormed(n, ms) && mu > 0.0 && IsInversion(n, ms, mu, u)
    ensures Exact(ms, u) <==> forall k | 0 <= k < |ms| :: ms[k].diff == 0.0
  {
    if Exact(ms, u) {
      ExactIsZero(n, ms, mu, u);
    }
    if forall k | 0 <= k < |ms| :: ms[k].diff == 0.0 {
      ZeroIsBest(n, ms, mu, u);
    }
  }
}
