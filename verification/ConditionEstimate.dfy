/** The condition estimate of an inversion: the ratio of the extremes of the diagonal of its normal equations. */
module ConditionEstimate {
  import opened Prelude
  import opened Vectors
  import opened Graph
  import opened MeasurementGraph

  const DIAGONAL_FLOOR: real := 0.000000000000001

  /** The diagonal of the normal equations. */
  function Diagonal(n: nat, ms: seq<Measurement>, mu: real): (d: Vec)
    requires n >= 1
    ensures |d| == n - 1 && forall i | 0 <= i < n - 1 :: d[i] == Entry(n, ms, i, i, |ms|) + mu
  {
    seq(n - 1, i requires 0 <= i < n - 1 => Entry(n, ms, i, i, |ms|) + mu)
  }

  /** The least of the ceiling and the first `k` absolute values. */
  ghost predicate IsLeast(d: Vec, k: nat, ceiling: real, lo: real)
    requires k <= |d|
  {
    && lo <= ceiling && (forall i | 0 <= i < k :: lo <= Abs(d[i]))
    && (lo == ceiling || exists i :: 0 <= i < k && Abs(d[i]) == lo)
  }

  /** The greatest of zero and the first `k` absolute values. */
  ghost predicate IsGreatest(d: Vec, k: nat, hi: real)
    requires k <= |d|
  {
    && hi >= 0.0 && (forall i | 0 <= i < k :: Abs(d[i]) <= hi)
    && (hi == 0.0 || exists i :: 0 <= i < k && Abs(d[i]) == hi)
  }

  function RatioOf(lo: real, hi: real, ceiling: real): real {
    if lo > DIAGONAL_FLOOR then hi / lo else ceiling
  }

  ghost predicate IsCondition(d: Vec, ceiling: real, c: real) {
    exists lo, hi :: IsConditionOf(d, ceiling, lo, hi, c)
  }

  ghost predicate IsConditionOf(d: Vec, ceiling: real, lo: real, hi: real, c: real) {
    IsLeast(d, |d|, ceiling, lo) && IsGreatest(d, |d|, hi) && c == RatioOf(lo, hi, ceiling)
  }

  /** One pass over the diagonal; `ceiling` is the largest number of the source's float type. */
  method EstimateCondition(ata: array2<real>, ghost d: Vec, ceiling: real) returns (c: real)
    requires ata.Length0 == ata.Length1 == |d| && forall i | 0 <= i < |d| :: ata[i, i] == d[i]
    ensures IsCondition(d, ceiling, c)
  {
    var diagMin, diagMax := ceiling, 0.0;
    for i := 0 to ata.Length0
      invariant IsLeast(d, i, ceiling, diagMin) && IsGreatest(d, i, diagMax)
    {
      var v := Abs(ata[i, i]);
      if v < diagMin {
        diagMin := v;
      }
      if v > diagMax {
        diagMax := v;
      }
    }
    c := RatioOf(diagMin, diagMax, ceiling);
    assert IsConditionOf(d, ceiling, diagMin, diagMax, c);
  }

  /** When every diagonal entry is above the floor the estimate times the least of them is the greatest. */
  lemma ConditionMeans(d: Vec, ceiling: real, c: real) returns (lo: real, hi: real)
    requires IsCondition(d, ceiling, c) && ceiling > 0.000000000000001
    requires forall i | 0 <= i < |d| :: Abs(d[i]) > 0.000000000000001
    ensures IsLeast(d, |d|, ceiling, lo) && IsGreatest(d, |d|, hi) && Mul(c, lo) == hi
  {
    lo, hi :| IsConditionOf(d, ceiling, lo, hi, c);
    DivideTimes(hi, lo);
  }

  // ----- the diagonal counts pairs

  /** How many of the first `k` pairs touch epoch `v`. */
  function Degree(ms: seq<Measurement>, v: nat, k: nat): (c: nat)
    requires k <= |ms|
    ensures c <= k
  {
    if k == 0 then 0 else Degree(ms, v, k - 1) + if v == ms[k-1].a || v == ms[k-1].b then 1 else 0
  }

  ghost predicate UnitWeights(ms: seq<Measurement>) {
    forall k | 0 <= k < |ms| :: ms[k].weight == 1.0
  }

  lemma {:induction false} EntryIsDegree(n: nat, ms: seq<Measurement>, i: nat, k: nat)
    requires UnitWeights(ms) && k <= |ms|
    ensures Entry(n, ms, i, i, k) == Degree(ms, i + 1, k) as real
  {
    if k > 0 {
      EntryIsDegree(n, ms, i, k - 1);
      assert ms[k-1].weight == 1.0;
    }
  }

  lemma {:induction false} TouchedDegree(ms: seq<Measurement>, v: nat, i: nat, k: nat)
    requires i < k <= |ms| && (v == ms[i].a || v == ms[i].b)
    ensures Degree(ms, v, k) >= 1
  {
    if i < k - 1 {
      TouchedDegree(ms, v, i, k - 1);
    }
  }

  /** An epoch connected to another one is touched by some pair. */
  lemma ConnectedDegree(ms: seq<Measurement>, v: nat)
    requires v != 0 && Connected(EdgesOf(ms, |ms|), 0, v)
    ensures Degree(ms, v, |ms|) >= 1
  {
    var es := EdgesOf(ms, |ms|);
    var p :| PathBetween(es, p, 0, v);
    assert |p| >= 2 && Adjacent(es, p[|p|-2], p[|p|-1]);
    InEdgesOf(ms, |ms|, (p[|p|-2], v));
    InEdgesOf(ms, |ms|, (v, p[|p|-2]));
    var i :| 0 <= i < |ms| && (v == ms[i].a || v == ms[i].b);
    TouchedDegree(ms, v, i, |ms|);
  }

  // ----- what the estimate says

  /** Some epoch after the first appears in no pair. */
  ghost predicate Isolated(n: nat, ms: seq<Measurement>) {
    exists v: nat :: 0 < v < n && Degree(ms, v, |ms|) == 0
  }

  /** Entry `i` of the diagonal. */
  lemma DiagonalAt(n: nat, ms: seq<Measurement>, mu: real, i: nat)
    requires UnitWeights(ms) && mu >= 0.0 && i < n - 1
    ensures Abs(Diagonal(n, ms, mu)[i]) == Degree(ms, i + 1, |ms|) as real + mu
    ensures mu <= Abs(Diagonal(n, ms, mu)[i]) <= |ms| as real + mu
    ensures !Isolated(n, ms) ==> Abs(Diagonal(n, ms, mu)[i]) >= 1.0 + mu
  {
    EntryIsDegree(n, ms, i, |ms|);
    if !Isolated(n, ms) {
      assert Degree(ms, i + 1, |ms|) != 0;
    }
  }

  /** The least entry is the regularisation when an epoch is isolated, and above one otherwise. */
  lemma LeastIs(n: nat, ms: seq<Measurement>, mu: real, ceiling: real, lo: real)
    requires UnitWeights(ms) && mu >= 0.0 && n >= 2 && ceiling >= |ms| as real + mu
    requires IsLeast(Diagonal(n, ms, mu), n - 1, ceiling, lo)
    ensures Isolated(n, ms) ==> lo == mu
    ensures !Isolated(n, ms) ==> lo >= 1.0 + mu
  {
    var d := Diagonal(n, ms, mu);
    forall i | 0 <= i < n - 1
      ensures mu <= Abs(d[i]) <= |ms| as real + mu
      ensures !Isolated(n, ms) ==> Abs(d[i]) >= 1.0 + mu
    {
      DiagonalAt(n, ms, mu, i);
    }
    assert lo <= Abs(d[0]);
    if v: nat :| 0 < v < n && Degree(ms, v, |ms|) == 0 {
      DiagonalAt(n, ms, mu, v - 1);
      assert lo <= Abs(d[v-1]);
    }
  }

  lemma GreatestIs(n: nat, ms: seq<Measurement>, mu: real, ceiling: real, lo: real, hi: real)
    requires UnitWeights(ms) && mu >= 0.0 && n >= 2 && IsGreatest(Diagonal(n, ms, mu), n - 1, hi)
    requires IsLeast(Diagonal(n, ms, mu), n - 1, ceiling, lo)
    ensures lo <= hi <= |ms| as real + mu
  {
    DiagonalAt(n, ms, mu, 0);
    assert lo <= Abs(Diagonal(n, ms, mu)[0]) <= hi;
    if i :| 0 <= i < n - 1 && Abs(Diagonal(n, ms, mu)[i]) == hi {
      DiagonalAt(n, ms, mu, i);
    }
  }

  /** A quotient between bounds. */
  lemma QuotientBounds(hi: real, lo: real, bound: real)
    requires lo > 0.0 && lo <= hi <= bound * lo
    ensures 1.0 <= hi / lo <= bound
  {
    var q := hi / lo;
    DivideTimes(hi, lo);
    if q < 1.0 {
      Positive(1.0 - q, lo, (1.0 - q) * lo);
    }
    if q > bound {
      Positive(q - bound, lo, (q - bound) * lo);
    }
  }

  lemma TouchedBound(m: real, mu: real, lo: real)
    requires m >= 1.0 && mu >= 0.0 && lo >= 1.0 + mu
    ensures m + mu <= m * lo
  {
    Times(m, lo - 1.0 - mu);
    Times(m - 1.0, mu);
  }

  /** No ratio the estimate can report exceeds this, for `m` pairs. */
  function LargestRatio(m: real): real {
    1.0 + m / DIAGONAL_FLOOR
  }

  lemma IsolatedBound(m: real, mu: real)
    requires m >= 0.0 && mu > DIAGONAL_FLOOR
    ensures m + mu <= LargestRatio(m) * mu
  {
    var q := m / DIAGONAL_FLOOR;
    assert q * DIAGONAL_FLOOR == m && q >= 0.0;
    Times(q, mu - DIAGONAL_FLOOR);
  }

  lemma TouchedBelow(m: real)
    requires m >= 0.0
    ensures m <= LargestRatio(m)
  {
    var q := m / DIAGONAL_FLOOR;
    assert q * DIAGONAL_FLOOR == m;
  }

  lemma WhenIsolated(m: real, mu: real, ceiling: real, hi: real, c: real)
    requires m >= 1.0 && 0.0 <= mu <= hi <= m + mu && ceiling > LargestRatio(m) && c == RatioOf(mu, hi, ceiling)
    ensures c == ceiling <==> mu <= DIAGONAL_FLOOR
  {
    if mu > DIAGONAL_FLOOR {
      IsolatedBound(m, mu);
      QuotientBounds(hi, mu, LargestRatio(m));
    }
  }

  lemma WhenTouched(m: real, mu: real, ceiling: real, lo: real, hi: real, c: real)
    requires m >= 1.0 && mu >= 0.0 && 1.0 + mu <= lo <= hi <= m + mu && ceiling > LargestRatio(m)
    requires c == RatioOf(lo, hi, ceiling)
    ensures c != ceiling && 1.0 <= c <= m
  {
    TouchedBound(m, mu, lo);
    QuotientBounds(hi, lo, m);
    TouchedBelow(m);
  }

  lemma AnchoredTouches(n: nat, ms: seq<Measurement>)
    requires Anchored(n, ms)
    ensures !Isolated(n, ms)
  {
    forall v: nat | 0 < v < n
      ensures Degree(ms, v, |ms|) != 0
    {
      ConnectedDegree(ms, v);
    }
  }

  /** The estimate is the ceiling exactly when an epoch is in no pair and the regularisation is at most the floor;
      when every epoch is connected to epoch 0 it lies between one and the number of pairs. */
  lemma EstimateExact(n: nat, ms: seq<Measurement>, mu: real, ceiling: real, c: real)
    requires UnitWeights(ms) && mu >= 0.0 && n >= 2 && ms != []
    requires ceiling >= |ms| as real + mu && ceiling > LargestRatio(|ms| as real)
    requires IsCondition(Diagonal(n, ms, mu), ceiling, c)
    ensures c == ceiling <==> Isolated(n, ms) && mu <= DIAGONAL_FLOOR
    ensures Anchored(n, ms) ==> 1.0 <= c <= |ms| as real
  {
    var lo, hi :| IsConditionOf(Diagonal(n, ms, mu), ceiling, lo, hi, c);
    LeastIs(n, ms, mu, ceiling, lo);
    GreatestIs(n, ms, mu, ceiling, lo, hi);
    if Anchored(n, ms) {
      AnchoredTouches(n, ms);
    }
    if Isolated(n, ms) {
      WhenIsolated(|ms| as real, mu, ceiling, hi, c);
    } else {
      WhenTouched(|ms| as real, mu, ceiling, lo, hi, c);
    }
  }
}
