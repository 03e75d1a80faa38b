/** The straight line fitted to a series over the epochs 0, 1, 2, ... and what is left of the series around it. */
module LinearTrend {
  import opened Prelude
  import opened Vectors
  import opened RootMeanSquare

  const SPREAD_FLOOR: real := 0.000000000000001

  datatype Trend = Trend(velocity: real, intercept: real, residualRms: real)

  /** The epochs as times. */
  function Epochs(n: nat): (t: Vec)
    ensures |t| == n && forall i | 0 <= i < n :: t[i] == i as real
  {
    seq(n, i requires 0 <= i < n => i as real)
  }

  /** The line with slope `v` through `c` at epoch 0. */
  function LineOf(n: nat, v: real, c: real): (l: Vec)
    ensures |l| == n
  {
    Add(Scaled(v, Epochs(n)), Scaled(c, Ones(n)))
  }

  /** The squared distance of the series from a line. */
  function Misfit(u: Vec, v: real, c: real): real {
    var r := Sub(u, LineOf(|u|, v, c));
    Dot(r, r, |u|)
  }

  /** The line is the one least-squares line of the series, and `residualRms` is the root mean square left around it. */
  ghost predicate IsTrend(u: Vec, t: Trend) {
    && (forall v, c {:trigger Misfit(u, v, c)} | v != t.velocity || c != t.intercept ::
          Misfit(u, t.velocity, t.intercept) < Misfit(u, v, c))
    && IsRms(t.residualRms, |u|, Misfit(u, t.velocity, t.intercept))
  }

  // ----- the moments of the times

  function Square2(k: int): int {
    k * k
  }

  function Twofold(k: int): int {
    k * (k - 1)
  }

  function Sixfold(k: int): int {
    k * (k - 1) * (2 * k - 1)
  }

  lemma Steps(k: int)
    ensures Twofold(k) == Twofold(k - 1) + 2 * (k - 1)
    ensures Sixfold(k) == Sixfold(k - 1) + 6 * Square2(k - 1)
  {
  }

  lemma SquareAsReal(k: int)
    ensures k as real * k as real == Square2(k) as real
  {
  }

  lemma {:induction false} SumOfTimes(n: nat, k: nat)
    requires k <= n
    ensures 2.0 * Dot(Epochs(n), Ones(n), k) == Twofold(k) as real
  {
    if k > 0 {
      SumOfTimes(n, k - 1);
      Steps(k);
    }
  }

  lemma {:induction false} SumOfSquares(n: nat, k: nat)
    requires k <= n
    ensures 6.0 * Dot(Epochs(n), Epochs(n), k) == Sixfold(k) as real
  {
    if k > 0 {
      SumOfSquares(n, k - 1);
      Steps(k);
      SquareAsReal(k - 1);
    }
  }

  /** The determinant of the two normal equations of the line. */
  function Spread(n: real, s1: real, s2: real): real {
    n * s2 - s1 * s1
  }

  lemma SpreadIs(n: int, s1: real, s2: real)
    requires 2.0 * s1 == Twofold(n) as real && 6.0 * s2 == Sixfold(n) as real
    ensures 12.0 * Spread(n as real, s1, s2) == (Square2(n) * (Square2(n) - 1)) as real
  {
    var a, b := Twofold(n), Sixfold(n);
    assert n as real * (6.0 * s2) == (n * b) as real;
    assert (2.0 * s1) * (2.0 * s1) == (a * a) as real;
    assert 2 * (n * b) - 3 * (a * a) == Square2(n) * (Square2(n) - 1);
  }

  /** Two or more epochs are spread by at least one, so the source's floor never applies. */
  lemma SpreadAtLeastOne(n: nat, s1: real, s2: real)
    requires n >= 2 && s1 == Dot(Epochs(n), Ones(n), n) && s2 == Dot(Epochs(n), Epochs(n), n)
    ensures Spread(n as real, s1, s2) >= 1.0
  {
    SumOfTimes(n, n);
    SumOfSquares(n, n);
    SpreadIs(n, s1, s2);
    FourOrMore(n, Square2(n));
  }

  lemma FourOrMore(n: nat, q: int)
    requires n >= 2 && q == Square2(n)
    ensures q * (q - 1) >= 12
  {
    assert q >= 2 * n;
    assert (q - 4) * (q + 3) >= 0;
  }

  // ----- the normal equations of the line

  /** A determinant over the spread, or zero when the times are not spread. */
  function OverSpread(x: real, spread: real): real {
    if Abs(spread) > SPREAD_FLOOR then x / spread else 0.0
  }

  function Slope(n: real, sumT: real, sumT2: real, sumTu: real, sumU: real): real {
    OverSpread(n * sumTu - sumT * sumU, Spread(n, sumT, sumT2))
  }

  function Intercept(n: real, sumT: real, sumT2: real, sumTu: real, sumU: real): real {
    OverSpread(sumU * sumT2 - sumT * sumTu, Spread(n, sumT, sumT2))
  }

  /** The determinants solve the two equations in the slope and the intercept. */
  lemma Cramer(n: real, s1: real, s2: real, tu: real, su: real, v: real, c: real)
    requires Spread(n, s1, s2) >= 1.0 && v == Slope(n, s1, s2, tu, su) && c == Intercept(n, s1, s2, tu, su)
    ensures Mul(v, s2) + Mul(c, s1) == tu && Mul(v, s1) + Mul(c, n) == su
  {
    var d := Spread(n, s1, s2);
    DivideTimes(n * tu - s1 * su, d);
    DivideTimes(su * s2 - s1 * tu, d);
    FirstEquation(n, s1, s2, tu, su, d, v, c);
    SecondEquation(n, s1, s2, tu, su, d, v, c);
  }

  lemma FirstEquation(n: real, s1: real, s2: real, tu: real, su: real, d: real, v: real, c: real)
    requires d == Spread(n, s1, s2) && d > 0.0 && v * d == n * tu - s1 * su && c * d == su * s2 - s1 * tu
    ensures Mul(v, s2) + Mul(c, s1) == tu
  {
    calc {
      (v * s2 + c * s1) * d;
      (v * d) * s2 + (c * d) * s1;
      (n * tu - s1 * su) * s2 + (su * s2 - s1 * tu) * s1;
      tu * d;
    }
    Cancel(v * s2 + c * s1, tu, d);
  }

  lemma SecondEquation(n: real, s1: real, s2: real, tu: real, su: real, d: real, v: real, c: real)
    requires d == Spread(n, s1, s2) && d > 0.0 && v * d == n * tu - s1 * su && c * d == su * s2 - s1 * tu
    ensures Mul(v, s1) + Mul(c, n) == su
  {
    calc {
      (v * s1 + c * n) * d;
      (v * d) * s1 + (c * d) * n;
      (n * tu - s1 * su) * s1 + (su * s2 - s1 * tu) * n;
      su * d;
    }
    Cancel(v * s1 + c * n, su, d);
  }

  lemma Cancel(x: real, y: real, d: real)
    requires x * d == y * d && d > 0.0
    ensures x == y
  {
    assert (x - y) * d == 0.0;
  }

  lemma DotLineOf(z: Vec, n: nat, v: real, c: real)
    requires |z| == n
    ensures Dot(LineOf(n, v, c), z, n) == Mul(v, Dot(Epochs(n), z, n)) + Mul(c, Dot(Ones(n), z, n))
    ensures Dot(z, LineOf(n, v, c), n) == Mul(v, Dot(Epochs(n), z, n)) + Mul(c, Dot(Ones(n), z, n))
  {
    DotAdd(Scaled(v, Epochs(n)), Scaled(c, Ones(n)), z, n);
    DotScaled(v, Epochs(n), z, n);
    DotScaled(c, Ones(n), z, n);
    DotComm(LineOf(n, v, c), z, n);
  }

  /** What the determinants solve leaves a remainder orthogonal to the times and to the constants. */
  lemma Stationary(u: Vec, v: real, c: real, r: Vec)
    requires r == Sub(u, LineOf(|u|, v, c))
    requires Solves(u, v, c)
    ensures Dot(Epochs(|u|), r, |u|) == 0.0 && Dot(Ones(|u|), r, |u|) == 0.0
  {
    var n := |u|;
    DotSub(u, LineOf(n, v, c), Epochs(n), n);
    DotSub(u, LineOf(n, v, c), Ones(n), n);
    DotLineOf(Epochs(n), n, v, c);
    DotLineOf(Ones(n), n, v, c);
    DotComm(Epochs(n), Ones(n), n);
    CountOnes(n, n);
  }

  /** The normal equations of the line. */
  predicate Solves(u: Vec, v: real, c: real) {
    var n := |u|;
    && Mul(v, Dot(Epochs(n), Epochs(n), n)) + Mul(c, Dot(Epochs(n), Ones(n), n)) == Dot(Epochs(n), u, n)
    && Mul(v, Dot(Epochs(n), Ones(n), n)) + Mul(c, n as real) == Dot(Ones(n), u, n)
  }

  lemma OtherLine(u: Vec, v: real, c: real, v': real, c': real)
    ensures Sub(u, LineOf(|u|, v', c')) == Sub(Sub(u, LineOf(|u|, v, c)), LineOf(|u|, v' - v, c' - c))
  {
    var n := |u|;
    forall i | 0 <= i < n
      ensures Sub(u, LineOf(n, v', c'))[i] == Sub(Sub(u, LineOf(n, v, c)), LineOf(n, v' - v, c' - c))[i]
    {
      OtherEntry(u[i], v, c, v', c', i as real);
    }
  }

  lemma OtherEntry(ui: real, v: real, c: real, v': real, c': real, t: real)
    ensures ui - (v' * t + c' * 1.0) == (ui - (v * t + c * 1.0)) - ((v' - v) * t + (c' - c) * 1.0)
  {
  }

  /** Two different lines differ at epoch 0 or at epoch 1. */
  lemma LinesDiffer(n: nat, v: real, c: real)
    requires n >= 2 && (v != 0.0 || c != 0.0)
    ensures Dot(LineOf(n, v, c), LineOf(n, v, c), n) > 0.0
  {
    var l := LineOf(n, v, c);
    assert l[0] == c && l[1] == v + c;
    DotPositive(l, n, if c != 0.0 then 0 else 1);
  }

  lemma Expand(r: Vec, e: Vec, n: nat)
    requires |r| == |e| == n && Dot(e, r, n) == 0.0
    ensures Dot(Sub(r, e), Sub(r, e), n) == Dot(r, r, n) + Dot(e, e, n)
  {
    DotSub(r, e, Sub(r, e), n);
    DotSub(r, e, r, n);
    DotSub(r, e, e, n);
    DotComm(r, e, n);
  }

  /** A solution of the normal equations is the only best line. */
  lemma SolutionIsTrend(u: Vec, v: real, c: real, v': real, c': real)
    requires |u| >= 2 && Solves(u, v, c) && (v' != v || c' != c)
    ensures Misfit(u, v, c) < Misfit(u, v', c')
  {
    var n, r := |u|, Sub(u, LineOf(|u|, v, c));
    Stationary(u, v, c, r);
    OtherLine(u, v, c, v', c');
    DotLineOf(r, n, v' - v, c' - c);
    Expand(r, LineOf(n, v' - v, c' - c), n);
    LinesDiffer(n, v' - v, c' - c);
  }

  /** Slope and intercept by determinants, and the root mean square of what is left. */
  method FitTrend(sqrt: real -> real, u: Vec) returns (t: Trend)
    requires IsSqrt(sqrt) && |u| >= 2
    ensures IsTrend(u, t)
  {
    var n := |u|;
    var sumT, sumT2 := Dot(Epochs(n), Ones(n), n), Dot(Epochs(n), Epochs(n), n);
    var sumTu, sumU := Dot(Epochs(n), u, n), Dot(Ones(n), u, n);
    var velocity := Slope(n as real, sumT, sumT2, sumTu, sumU);
    var intercept := Intercept(n as real, sumT, sumT2, sumTu, sumU);
    DeterminantsSolve(u, sumT, sumT2, velocity, intercept);
    var rms := StableRms(sqrt, Sub(u, LineOf(n, velocity, intercept)));
    t := Trend(velocity, intercept, rms.value);
    SolvedTrend(u, t);
  }

  lemma DeterminantsSolve(u: Vec, s1: real, s2: real, v: real, c: real)
    requires |u| >= 2 && s1 == Dot(Epochs(|u|), Ones(|u|), |u|) && s2 == Dot(Epochs(|u|), Epochs(|u|), |u|)
    requires v == Slope(|u| as real, s1, s2, Dot(Epochs(|u|), u, |u|), Dot(Ones(|u|), u, |u|))
    requires c == Intercept(|u| as real, s1, s2, Dot(Epochs(|u|), u, |u|), Dot(Ones(|u|), u, |u|))
    ensures Solves(u, v, c)
  {
    SpreadAtLeastOne(|u|, s1, s2);
    Cramer(|u| as real, s1, s2, Dot(Epochs(|u|), u, |u|), Dot(Ones(|u|), u, |u|), v, c);
  }

  lemma SolvedTrend(u: Vec, t: Trend)
    requires |u| >= 2 && Solves(u, t.velocity, t.intercept)
    requires IsRms(t.residualRms, |u|, Misfit(u, t.velocity, t.intercept))
    ensures IsTrend(u, t)
  {
    forall v, c | v != t.velocity || c != t.intercept
      ensures Misfit(u, t.velocity, t.intercept) < Misfit(u, v, c)
    {
      SolutionIsTrend(u, t.velocity, t.intercept, v, c);
    }
  }

  lemma {:induction false} ZeroDot(x: Vec, k: nat)
    requires k <= |x| && Dot(x, x, k) == 0.0
    ensures forall i | 0 <= i < k :: x[i] == 0.0
  {
    forall i | 0 <= i < k
      ensures x[i] == 0.0
    {
      if x[i] != 0.0 {
        DotPositive(x, k, i);
      }
    }
  }

  /** Nothing is left around the trend exactly when the series is a straight line. */
  lemma NothingLeft(u: Vec, t: Trend)
    requires |u| >= 2 && IsTrend(u, t)
    ensures t.residualRms == 0.0 <==> exists v, c :: u == LineOf(|u|, v, c)
  {
    var n, total := |u|, Misfit(u, t.velocity, t.intercept);
    RmsZero(t.residualRms, n, total);
    if v, c :| u == LineOf(n, v, c) {
      assert Sub(u, LineOf(n, v, c)) == Zeros(n);
      DotZero(Zeros(n), Zeros(n), n);
      assert Misfit(u, v, c) == 0.0;
      DotSelf(Sub(u, LineOf(n, t.velocity, t.intercept)), n);
    }
    if total == 0.0 {
      var r := Sub(u, LineOf(n, t.velocity, t.intercept));
      ZeroDot(r, n);
      assert u == LineOf(n, t.velocity, t.intercept) by {
        assert forall i | 0 <= i < n :: r[i] == 0.0 && u[i] == LineOf(n, t.velocity, t.intercept)[i];
      }
    }
  }

  lemma RmsZero(r: real, n: nat, total: real)
    requires n > 0 && IsRms(r, n, total)
    ensures r == 0.0 <==> total == 0.0
  {
    if r > 0.0 {
      Positive(r, r, r * r);
      Positive(r * r, n as real, r * r * n as real);
    }
  }
}
