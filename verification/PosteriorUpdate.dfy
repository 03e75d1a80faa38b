/** The rank-one Gaussian covariance update and its algebra. */
module PosteriorUpdate {
  import opened Prelude
  import opened Vectors

  /** One entry's share of a rank-one term. */
  function Share(u: real, v: real, den: real): real
    requires den != 0.0
  {
    u * v / den
  }

  /** The downdate by direction `a` with noise variance `noise`. */
  ghost function Downdate(s: Mat, n: nat, p: Vec, den: real): (d: Mat)
    requires Rows(s, n, n) && |p| == n && den != 0.0
    ensures Rows(d, n, n)
    ensures forall i, j | 0 <= i < n && 0 <= j < n :: d[i][j] == s[i][j] - Share(p[i], p[j], den)
  {
    seq(n, i requires 0 <= i < n => seq(n, j requires 0 <= j < n => s[i][j] - Share(p[i], p[j], den)))
  }

  lemma DivAdd(a: real, b: real, den: real)
    requires den != 0.0
    ensures (a + b) / den == a / den + b / den
  {
  }

  lemma DivMul(a: real, y: real, den: real)
    requires den != 0.0
    ensures (a * y) / den == (a / den) * y
  {
  }

  lemma ShareSwap(u: real, v: real, den: real)
    requires den != 0.0
    ensures Share(u, v, den) == Share(v, u, den)
  {
  }

  lemma ShareAs(u: real, v: real, den: real)
    requires den != 0.0
    ensures Share(u, v, den) == Mul(u / den, v)
  {
  }

  /** One row of the downdate: the prior row minus a multiple of the projection. */
  lemma DowndateRowIs(s: Mat, n: nat, p: Vec, den: real, i: nat)
    requires Rows(s, n, n) && |p| == n && den != 0.0 && i < n
    ensures Downdate(s, n, p, den)[i] == Sub(s[i], Scaled(p[i] / den, p))
  {
    forall j | 0 <= j < n
      ensures Downdate(s, n, p, den)[i][j] == Sub(s[i], Scaled(p[i] / den, p))[j]
    {
      ShareAs(p[i], p[j], den);
    }
  }

  lemma RowDot(row: Vec, p: Vec, u: real, den: real, x: Vec, n: nat)
    requires |row| == |p| == |x| == n && den != 0.0
    ensures Dot(Sub(row, Scaled(u / den, p)), x, n) == Dot(row, x, n) - Share(u, Dot(p, x, n), den)
  {
    var c := u / den;
    DotSub(row, Scaled(c, p), x, n);
    DotScaled(c, p, x, n);
    ShareAs(u, Dot(p, x, n), den);
  }

  lemma DowndateRow(s: Mat, n: nat, p: Vec, den: real, x: Vec, i: nat)
    requires Rows(s, n, n) && |p| == |x| == n && den != 0.0 && i < n
    ensures Dot(Downdate(s, n, p, den)[i], x, n) == Dot(s[i], x, n) - Share(p[i], Dot(p, x, n), den)
  {
    DowndateRowIs(s, n, p, den, i);
    RowDot(s[i], p, p[i], den, x, n);
  }

  /** The vector of shares y[i] * t / den. */
  lemma {:induction false} DotShares(y: Vec, v: Vec, w: Vec, p: Vec, t: real, den: real, k: nat)
    requires |y| == |v| == |w| == |p| && k <= |y| && den != 0.0
    requires forall i | 0 <= i < |y| :: v[i] == w[i] - Share(p[i], t, den)
    ensures Dot(y, v, k) == Dot(y, w, k) - Share(Dot(y, p, k), t, den)
  {
    if k > 0 {
      DotShares(y, v, w, p, t, den, k - 1);
      ShareSum(Dot(y, p, k - 1), y[k-1], p[k-1], t, den);
      RowStep(y[k-1], v[k-1], w[k-1], Share(p[k-1], t, den));
    }
  }

  lemma RowStep(y: real, v: real, w: real, e: real)
    requires v == w - e
    ensures y * v == y * w - y * e
  {
  }

  lemma ShareSum(d: real, y: real, p: real, t: real, den: real)
    requires den != 0.0
    ensures Share(d + y * p, t, den) == Share(d, t, den) + y * Share(p, t, den)
  {
    assert (d + y * p) * t == d * t + (p * t) * y;
    DivAdd(d * t, (p * t) * y, den);
    DivMul(p * t, y, den);
  }

  /** The downdated form: the prior form minus the product of the projections. */
  lemma DowndateForm(s: Mat, n: nat, p: Vec, den: real, y: Vec, x: Vec)
    requires Rows(s, n, n) && |p| == |x| == |y| == n && den != 0.0
    ensures Dot(y, MatVec(Downdate(s, n, p, den), x), n)
         == Dot(y, MatVec(s, x), n) - Share(Dot(y, p, n), Dot(p, x, n), den)
  {
    var v, w := MatVec(Downdate(s, n, p, den), x), MatVec(s, x);
    forall i | 0 <= i < n
      ensures v[i] == w[i] - Share(p[i], Dot(p, x, n), den)
    {
      DowndateRow(s, n, p, den, x, i);
    }
    DotShares(y, v, w, p, Dot(p, x, n), den, n);
  }

  lemma DowndateSymmetric(s: Mat, n: nat, p: Vec, den: real)
    requires Symmetric(s, n) && |p| == n && den != 0.0
    ensures Symmetric(Downdate(s, n, p, den), n)
  {
    forall i, j | 0 <= i < n && 0 <= j < n
      ensures Downdate(s, n, p, den)[i][j] == Downdate(s, n, p, den)[j][i]
    {
      ShareSwap(p[i], p[j], den);
    }
  }

  /** A square never exceeds the budget it is divided by. */
  lemma ShareBound(t: real, f: real, q: real, noise: real)
    requires noise > 0.0 && q >= 0.0 && f >= 0.0 && Bounded(f, t, q)
    ensures 0.0 <= Share(t, t, noise + q) <= f
  {
    var den := noise + q;
    var sq := t * t;
    Square(t, sq);
    var e := sq / den;
    assert e * den == sq;
    if e < 0.0 {
      NegativeTimes(e, den, sq);
    }
    Times(f, noise);
    if e > f {
      Excess(e, f, den, sq, f * noise + f * q);
    }
  }

  lemma Excess(e: real, f: real, den: real, sq: real, bound: real)
    requires e > f && den > 0.0 && sq == e * den && bound == f * den
    ensures sq > bound
  {
    Positive(e - f, den, (e - f) * den);
    assert (e - f) * den == sq - bound;
  }

  lemma NegativeTimes(e: real, den: real, sq: real)
    requires e < 0.0 && den > 0.0 && sq == e * den
    ensures sq < 0.0
  {
    Positive(-e, den, -e * den);
    assert -e * den == -(e * den);
  }

  // ----- the posterior after sensing along `a`

  /** The projection of `a` through the covariance. */
  function Projected(s: Mat, a: Vec): (p: Vec)
    requires Rows(s, |a|, |a|)
    ensures |p| == |a|
  {
    MatVec(s, a)
  }

  /** The variance the sensing direction sees before noise. */
  function Predictive(s: Mat, a: Vec): real
    requires Rows(s, |a|, |a|)
  {
    Dot(a, MatVec(s, a), |a|)
  }

  /** The exact posterior covariance. */
  ghost function Posterior(s: Mat, a: Vec, noise: real): (d: Mat)
    requires Rows(s, |a|, |a|) && noise + Predictive(s, a) != 0.0
    ensures Rows(d, |a|, |a|)
  {
    Downdate(s, |a|, Projected(s, a), noise + Predictive(s, a))
  }

  lemma PredictiveNonneg(s: Mat, a: Vec)
    requires IsPsd(s, |a|)
    ensures Predictive(s, a) >= 0.0
  {
    assert Quad(s, |a|, a) >= 0.0;
  }

  /** What one update takes from the variance along any direction: never negative, never more than there is. */
  lemma PosteriorQuad(s: Mat, a: Vec, noise: real, x: Vec)
    requires IsPsd(s, |a|) && noise > 0.0 && |x| == |a|
    ensures noise + Predictive(s, a) > 0.0
    ensures 0.0 <= Quad(Posterior(s, a, noise), |a|, x) <= Quad(s, |a|, x)
  {
    var n, p, q := |a|, Projected(s, a), Predictive(s, a);
    PredictiveNonneg(s, a);
    DowndateForm(s, n, p, noise + q, x, x);
    DotComm(x, p, n);
    CauchySchwarz(s, n, x, a);
    assert Quad(s, n, x) >= 0.0;
    ShareBound(Dot(x, p, n), Quad(s, n, x), q, noise);
  }

  /** The update keeps the covariance symmetric and positive semidefinite. */
  lemma PosteriorPsd(s: Mat, a: Vec, noise: real)
    requires IsPsd(s, |a|) && noise > 0.0
    ensures noise + Predictive(s, a) > 0.0
    ensures IsPsd(Posterior(s, a, noise), |a|)
  {
    PredictiveNonneg(s, a);
    DowndateSymmetric(s, |a|, Projected(s, a), noise + Predictive(s, a));
    forall x: Vec | |x| == |a|
      ensures Quad(Posterior(s, a, noise), |a|, x) >= 0.0
    {
      PosteriorQuad(s, a, noise, x);
    }
  }

  /** Along the sensing direction precisions add: the reciprocals of the variance before and of the noise make up the
      reciprocal of the variance afterwards. */
  lemma PrecisionAdds(s: Mat, a: Vec, noise: real, before: real)
    requires IsPsd(s, |a|) && noise > 0.0 && before == Predictive(s, a)
    ensures noise + before > 0.0
    ensures Mul(Predictive(Posterior(s, a, noise), a), noise + before) == Mul(noise, before)
  {
    PredictiveNonneg(s, a);
    DowndateForm(s, |a|, Projected(s, a), noise + before, a, a);
    DotComm(a, Projected(s, a), |a|);
    Remainder(before, noise, Share(before, before, noise + before));
  }

  lemma Remainder(q: real, noise: real, e: real)
    requires noise + q > 0.0 && e == Share(q, q, noise + q)
    ensures Mul(q - e, noise + q) == Mul(noise, q)
  {
    assert e * (noise + q) == q * q;
  }

  /** A direction uncorrelated with the sensing direction keeps all its variances and covariances. */
  lemma UncorrelatedKept(s: Mat, a: Vec, noise: real, z: Vec)
    requires IsPsd(s, |a|) && noise > 0.0 && |z| == |a| && Dot(Projected(s, a), z, |a|) == 0.0
    ensures noise + Predictive(s, a) > 0.0
    ensures MatVec(Posterior(s, a, noise), z) == MatVec(s, z)
  {
    PredictiveNonneg(s, a);
    var den := noise + Predictive(s, a);
    forall i | 0 <= i < |a|
      ensures MatVec(Posterior(s, a, noise), z)[i] == MatVec(s, z)[i]
    {
      DowndateRow(s, |a|, Projected(s, a), den, z, i);
      NoShare(Projected(s, a)[i], den);
    }
  }

  lemma NoShare(u: real, den: real)
    requires den != 0.0
    ensures Share(u, 0.0, den) == 0.0
  {
  }

  // ----- the trace

  function Trace(s: Mat, k: nat): real
    requires k <= |s| && forall i | 0 <= i < |s| :: |s[i]| == |s|
  {
    if k == 0 then 0.0 else Trace(s, k - 1) + s[k-1][k-1]
  }

  lemma {:induction false} DowndateTrace(s: Mat, n: nat, p: Vec, den: real, k: nat)
    requires Rows(s, n, n) && |p| == n && den != 0.0 && k <= n
    ensures Trace(Downdate(s, n, p, den), k) == Trace(s, k) - Dot(p, p, k) / den
  {
    if k > 0 {
      DowndateTrace(s, n, p, den, k - 1);
      DivAdd(Dot(p, p, k - 1), p[k-1] * p[k-1], den);
    }
  }

  /** The trace falls by exactly the squared projection over the noise plus the predictive variance. */
  lemma PosteriorTrace(s: Mat, a: Vec, noise: real, p: Vec, den: real)
    requires Rows(s, |a|, |a|) && p == Projected(s, a) && den == noise + Predictive(s, a) && den > 0.0
    ensures Trace(Posterior(s, a, noise), |a|) == Trace(s, |a|) - Dot(p, p, |a|) / den <= Trace(s, |a|)
  {
    TraceFalls(s, |a|, p, den);
  }

  lemma TraceFalls(s: Mat, n: nat, p: Vec, den: real)
    requires Rows(s, n, n) && |p| == n && den > 0.0
    ensures Trace(Downdate(s, n, p, den), n) == Trace(s, n) - Dot(p, p, n) / den <= Trace(s, n)
  {
    DowndateTrace(s, n, p, den, n);
    DotSelf(p, n);
    NonnegDiv(Dot(p, p, n), den);
  }

  lemma NonnegDiv(x: real, d: real)
    requires x >= 0.0 && d > 0.0
    ensures x / d >= 0.0
  {
  }

  // ----- two updates, in either order

  lemma Quotient(c: real, x: real, v: real)
    requires c != 0.0 && v == c * x
    ensures x == v / c
  {
  }

  lemma Cancel(c: real, x: real, y: real)
    requires c != 0.0 && c * x == c * y
    ensures x == y
  {
    var v := c * x;
    Quotient(c, x, v);
    Quotient(c, y, v);
  }

  lemma Polynomial(pi: real, pj: real, qi: real, qj: real, al: real, be: real, ga: real)
    ensures (al * be - ga * ga) * (pi * pj) + (al * qi - ga * pi) * (al * qj - ga * pj)
         == al * (be * (pi * pj) - ga * (pi * qj + qi * pj) + al * (qi * qj))
  {
  }

  lemma SecondShare(fi: real, fj: real, ui: real, uj: real, al: real, d2: real, det: real, y: real)
    requires al * fi == ui && al * fj == uj && al * d2 == det && y * d2 == fi * fj
    ensures (al * det) * y == ui * uj
  {
    calc {
      (al * det) * y;
      (al * (al * d2)) * y;
      (al * al) * (y * d2);
      (al * al) * (fi * fj);
      (al * fi) * (al * fj);
    }
  }

  /** The numerator both orders share. */
  function Joint(pi: real, pj: real, qi: real, qj: real, al: real, be: real, ga: real): real {
    be * (pi * pj) - ga * (pi * qj + qi * pj) + al * (qi * qj)
  }

  /** What two updates subtract from one entry, over the common denominator. */
  lemma TwoShares(pi: real, pj: real, qi: real, qj: real, al: real, be: real, ga: real, x: real, fi: real, fj: real,
                  d2: real, det: real, y: real)
    requires al != 0.0 && d2 != 0.0 && det != 0.0
    requires det == al * be - ga * ga && al * d2 == det
    requires x * al == pi * pj
    requires al * fi == al * qi - ga * pi && al * fj == al * qj - ga * pj
    requires y * d2 == fi * fj
    ensures det * (x + y) == Joint(pi, pj, qi, qj, al, be, ga)
  {
    SecondShare(fi, fj, al * qi - ga * pi, al * qj - ga * pj, al, d2, det, y);
    Polynomial(pi, pj, qi, qj, al, be, ga);
    Gather(al, det, x, y, pi * pj, (al * qi - ga * pi) * (al * qj - ga * pj), Joint(pi, pj, qi, qj, al, be, ga));
    Cancel(al, det * (x + y), Joint(pi, pj, qi, qj, al, be, ga));
  }

  lemma Gather(al: real, det: real, x: real, y: real, pp: real, uu: real, joint: real)
    requires x * al == pp && (al * det) * y == uu && det * pp + uu == al * joint
    ensures al * (det * (x + y)) == al * joint
  {
    calc {
      al * (det * (x + y));
      det * (x * al) + (al * det) * y;
      det * pp + uu;
      al * joint;
    }
  }

  /** One entry after two updates: directions with projections p and q, total variances al and be, and
      cross variance ga. */
  function TwoStep(pi: real, pj: real, qi: real, qj: real, al: real, be: real, ga: real): real
    requires al != 0.0 && be - Share(ga, ga, al) != 0.0
  {
    Share(pi, pj, al) + Share(qi - Share(pi, ga, al), qj - Share(pj, ga, al), be - Share(ga, ga, al))
  }

  lemma ShareTimes(u: real, v: real, den: real)
    requires den != 0.0
    ensures Share(u, v, den) * den == u * v
  {
  }

  /** The determinant of the two total variances and their cross variance. */
  function Det(al: real, be: real, ga: real): real {
    al * be - ga * ga
  }

  lemma TwoStepJoint(pi: real, pj: real, qi: real, qj: real, al: real, be: real, ga: real)
    requires al != 0.0 && be - Share(ga, ga, al) != 0.0
    ensures Det(al, be, ga) != 0.0
    ensures Mul(Det(al, be, ga), TwoStep(pi, pj, qi, qj, al, be, ga)) == Joint(pi, pj, qi, qj, al, be, ga)
  {
    var d2, det := be - Share(ga, ga, al), Det(al, be, ga);
    ShareTimes(ga, ga, al);
    assert al * d2 == det;
    NonzeroProduct(al, d2, det);
    var x, fi, fj := Share(pi, pj, al), qi - Share(pi, ga, al), qj - Share(pj, ga, al);
    ShareTimes(pi, pj, al);
    ShareTimes(pi, ga, al);
    ShareTimes(pj, ga, al);
    Difference(al, qi, Share(pi, ga, al), ga * pi);
    Difference(al, qj, Share(pj, ga, al), ga * pj);
    var y := Share(fi, fj, d2);
    ShareTimes(fi, fj, d2);
    TwoShares(pi, pj, qi, qj, al, be, ga, x, fi, fj, d2, det, y);
  }

  lemma Difference(al: real, q: real, s: real, t: real)
    requires s * al == t
    ensures al * (q - s) == al * q - t
  {
  }

  lemma NonzeroProduct(a: real, b: real, p: real)
    requires a != 0.0 && b != 0.0 && p == a * b
    ensures p != 0.0
  {
    if p == 0.0 {
      Cancel(a, b, 0.0);
    }
  }

  lemma SameQuotient(det: real, t: real, t': real, joint: real)
    requires det != 0.0 && Mul(det, t) == joint && Mul(det, t') == joint
    ensures t == t'
  {
    Cancel(det, t, t');
  }

  lemma DetSwap(al: real, be: real, ga: real)
    ensures Det(al, be, ga) == Det(be, al, ga)
  {
  }

  /** Either order takes the same from every entry. */
  lemma OrderOfShares(pi: real, pj: real, qi: real, qj: real, al: real, be: real, ga: real)
    requires al != 0.0 && be - Share(ga, ga, al) != 0.0
    requires be != 0.0 && al - Share(ga, ga, be) != 0.0
    ensures TwoStep(pi, pj, qi, qj, al, be, ga) == TwoStep(qi, qj, pi, pj, be, al, ga)
  {
    TwoStepJoint(pi, pj, qi, qj, al, be, ga);
    TwoStepJoint(qi, qj, pi, pj, be, al, ga);
    JointSwap(pi, pj, qi, qj, al, be, ga);
    DetSwap(al, be, ga);
    SameQuotient(Det(al, be, ga), TwoStep(pi, pj, qi, qj, al, be, ga), TwoStep(qi, qj, pi, pj, be, al, ga),
                 Joint(pi, pj, qi, qj, al, be, ga));
  }

  lemma JointSwap(pi: real, pj: real, qi: real, qj: real, al: real, be: real, ga: real)
    ensures Joint(pi, pj, qi, qj, al, be, ga) == Joint(qi, qj, pi, pj, be, al, ga)
  {
  }

  /** The projection and the predictive variance of `b` after sensing along `a`. */
  lemma AfterFirst(s: Mat, a: Vec, b: Vec, noise: real, al: real)
    requires Rows(s, |a|, |a|) && |b| == |a| && al == noise + Predictive(s, a) && al != 0.0
    ensures forall i | 0 <= i < |a| ::
              Projected(Posterior(s, a, noise), b)[i]
              == Projected(s, b)[i] - Share(Projected(s, a)[i], Dot(Projected(s, a), b, |a|), al)
    ensures Predictive(Posterior(s, a, noise), b)
         == Predictive(s, b) - Share(Dot(b, Projected(s, a), |a|), Dot(Projected(s, a), b, |a|), al)
  {
    var n, p := |a|, Projected(s, a);
    forall i | 0 <= i < n
      ensures Projected(Posterior(s, a, noise), b)[i] == Projected(s, b)[i] - Share(p[i], Dot(p, b, n), al)
    {
      DowndateRow(s, n, p, al, b, i);
    }
    DowndateForm(s, n, p, al, b, b);
  }

  /** The scalars of two sensing directions: total variances and cross variance. */
  ghost predicate Crossed(s: Mat, a: Vec, na: real, b: Vec, nb: real, al: real, be: real, ga: real) {
    && IsPsd(s, |a|) && |b| == |a| && na > 0.0 && nb > 0.0
    && al == na + Predictive(s, a) && be == nb + Predictive(s, b) && ga == Dot(a, Projected(s, b), |a|)
  }

  /** The cross variance is the same from either side, and the remaining variances are positive. */
  lemma CrossFacts(s: Mat, a: Vec, na: real, b: Vec, nb: real, al: real, be: real, ga: real)
    requires Crossed(s, a, na, b, nb, al, be, ga)
    ensures al > 0.0 && be > 0.0
    ensures Dot(b, Projected(s, a), |a|) == ga && Dot(Projected(s, a), b, |a|) == ga
    ensures Dot(Projected(s, b), a, |a|) == ga
  {
    PredictiveNonneg(s, a);
    PredictiveNonneg(s, b);
    SymmetricForm(s, |a|, a, b);
    DotComm(b, Projected(s, a), |a|);
    DotComm(a, Projected(s, b), |a|);
  }

  /** What is left of the variance of `b` after sensing along `a`. */
  lemma RemainingVariance(s: Mat, a: Vec, na: real, b: Vec, nb: real, al: real, be: real, ga: real)
    requires Crossed(s, a, na, b, nb, al, be, ga)
    ensures al > 0.0
    ensures be - Share(ga, ga, al) == nb + Predictive(Posterior(s, a, na), b) >= nb
  {
    CrossFacts(s, a, na, b, nb, al, be, ga);
    AfterFirst(s, a, b, na, al);
    PosteriorQuad(s, a, na, b);
  }

  lemma CrossedSwap(s: Mat, a: Vec, na: real, b: Vec, nb: real, al: real, be: real, ga: real)
    requires Crossed(s, a, na, b, nb, al, be, ga)
    ensures Crossed(s, b, nb, a, na, be, al, ga)
  {
    CrossFacts(s, a, na, b, nb, al, be, ga);
    DotComm(b, Projected(s, a), |a|);
  }

  lemma PosteriorEntry(s: Mat, a: Vec, noise: real, den: real, i: nat, j: nat, pi: real, pj: real)
    requires Rows(s, |a|, |a|) && den == noise + Predictive(s, a) && den != 0.0 && i < |a| && j < |a|
    requires pi == Projected(s, a)[i] && pj == Projected(s, a)[j]
    ensures Posterior(s, a, noise)[i][j] == s[i][j] - Share(pi, pj, den)
  {
  }

  lemma ProjectedAfter(s: Mat, a: Vec, na: real, b: Vec, nb: real, al: real, be: real, ga: real, i: nat)
    requires Crossed(s, a, na, b, nb, al, be, ga) && i < |a|
    ensures al > 0.0
    ensures Projected(Posterior(s, a, na), b)[i] == Projected(s, b)[i] - Share(Projected(s, a)[i], ga, al)
  {
    CrossFacts(s, a, na, b, nb, al, be, ga);
    AfterFirst(s, a, b, na, al);
  }

  /** Two successive entries, once the projections are known. */
  lemma TwoEntries(sij: real, dij: real, rij: real, pi: real, pj: real, qi: real, qj: real, fi: real, fj: real,
                   al: real, be: real, ga: real)
    requires al != 0.0 && be - Share(ga, ga, al) != 0.0
    requires dij == sij - Share(pi, pj, al)
    requires fi == qi - Share(pi, ga, al) && fj == qj - Share(pj, ga, al)
    requires rij == dij - Share(fi, fj, be - Share(ga, ga, al))
    ensures rij == sij - TwoStep(pi, pj, qi, qj, al, be, ga)
  {
  }

  /** One entry after sensing along `a` and then `b`. */
  lemma TwoStepEntry(s: Mat, a: Vec, na: real, b: Vec, nb: real, al: real, be: real, ga: real, i: nat, j: nat)
    requires Crossed(s, a, na, b, nb, al, be, ga) && i < |a| && j < |a|
    ensures al > 0.0 && be - Share(ga, ga, al) > 0.0
    ensures nb + Predictive(Posterior(s, a, na), b) == be - Share(ga, ga, al)
    ensures Posterior(Posterior(s, a, na), b, nb)[i][j]
         == s[i][j]
          - TwoStep(Projected(s, a)[i], Projected(s, a)[j], Projected(s, b)[i], Projected(s, b)[j], al, be, ga)
  {
    RemainingVariance(s, a, na, b, nb, al, be, ga);
    ProjectedAfter(s, a, na, b, nb, al, be, ga, i);
    ProjectedAfter(s, a, na, b, nb, al, be, ga, j);
    EntryAfterBoth(s, a, na, b, nb, al, be, ga, i, j);
  }

  lemma EntryAfterBoth(s: Mat, a: Vec, na: real, b: Vec, nb: real, al: real, be: real, ga: real, i: nat, j: nat)
    requires Rows(s, |a|, |a|) && |b| == |a| && al == na + Predictive(s, a) && al > 0.0 && i < |a| && j < |a|
    requires be - Share(ga, ga, al) == nb + Predictive(Posterior(s, a, na), b) > 0.0
    requires Projected(Posterior(s, a, na), b)[i] == Projected(s, b)[i] - Share(Projected(s, a)[i], ga, al)
    requires Projected(Posterior(s, a, na), b)[j] == Projected(s, b)[j] - Share(Projected(s, a)[j], ga, al)
    ensures Posterior(Posterior(s, a, na), b, nb)[i][j]
         == s[i][j]
          - TwoStep(Projected(s, a)[i], Projected(s, a)[j], Projected(s, b)[i], Projected(s, b)[j], al, be, ga)
  {
    var d, p, q := Posterior(s, a, na), Projected(s, a), Projected(s, b);
    var f := Projected(d, b);
    PosteriorEntry(s, a, na, al, i, j, p[i], p[j]);
    PosteriorEntry(d, b, nb, be - Share(ga, ga, al), i, j, f[i], f[j]);
    TwoEntries(s[i][j], d[i][j], Posterior(d, b, nb)[i][j], p[i], p[j], q[i], q[j], f[i], f[j], al, be, ga);
  }

  /** Two apertures give the same posterior in either order. */
  lemma UpdatesCommute(s: Mat, a: Vec, na: real, b: Vec, nb: real)
    requires IsPsd(s, |a|) && |b| == |a| && na > 0.0 && nb > 0.0
    ensures na + Predictive(s, a) > 0.0 && nb + Predictive(s, b) > 0.0
    ensures nb + Predictive(Posterior(s, a, na), b) > 0.0 && na + Predictive(Posterior(s, b, nb), a) > 0.0
    ensures Posterior(Posterior(s, a, na), b, nb) == Posterior(Posterior(s, b, nb), a, na)
  {
    var al, be, ga := na + Predictive(s, a), nb + Predictive(s, b), Dot(a, Projected(s, b), |a|);
    RemainingVariance(s, a, na, b, nb, al, be, ga);
    CrossedSwap(s, a, na, b, nb, al, be, ga);
    RemainingVariance(s, b, nb, a, na, be, al, ga);
    var l, r := Posterior(Posterior(s, a, na), b, nb), Posterior(Posterior(s, b, nb), a, na);
    forall i, j | 0 <= i < |a| && 0 <= j < |a|
      ensures l[i][j] == r[i][j]
    {
      CommuteEntry(s, a, na, b, nb, al, be, ga, i, j);
    }
    forall i | 0 <= i < |a|
      ensures l[i] == r[i]
    {
    }
  }

  lemma CommuteEntry(s: Mat, a: Vec, na: real, b: Vec, nb: real, al: real, be: real, ga: real, i: nat, j: nat)
    requires Crossed(s, a, na, b, nb, al, be, ga) && i < |a| && j < |a|
    ensures al > 0.0 && be > 0.0
    ensures nb + Predictive(Posterior(s, a, na), b) > 0.0 && na + Predictive(Posterior(s, b, nb), a) > 0.0
    ensures Posterior(Posterior(s, a, na), b, nb)[i][j] == Posterior(Posterior(s, b, nb), a, na)[i][j]
  {
    TwoStepEntry(s, a, na, b, nb, al, be, ga, i, j);
    CrossedSwap(s, a, na, b, nb, al, be, ga);
    TwoStepEntry(s, b, nb, a, na, be, al, ga, i, j);
    OrderOfShares(Projected(s, a)[i], Projected(s, a)[j], Projected(s, b)[i], Projected(s, b)[j], al, be, ga);
  }

  lemma BothRemain(s: Mat, a: Vec, na: real, b: Vec, nb: real, al: real, be: real, ga: real)
    requires Crossed(s, a, na, b, nb, al, be, ga)
    ensures al > 0.0 && be > 0.0
    ensures be - Share(ga, ga, al) == nb + Predictive(Posterior(s, a, na), b)
    ensures al - Share(ga, ga, be) == na + Predictive(Posterior(s, b, nb), a)
  {
    RemainingVariance(s, a, na, b, nb, al, be, ga);
    CrossedSwap(s, a, na, b, nb, al, be, ga);
    RemainingVariance(s, b, nb, a, na, be, al, ga);
  }

  /** The two signal-to-noise factors have the same product in either order. */
  lemma GainsCommute(s: Mat, a: Vec, na: real, b: Vec, nb: real)
    requires IsPsd(s, |a|) && |b| == |a| && na > 0.0 && nb > 0.0
    ensures na + Predictive(s, a) > 0.0 && nb + Predictive(s, b) > 0.0
    ensures Mul(Factor(s, a, na), Factor(Posterior(s, a, na), b, nb))
         == Mul(Factor(s, b, nb), Factor(Posterior(s, b, nb), a, na))
  {
    var ga := Dot(a, Projected(s, b), |a|);
    BothRemain(s, a, na, b, nb, na + Predictive(s, a), nb + Predictive(s, b), ga);
    RatiosAgree(na, nb, ga, Predictive(s, a), Predictive(s, b), Predictive(Posterior(s, a, na), b),
                Predictive(Posterior(s, b, nb), a));
  }

  /** 1 + snr, from the predictive variance and the noise. */
  function Ratio(predictive: real, noise: real): real
    requires noise != 0.0
  {
    1.0 + predictive / noise
  }

  /** 1 + snr. */
  function Factor(s: Mat, a: Vec, noise: real): real
    requires Rows(s, |a|, |a|) && noise != 0.0
  {
    Ratio(Predictive(s, a), noise)
  }

  lemma RatioTimes(q: real, noise: real)
    requires noise != 0.0
    ensures Mul(Ratio(q, noise), noise) == noise + q
  {
    var d := q / noise;
    assert d * noise == q;
  }

  lemma ShareRemains(u: real, den: real, other: real)
    requires den != 0.0
    ensures Mul(den, other - Share(u, u, den)) == Det(den, other, u)
  {
    ShareTimes(u, u, den);
    Difference(den, other, Share(u, u, den), u * u);
  }

  /** The predictive variances before and after, in either order, give the same product of ratios. */
  lemma RatiosAgree(na: real, nb: real, ga: real, qa: real, qb: real, qab: real, qba: real)
    requires na > 0.0 && nb > 0.0 && na + qa > 0.0 && nb + qb > 0.0
    requires nb + qab == nb + qb - Share(ga, ga, na + qa) && na + qba == na + qa - Share(ga, ga, nb + qb)
    ensures Mul(Ratio(qa, na), Ratio(qab, nb)) == Mul(Ratio(qb, nb), Ratio(qba, na))
  {
    ShareRemains(ga, na + qa, nb + qb);
    ShareRemains(ga, nb + qb, na + qa);
    DetSwap(na + qa, nb + qb, ga);
    RatioTimes(qa, na);
    RatioTimes(qab, nb);
    RatioTimes(qb, nb);
    RatioTimes(qba, na);
    Positive(na, nb, Mul(na, nb));
    TimesBoth(Ratio(qa, na), na, na + qa, Ratio(qab, nb), nb, nb + qab);
    TimesBoth(Ratio(qb, nb), nb, nb + qb, Ratio(qba, na), na, na + qba);
    MulSwap(na, nb);
    Cancel(Mul(na, nb), Mul(Ratio(qa, na), Ratio(qab, nb)), Mul(Ratio(qb, nb), Ratio(qba, na)));
  }

  lemma TimesBoth(f: real, n: real, x: real, g: real, m: real, y: real)
    requires Mul(f, n) == x && Mul(g, m) == y
    ensures Mul(n, m) * Mul(f, g) == Mul(x, y)
  {
    assert (n * m) * (f * g) == (f * n) * (g * m);
  }

  lemma MulSwap(a: real, b: real)
    ensures Mul(a, b) == Mul(b, a)
  {
  }
}
