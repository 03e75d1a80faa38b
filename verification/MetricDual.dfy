/** `metric_dual_direction`: the direction that makes the projector annihilate a given covector. */
module MetricDual {
  import opened Prelude
  import opened Vectors
  import opened LeastSquares
  import opened Spectral
  import opened SafeSubspace
  import opened Protection

  /** The metric sees every coordinate the covector uses. */
  predicate Supported(g: Vec, w: Vec) {
    |w| == |g| && forall k | 0 <= k < |g| :: w[k] >= 0.0 && (w[k] == 0.0 ==> g[k] == 0.0)
  }

  /** The covector divided by the root of the metric, zero where the metric is zero. */
  function Whiten(sqrt: real -> real, g: real, w: real): real {
    if w == 0.0 || sqrt(w) == 0.0 then 0.0 else g / sqrt(w)
  }

  /** `u` represents `g`: coordinate by coordinate the metric turns it into `g` divided by `scale`. */
  ghost predicate Represents(u: Vec, g: Vec, w: Vec, scale: real) {
    && |u| == |g| == |w| && scale > 0.0
    && (forall k | 0 <= k < |g| :: scale * (w[k] * u[k]) == g[k])
    && (forall k | 0 <= k < |g| && w[k] == 0.0 :: u[k] == 0.0)
  }

  lemma DualEntry(sqrt: real -> real, g: real, w: real, scale: real, u: real)
    requires IsSqrt(sqrt) && w > 0.0 && scale > 0.0 && sqrt(w) != 0.0
    requires u == Whiten(sqrt, g, w) / scale / sqrt(w)
    ensures scale * (w * u) == g
    ensures g != 0.0 ==> u != 0.0
  {
    var r, x := sqrt(w), Whiten(sqrt, g, w);
    assert x * r == g;
    var y := x / scale;
    assert y * scale == x;
    assert u * r == y;
    calc {
      scale * (w * u);
      scale * ((r * r) * u);
      scale * (r * (u * r));
      (y * scale) * r;
      g;
    }
  }

  function Whitened(sqrt: real -> real, g: Vec, w: Vec): (x: Vec)
    requires |w| == |g|
    ensures |x| == |g| && forall k | 0 <= k < |g| :: x[k] == Whiten(sqrt, g[k], w[k])
  {
    seq(|g|, k requires 0 <= k < |g| => Whiten(sqrt, g[k], w[k]))
  }

  /** The dual of one entry. */
  function Dual(sqrt: real -> real, g: real, w: real, scale: real): real
    requires scale > 0.0
  {
    if w == 0.0 || sqrt(w) == 0.0 then 0.0 else Whiten(sqrt, g, w) / scale / sqrt(w)
  }

  lemma RootOfZero(sqrt: real -> real)
    requires IsSqrt(sqrt)
    ensures sqrt(0.0) == 0.0
  {
    ZeroRoot(sqrt(0.0));
  }

  lemma WhitenedZero(sqrt: real -> real, g: Vec, w: Vec)
    requires IsSqrt(sqrt) && |w| == |g| && g == Zeros(|g|)
    ensures sqrt(Dot(Whitened(sqrt, g, w), Whitened(sqrt, g, w), |g|)) == 0.0
  {
    var x := Whitened(sqrt, g, w);
    forall k | 0 <= k < |g|
      ensures x[k] == 0.0
    {
      WhitenZero(sqrt, w[k]);
    }
    DotZero(x, x, |g|);
    RootOfZero(sqrt);
  }

  lemma WhitenedPositive(sqrt: real -> real, g: Vec, w: Vec, k: nat)
    requires IsSqrt(sqrt) && |w| == |g| && k < |g| && g[k] != 0.0 && w[k] > 0.0
    ensures sqrt(Dot(Whitened(sqrt, g, w), Whitened(sqrt, g, w), |g|)) > 0.0
  {
    var x := Whitened(sqrt, g, w);
    RootPositive(sqrt, w[k]);
    WhitenNonzero(sqrt, g[k], w[k]);
    DotPositive(x, |g|, k);
    RootPositive(sqrt, Dot(x, x, |g|));
  }

  /** A covector that the metric sees somewhere has a whitened form of positive length. */
  lemma WhitenedLength(sqrt: real -> real, g: Vec, w: Vec)
    requires IsSqrt(sqrt) && Supported(g, w)
    ensures sqrt(Dot(Whitened(sqrt, g, w), Whitened(sqrt, g, w), |g|)) == 0.0 <==> g == Zeros(|g|)
  {
    if g == Zeros(|g|) {
      WhitenedZero(sqrt, g, w);
    } else {
      var k :| 0 <= k < |g| && g[k] != 0.0;
      WhitenedPositive(sqrt, g, w, k);
    }
  }

  lemma ZeroRoot(r: real)
    requires r * r == 0.0
    ensures r == 0.0
  {
    Square(r, r * r);
  }

  lemma WhitenZero(sqrt: real -> real, w: real)
    ensures Whiten(sqrt, 0.0, w) == 0.0
  {
  }

  lemma WhitenNonzero(sqrt: real -> real, g: real, w: real)
    requires w > 0.0 && sqrt(w) > 0.0 && g != 0.0
    ensures Whiten(sqrt, g, w) != 0.0
  {
    var x := Whiten(sqrt, g, w);
    assert x * sqrt(w) == g;
  }

  /** The whitened covector at unit length. */
  function UnitForm(x: Vec, scale: real): (y: Vec)
    requires scale > 0.0
    ensures |y| == |x| && forall i | 0 <= i < |x| :: y[i] == x[i] / scale
  {
    seq(|x|, i requires 0 <= i < |x| => x[i] / scale)
  }

  lemma DividedTimes(x: real, scale: real)
    requires scale > 0.0
    ensures scale * (x / scale) == x
  {
  }

  lemma UnitFormScaled(x: Vec, scale: real)
    requires scale > 0.0
    ensures Scaled(scale, UnitForm(x, scale)) == x
  {
    forall i | 0 <= i < |x|
      ensures Scaled(scale, UnitForm(x, scale))[i] == x[i]
    {
      DividedTimes(x[i], scale);
    }
  }

  lemma {:induction false} EnergySum(u: Vec, w: Vec, y: Vec, k: nat)
    requires |u| == |w| == |y| && k <= |y|
    requires forall i | 0 <= i < |y| :: SameEnergy(u[i], w[i], y[i])
    ensures Dot(u, Weighted(w, u), k) == Dot(y, y, k)
  {
    if k > 0 {
      EnergySum(u, w, y, k - 1);
      assert SameEnergy(u[k-1], w[k-1], y[k-1]);
    }
  }

  predicate SameEnergy(u: real, w: real, y: real) {
    u * (w * u) == y * y
  }

  lemma OneEnergy(sqrt: real -> real, g: real, w: real, scale: real, u: real, y: real)
    requires IsSqrt(sqrt) && w >= 0.0 && (w == 0.0 ==> g == 0.0) && scale > 0.0 && u == Dual(sqrt, g, w, scale)
    requires y == Whiten(sqrt, g, w) / scale
    ensures SameEnergy(u, w, y)
  {
    if w > 0.0 {
      RootPositive(sqrt, w);
      var r := sqrt(w);
      assert u * r == y;
      assert u * (w * u) == (u * r) * (u * r);
    }
  }

  lemma UnitEnergy(scale: real, e: real, d: real, q: real)
    requires scale > 0.0 && q == scale * d && d == scale * e && q == scale * scale
    ensures e == 1.0
  {
    assert scale * (d - scale) == 0.0;
    NoZeroFactor(scale, d - scale);
    assert scale * (e - 1.0) == 0.0;
    NoZeroFactor(scale, e - 1.0);
  }

  lemma UnitFormLength(x: Vec, scale: real)
    requires scale > 0.0 && scale * scale == Dot(x, x, |x|)
    ensures Dot(UnitForm(x, scale), UnitForm(x, scale), |x|) == 1.0
  {
    var y := UnitForm(x, scale);
    UnitFormScaled(x, scale);
    DotScaled(scale, y, x, |x|);
    DotScaled(scale, y, y, |x|);
    UnitEnergy(scale, Dot(y, y, |x|), Dot(y, x, |x|), Dot(x, x, |x|));
  }

  /** The dual of a supported covector has unit energy. */
  lemma DualEnergy(sqrt: real -> real, g: Vec, w: Vec, u: Vec, scale: real)
    requires IsSqrt(sqrt) && Supported(g, w) && scale > 0.0 && |u| == |g|
    requires forall i | 0 <= i < |g| :: u[i] == Dual(sqrt, g[i], w[i], scale)
    requires scale * scale == Dot(Whitened(sqrt, g, w), Whitened(sqrt, g, w), |g|)
    ensures Wdot(u, u, w) == 1.0
  {
    var x := Whitened(sqrt, g, w);
    var y := UnitForm(x, scale);
    forall i | 0 <= i < |g|
      ensures SameEnergy(u[i], w[i], y[i])
    {
      OneEnergy(sqrt, g[i], w[i], scale, u[i], y[i]);
    }
    EnergySum(u, w, y, |g|);
    UnitFormLength(x, scale);
  }

  method DualDirection(sqrt: real -> real, g: Vec, w: Vec) returns (r: Result<Vec>, ghost scale: real)
    requires IsSqrt(sqrt)
    ensures r.Ok? <==> g != [] && Supported(g, w) && g != Zeros(|g|)
    ensures r.Ok? ==> Represents(r.value, g, w, scale) && Wdot(r.value, r.value, w) == 1.0
  {
    scale := 0.0;
    if |g| != |w| || g == [] || exists k | 0 <= k < |w| :: w[k] < 0.0 {
      return Err("protected_map_metric_dual_shape"), scale;
    }
    var white := WhitenAll(sqrt, g, w);
    if white.Err? {
      return Err(white.code), scale;
    }
    var whitened := white.value;
    DotSelf(whitened, |g|);
    WhitenedLength(sqrt, g, w);
    var dualNorm := sqrt(Dot(whitened, whitened, |whitened|));
    if dualNorm == 0.0 {
      return Err("protected_map_metric_dual_degenerate"), scale;
    }
    scale := dualNorm;
    r := Normalise(sqrt, g, w, whitened, dualNorm);
  }

  /** Divide by the roots of the metric, where it is positive; elsewhere the covector has to vanish. */
  method WhitenAll(sqrt: real -> real, g: Vec, w: Vec) returns (r: Result<Vec>)
    requires IsSqrt(sqrt) && |g| == |w| && forall k | 0 <= k < |w| :: w[k] >= 0.0
    ensures r.Ok? <==> forall k | 0 <= k < |w| :: w[k] == 0.0 ==> g[k] == 0.0
    ensures r.Ok? ==> r.value == Whitened(sqrt, g, w)
  {
    var whitened: Vec := [];
    for k := 0 to |g|
      invariant |whitened| == k && forall i | 0 <= i < k :: whitened[i] == Whiten(sqrt, g[i], w[i])
      invariant forall i | 0 <= i < k :: w[i] == 0.0 ==> g[i] == 0.0
    {
      if w[k] == 0.0 {
        if g[k] != 0.0 {
          return Err("protected_map_metric_lost_covector_support");
        }
        whitened := whitened + [0.0];
      } else {
        RootPositive(sqrt, w[k]);
        whitened := whitened + [g[k] / sqrt(w[k])];
      }
    }
    assert whitened == Whitened(sqrt, g, w);
    r := Ok(whitened);
  }

  /** One entry of the normalised direction. */
  ghost predicate EntryOk(sqrt: real -> real, g: real, w: real, norm: real, d: real)
    requires norm > 0.0
  {
    d == Dual(sqrt, g, w, norm) && norm * (w * d) == g && (w == 0.0 ==> d == 0.0) && (g != 0.0 ==> d != 0.0)
  }

  lemma EntryIsOk(sqrt: real -> real, g: real, w: real, norm: real, x: real)
    requires IsSqrt(sqrt) && w >= 0.0 && (w == 0.0 ==> g == 0.0) && norm > 0.0 && x == Whiten(sqrt, g, w)
    ensures w > 0.0 ==> sqrt(w) != 0.0
    ensures EntryOk(sqrt, g, w, norm, if w == 0.0 then 0.0 else x / norm / sqrt(w))
  {
    if w > 0.0 {
      RootPositive(sqrt, w);
      DualEntry(sqrt, g, w, norm, x / norm / sqrt(w));
    }
  }

  lemma AllEntries(sqrt: real -> real, g: Vec, w: Vec, d: Vec, norm: real)
    requires |g| == |w| == |d| && norm > 0.0
    requires forall i | 0 <= i < |g| :: EntryOk(sqrt, g[i], w[i], norm, d[i])
    ensures Represents(d, g, w, norm) && forall i | 0 <= i < |g| :: d[i] == Dual(sqrt, g[i], w[i], norm)
  {
    forall i | 0 <= i < |g|
      ensures d[i] == Dual(sqrt, g[i], w[i], norm) && norm * (w[i] * d[i]) == g[i] && (w[i] == 0.0 ==> d[i] == 0.0)
    {
      assert EntryOk(sqrt, g[i], w[i], norm, d[i]);
    }
  }

  method DualOf(sqrt: real -> real, ghost g: real, w: real, norm: real, x: real) returns (d: real)
    requires IsSqrt(sqrt) && w >= 0.0 && (w == 0.0 ==> g == 0.0) && norm > 0.0 && x == Whiten(sqrt, g, w)
    ensures EntryOk(sqrt, g, w, norm, d)
  {
    EntryIsOk(sqrt, g, w, norm, x);
    d := if w == 0.0 then 0.0 else x / norm / sqrt(w);
  }

  /** Scale the whitened covector to unit energy in the metric. */
  method Normalise(sqrt: real -> real, g: Vec, w: Vec, whitened: Vec, norm: real) returns (r: Result<Vec>)
    requires IsSqrt(sqrt) && Supported(g, w) && whitened == Whitened(sqrt, g, w)
    requires norm > 0.0 && norm * norm == Dot(whitened, whitened, |g|)
    ensures r.Ok? && Represents(r.value, g, w, norm) && Wdot(r.value, r.value, w) == 1.0
  {
    var direction: Vec := [];
    var energy := 0.0;
    for k := 0 to |g|
      invariant |direction| == k && forall i | 0 <= i < k :: EntryOk(sqrt, g[i], w[i], norm, direction[i])
      invariant energy == Energy(direction, w, k)
    {
      var dual := DualOf(sqrt, g[k], w[k], norm, whitened[k]);
      if g[k] != 0.0 && dual == 0.0 {
        return Err("protected_map_metric_dual_not_representable");
      }
      EnergyPrefix(direction, dual, w, k);
      energy := energy + dual * dual * w[k];
      direction := direction + [dual];
    }
    AllEntries(sqrt, g, w, direction, norm);
    DualEnergy(sqrt, g, w, direction, norm);
    EnergyIsWdot(direction, w, |g|);
    if Abs(energy - 1.0) > ROOT * |g| as real {
      return Err("protected_map_metric_dual_normalization");
    }
    r := Ok(direction);
  }

  function Energy(u: Vec, w: Vec, k: nat): real
    requires k <= |u| && k <= |w|
  {
    if k == 0 then 0.0 else Energy(u, w, k - 1) + u[k-1] * u[k-1] * w[k-1]
  }

  lemma {:induction false} EnergyPrefixes(u: Vec, d: real, w: Vec, k: nat)
    requires k <= |u| && k <= |w|
    ensures Energy(u + [d], w, k) == Energy(u, w, k)
  {
    if k > 0 {
      EnergyPrefixes(u, d, w, k - 1);
    }
  }

  lemma EnergyPrefix(u: Vec, d: real, w: Vec, k: nat)
    requires k == |u| < |w|
    ensures Energy(u + [d], w, k + 1) == Energy(u, w, k) + d * d * w[k]
  {
    EnergyPrefixes(u, d, w, k);
  }

  lemma {:induction false} EnergyIsWdot(u: Vec, w: Vec, k: nat)
    requires |u| == |w| && k <= |u|
    ensures Energy(u, w, k) == Dot(u, Weighted(w, u), k)
  {
    if k > 0 {
      EnergyIsWdot(u, w, k - 1);
      SameProduct(u[k-1], w[k-1]);
    }
  }

  lemma SameProduct(u: real, w: real)
    ensures u * u * w == u * (w * u)
  {
  }

  lemma Distribute(s: real, a: real, b: real, a': real, b': real)
    requires s * a == a' && s * b == b'
    ensures s * (a + b) == a' + b'
  {
  }

  // ----- what the representation is for

  /** Testing with the dual direction in the metric is testing with the covector. */
  lemma {:induction false} DualTest(u: Vec, g: Vec, w: Vec, scale: real, x: Vec, k: nat)
    requires Represents(u, g, w, scale) && |x| == |g| && k <= |g|
    ensures Mul(scale, Dot(u, Weighted(w, x), k)) == Dot(g, x, k)
  {
    if k > 0 {
      DualTest(u, g, w, scale, x, k - 1);
      DotTerm(w, u, x, k - 1);
      TestEntry(u[k-1], w[k-1], x[k-1], scale, g[k-1]);
      SpreadMul(scale, Dot(u, Weighted(w, x), k - 1), Term(u[k-1], w[k-1], x[k-1]));
    }
  }

  lemma TestEntry(u: real, w: real, x: real, scale: real, g: real)
    requires scale * (w * u) == g
    ensures Mul(scale, Term(u, w, x)) == g * x
  {
    assert scale * (u * (w * x)) == (scale * (w * u)) * x;
  }

  lemma SpreadMul(c: real, x: real, y: real)
    ensures Mul(c, x + y) == Mul(c, x) + Mul(c, y)
  {
  }

  /** A vector is orthogonal to the dual direction in the metric exactly when the covector vanishes on it. */
  lemma OrthogonalIffAnnihilated(u: Vec, g: Vec, w: Vec, scale: real, x: Vec)
    requires Represents(u, g, w, scale) && |x| == |g|
    ensures Wdot(u, x, w) == 0.0 <==> Dot(g, x, |g|) == 0.0
  {
    DualTest(u, g, w, scale, x, |g|);
    ZeroTogether(scale, Wdot(u, x, w), Dot(g, x, |g|));
  }

  lemma ZeroTogether(scale: real, d: real, t: real)
    requires scale > 0.0 && Mul(scale, d) == t
    ensures d == 0.0 <==> t == 0.0
  {
    if t == 0.0 {
      NoZeroFactor(scale, d);
    }
  }

  /** Each protected direction represents one retained covector. */
  ghost predicate MapOf(gs: Mat, scales: Vec, us: Mat, w: Vec) {
    && |gs| == |us| == |scales| && Frame(us, w)
    && (forall i | 0 <= i < |us| :: Represents(us[i], gs[i], w, scales[i]))
  }

  /** End to end: an exact projection annihilates every retained covector and leaves coordinates without importance
      alone. */
  lemma MapProtects(gs: Mat, scales: Vec, us: Mat, w: Vec, delta: Vec, x: Vec)
    requires MapOf(gs, scales, us, w) && |delta| == |x| == |w|
    requires IsRemainder(us, w, Brake(delta, w), x) && Orthogonalised(us, w, x)
    ensures forall i | 0 <= i < |gs| :: |gs[i]| == |x| && Dot(gs[i], x, |x|) == 0.0
    ensures forall k | 0 <= k < |w| && w[k] == 0.0 :: x[k] == delta[k]
  {
    forall i | 0 <= i < |gs|
      ensures |gs[i]| == |x| && Dot(gs[i], x, |x|) == 0.0
    {
      OrthogonalIffAnnihilated(us[i], gs[i], w, scales[i], x);
    }
    forall k | 0 <= k < |w| && w[k] == 0.0
      ensures x[k] == delta[k]
    {
      forall i | 0 <= i < |us|
        ensures us[i][k] == 0.0
      {
        assert Represents(us[i], gs[i], w, scales[i]);
      }
      UntouchedCoordinate(us, w, delta, x, k);
    }
  }
}
