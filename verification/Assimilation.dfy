/** `assimilate_aperture_result`: the exact Gaussian update of mean and covariance by one measured value. */
module Assimilation {
  import opened Prelude
  import opened Vectors
  import opened PosteriorUpdate
  import opened ActiveStep

  datatype Belief = Belief(mean: Vec, covariance: Mat)

  predicate Shaped(b: Belief, c: Candidate) {
    |b.mean| == |b.covariance| && Fits(b.covariance, c)
  }

  /** What was measured minus what was expected. */
  function Innovation(mean: Vec, c: Candidate, y: real): real
    requires |mean| == |c.sensing|
  {
    y - Dot(c.sensing, mean, |mean|)
  }

  /** The mean moved along the projection by its share of the innovation. */
  function Moved(mean: Vec, p: Vec, e: real, den: real): (m: Vec)
    requires |p| == |mean| && den != 0.0
    ensures |m| == |mean| && forall i | 0 <= i < |mean| :: m[i] == mean[i] + Share(p[i], e, den)
  {
    seq(|mean|, i requires 0 <= i < |mean| => mean[i] + Share(p[i], e, den))
  }

  /** The belief after measuring `y` through `c`. */
  ghost function Absorb(b: Belief, c: Candidate, y: real): (r: Belief)
    requires Shaped(b, c)
    ensures |r.mean| == |b.mean| && |r.covariance| == |b.covariance|
  {
    Belief(Moved(b.mean, Projected(b.covariance, c.sensing), Innovation(b.mean, c, y), Denominator(b.covariance, c)),
           Sense(b.covariance, c))
  }

  method Assimilate(validate: Mat -> bool, b: Belief, c: Candidate, y: real) returns (r: Result<Belief>)
    requires Validates(validate)
    ensures r.Ok? <==> b.mean != [] && validate(b.covariance) && Shaped(b, c)
    ensures r.Ok? ==> r.value == Absorb(b, c, y)
  {
    if b.mean == [] {
      return Err("active_posterior_mean_invalid");
    }
    if !validate(b.covariance) {
      return Err("active_covariance");
    }
    if |b.covariance| != |b.mean| {
      return Err("active_posterior_mean_shape");
    }
    if !ValidCandidate(c, |b.covariance|) {
      return Err("active_candidate_invalid");
    }
    var projected := Projected(b.covariance, c.sensing);
    var den := Denominator(b.covariance, c);
    var innovation := Innovation(b.mean, c, y);
    var mean := seq(|b.mean|, i requires 0 <= i < |b.mean| => b.mean[i] + projected[i] / den * innovation);
    MovedIs(b.mean, projected, innovation, den, mean);
    var updated := UpdatePosterior(validate, b.covariance, c);
    if updated.Err? {
      return Err("active_covariance");
    }
    r := Ok(Belief(mean, updated.value));
  }

  lemma MovedIs(mean: Vec, p: Vec, e: real, den: real, m: Vec)
    requires |p| == |mean| == |m| && den != 0.0
    requires forall i | 0 <= i < |mean| :: m[i] == mean[i] + p[i] / den * e
    ensures m == Moved(mean, p, e, den)
  {
    forall i | 0 <= i < |mean|
      ensures m[i] == Moved(mean, p, e, den)[i]
    {
      ShareAs(p[i], e, den);
    }
  }

  lemma ShareNegative(u: real, e: real, den: real)
    requires den != 0.0
    ensures Share(u, -e, den) == -Share(u, e, den)
  {
    ShareAs(u, e, den);
    ShareAs(u, -e, den);
  }

  /** What any direction reads off the moved mean. */
  lemma DotMoved(x: Vec, mean: Vec, p: Vec, e: real, den: real)
    requires |x| == |mean| == |p| && den != 0.0
    ensures Dot(x, Moved(mean, p, e, den), |x|) == Dot(x, mean, |x|) + Share(Dot(x, p, |x|), e, den)
  {
    forall i | 0 <= i < |x|
      ensures Moved(mean, p, e, den)[i] == mean[i] - Share(p[i], -e, den)
    {
      ShareNegative(p[i], e, den);
    }
    DotShares(x, Moved(mean, p, e, den), mean, p, -e, den, |x|);
    ShareNegative(Dot(x, p, |x|), e, den);
  }

  /** The mean moves towards the measurement: the misfit shrinks by the factor noise / (noise + a'Sa). */
  lemma MisfitShrinks(b: Belief, c: Candidate, y: real)
    requires Shaped(b, c) && IsPsd(b.covariance, |b.covariance|)
    ensures Innovation(Absorb(b, c, y).mean, c, y)
        == Share(c.noise, Innovation(b.mean, c, y), Denominator(b.covariance, c))
  {
    var p, e, den := Projected(b.covariance, c.sensing), Innovation(b.mean, c, y), Denominator(b.covariance, c);
    SenseIs(b.covariance, c);
    DotMoved(c.sensing, b.mean, p, e, den);
    ShareRest(c.noise, Predictive(b.covariance, c.sensing), e, den);
  }

  lemma ShareRest(noise: real, q: real, e: real, den: real)
    requires den == noise + q && den != 0.0
    ensures e - Share(q, e, den) == Share(noise, e, den)
  {
    assert noise * e + q * e == e * den;
    DivAdd(noise * e, q * e, den);
    assert (e * den) / den == e;
  }

  /** Entry `i` of the mean after measuring `ya` through `a` and then `yb` through `c`. */
  lemma TwoMeans(b: Belief, a: Candidate, ya: real, c: Candidate, yc: real, al: real, be: real, ga: real, i: nat)
    requires Shaped(b, a) && Shaped(b, c) && i < |b.mean|
    requires Crossed(b.covariance, a.sensing, a.noise, c.sensing, c.noise, al, be, ga)
    ensures al != 0.0 && be - Share(ga, ga, al) != 0.0
    ensures Shaped(Absorb(b, a, ya), c)
    ensures Absorb(Absorb(b, a, ya), c, yc).mean[i]
         == b.mean[i] + TwoStep(Projected(b.covariance, a.sensing)[i], Innovation(b.mean, a, ya),
                                Projected(b.covariance, c.sensing)[i], Innovation(b.mean, c, yc), al, be, ga)
  {
    var s := b.covariance;
    SecondScalars(s, a, c, al, be, ga, i);
    AfterFirstMean(b, a, ya, c, yc, al, ga);
    var mid := Absorb(b, a, ya);
    SecondEntry(mid.mean[i], b.mean[i], Absorb(mid, c, yc).mean[i], Projected(s, a.sensing)[i],
                Innovation(b.mean, a, ya), Projected(s, c.sensing)[i], Innovation(b.mean, c, yc),
                Projected(mid.covariance, c.sensing)[i], Innovation(mid.mean, c, yc), al, be, ga);
  }

  /** The scalars of the second update, after the first. */
  lemma SecondScalars(s: Mat, a: Candidate, c: Candidate, al: real, be: real, ga: real, i: nat)
    requires Fits(s, a) && Fits(s, c) && Crossed(s, a.sensing, a.noise, c.sensing, c.noise, al, be, ga) && i < |s|
    ensures al > 0.0 && be - Share(ga, ga, al) > 0.0
    ensures Fits(Sense(s, a), c) && al == Denominator(s, a)
    ensures Denominator(Sense(s, a), c) == be - Share(ga, ga, al)
    ensures Projected(Sense(s, a), c.sensing)[i]
         == Projected(s, c.sensing)[i] - Share(Projected(s, a.sensing)[i], ga, al)
  {
    SenseIs(s, a);
    SensePsd(s, a);
    SenseIs(Sense(s, a), c);
    CrossFacts(s, a.sensing, a.noise, c.sensing, c.noise, al, be, ga);
    RemainingVariance(s, a.sensing, a.noise, c.sensing, c.noise, al, be, ga);
    ProjectedAfter(s, a.sensing, a.noise, c.sensing, c.noise, al, be, ga, i);
  }

  /** The first update seen by the second: the innovation moves by its share. */
  lemma AfterFirstMean(b: Belief, a: Candidate, ya: real, c: Candidate, yc: real, al: real, ga: real)
    requires Shaped(b, a) && Shaped(b, c) && al == Denominator(b.covariance, a)
    requires IsPsd(b.covariance, |b.covariance|)
    requires ga == Dot(a.sensing, Projected(b.covariance, c.sensing), |b.covariance|)
    ensures Innovation(Absorb(b, a, ya).mean, c, yc)
         == Innovation(b.mean, c, yc) - Share(Innovation(b.mean, a, ya), ga, al)
  {
    var s := b.covariance;
    DotMoved(c.sensing, b.mean, Projected(s, a.sensing), Innovation(b.mean, a, ya), al);
    SymmetricForm(s, |s|, c.sensing, a.sensing);
    ShareSwap(ga, Innovation(b.mean, a, ya), al);
  }

  lemma SecondEntry(mi: real, bi: real, ri: real, pi: real, ea: real, qi: real, ec: real, fi: real, e2: real,
                    al: real, be: real, ga: real)
    requires al != 0.0 && be - Share(ga, ga, al) != 0.0
    requires mi == bi + Share(pi, ea, al)
    requires fi == qi - Share(pi, ga, al) && e2 == ec - Share(ea, ga, al)
    requires ri == mi + Share(fi, e2, be - Share(ga, ga, al))
    ensures ri == bi + TwoStep(pi, ea, qi, ec, al, be, ga)
  {
  }

  lemma Scalars(b: Belief, a: Candidate, c: Candidate) returns (al: real, be: real, ga: real)
    requires Shaped(b, a) && Shaped(b, c) && IsPsd(b.covariance, |b.covariance|)
    ensures Crossed(b.covariance, a.sensing, a.noise, c.sensing, c.noise, al, be, ga)
    ensures Crossed(b.covariance, c.sensing, c.noise, a.sensing, a.noise, be, al, ga)
    ensures al != 0.0 && be != 0.0
  {
    var s := b.covariance;
    al, be, ga := a.noise + Predictive(s, a.sensing), c.noise + Predictive(s, c.sensing),
      Dot(a.sensing, Projected(s, c.sensing), |s|);
    CrossFacts(s, a.sensing, a.noise, c.sensing, c.noise, al, be, ga);
    CrossedSwap(s, a.sensing, a.noise, c.sensing, c.noise, al, be, ga);
  }

  lemma SenseCommutes(s: Mat, a: Candidate, c: Candidate)
    requires IsPsd(s, |s|) && Fits(s, a) && Fits(s, c)
    ensures Sense(Sense(s, a), c) == Sense(Sense(s, c), a)
  {
    SenseIs(s, a);
    SenseIs(s, c);
    SensePsd(s, a);
    SensePsd(s, c);
    SenseIs(Sense(s, a), c);
    SenseIs(Sense(s, c), a);
    UpdatesCommute(s, a.sensing, a.noise, c.sensing, c.noise);
  }

  /** Two measured values give the same belief, mean and covariance, in either order. */
  lemma MeasurementsCommute(b: Belief, a: Candidate, ya: real, c: Candidate, yc: real)
    requires Shaped(b, a) && Shaped(b, c) && IsPsd(b.covariance, |b.covariance|)
    ensures Shaped(Absorb(b, a, ya), c) && Shaped(Absorb(b, c, yc), a)
    ensures Absorb(Absorb(b, a, ya), c, yc) == Absorb(Absorb(b, c, yc), a, ya)
  {
    var l, r := Absorb(Absorb(b, a, ya), c, yc), Absorb(Absorb(b, c, yc), a, ya);
    SenseCommutes(b.covariance, a, c);
    forall i | 0 <= i < |b.mean|
      ensures l.mean[i] == r.mean[i]
    {
      SameEntry(b, a, ya, c, yc, i);
    }
    assert l.mean == r.mean;
  }

  lemma SameEntry(b: Belief, a: Candidate, ya: real, c: Candidate, yc: real, i: nat)
    requires Shaped(b, a) && Shaped(b, c) && IsPsd(b.covariance, |b.covariance|) && i < |b.mean|
    ensures Shaped(Absorb(b, a, ya), c) && Shaped(Absorb(b, c, yc), a)
    ensures Absorb(Absorb(b, a, ya), c, yc).mean[i] == Absorb(Absorb(b, c, yc), a, ya).mean[i]
  {
    var al, be, ga := Scalars(b, a, c);
    TwoMeans(b, a, ya, c, yc, al, be, ga, i);
    TwoMeans(b, c, yc, a, ya, be, al, ga, i);
    OrderOfShares(Projected(b.covariance, a.sensing)[i], Innovation(b.mean, a, ya),
                  Projected(b.covariance, c.sensing)[i], Innovation(b.mean, c, yc), al, be, ga);
  }
}
