/** What is known after sensing a set of apertures does not depend on the order in which they were sensed. */
module OrderIndependence {
  import opened Prelude
  import opened Vectors
  import opened PosteriorUpdate
  import opened ActiveStep
  import opened ActivePlan
  import opened ActiveLaws
  import Assimilation

  /** 1 + snr of sensing along `c`, on which the information gain of the step depends. */
  ghost function StepFactor(s: Mat, c: Candidate): real {
    if Fits(s, c) then 1.0 + Snr(s, c) else 1.0
  }

  /** The product of the factors 1 + snr met while sensing along every candidate in turn. */
  ghost function Factors(s: Mat, cs: seq<Candidate>): real {
    if cs == [] then 1.0
    else Mul(Factors(s, cs[..|cs|-1]), StepFactor(After(s, cs[..|cs|-1]), cs[|cs|-1]))
  }

  /** The two orders leave the same covariance and have gained the same. */
  ghost predicate SameOutcome(s: Mat, cs: seq<Candidate>, ds: seq<Candidate>) {
    After(s, cs) == After(s, ds) && Factors(s, cs) == Factors(s, ds)
  }

  lemma StepFactorIs(s: Mat, c: Candidate)
    requires IsPsd(s, |s|) && ValidCandidate(c, |s|)
    ensures StepFactor(s, c) == Factor(s, c.sensing, c.noise) >= 1.0
  {
    SenseIs(s, c);
    RatioAboveOne(Predictive(s, c.sensing), c.noise);
  }

  lemma RatioAboveOne(q: real, noise: real)
    requires q >= 0.0 && noise > 0.0
    ensures Ratio(q, noise) >= 1.0
  {
    var d := q / noise;
    assert d * noise == q;
    if d < 0.0 {
      NegativeTimes(d, noise);
    }
  }

  lemma NegativeTimes(d: real, t: real)
    requires d < 0.0 && t > 0.0
    ensures d * t < 0.0
  {
  }

  /** Two steps taken from a posterior may be exchanged. */
  lemma StepsCommute(s: Mat, a: Candidate, c: Candidate)
    requires IsPsd(s, |s|) && ValidCandidate(a, |s|) && ValidCandidate(c, |s|)
    ensures Sense(Sense(s, a), c) == Sense(Sense(s, c), a)
    ensures Mul(StepFactor(s, a), StepFactor(Sense(s, a), c)) == Mul(StepFactor(s, c), StepFactor(Sense(s, c), a))
  {
    Assimilation.SenseCommutes(s, a, c);
    GainsCommute(s, a.sensing, a.noise, c.sensing, c.noise);
    TwoFactors(s, a, c);
    TwoFactors(s, c, a);
  }

  lemma TwoFactors(s: Mat, a: Candidate, c: Candidate)
    requires IsPsd(s, |s|) && ValidCandidate(a, |s|) && ValidCandidate(c, |s|)
    ensures a.noise + Predictive(s, a.sensing) > 0.0
    ensures StepFactor(s, a) == Factor(s, a.sensing, a.noise)
    ensures StepFactor(Sense(s, a), c) == Factor(Posterior(s, a.sensing, a.noise), c.sensing, c.noise)
  {
    StepFactorIs(s, a);
    SenseIs(s, a);
    SensePsd(s, a);
    StepFactorIs(Sense(s, a), c);
  }

  lemma OneMore(s: Mat, cs: seq<Candidate>, c: Candidate)
    ensures After(s, cs + [c]) == Sense(After(s, cs), c)
    ensures Factors(s, cs + [c]) == Mul(Factors(s, cs), StepFactor(After(s, cs), c))
  {
    AfterOne(s, cs, c);
    assert (cs + [c])[..|cs|] == cs;
  }

  lemma MulAssociates(x: real, y: real, z: real)
    ensures Mul(Mul(x, y), z) == Mul(x, Mul(y, z))
  {
  }

  /** The last two candidates may be exchanged. */
  lemma SwapLast(s: Mat, cs: seq<Candidate>, a: Candidate, c: Candidate)
    requires IsPsd(s, |s|) && AllValid(cs, |s|) && ValidCandidate(a, |s|) && ValidCandidate(c, |s|)
    ensures SameOutcome(s, cs + [a] + [c], cs + [c] + [a])
  {
    var t := After(s, cs);
    AfterPsd(s, cs);
    StepsCommute(t, a, c);
    OneMore(s, cs, a);
    OneMore(s, cs, c);
    OneMore(s, cs + [a], c);
    OneMore(s, cs + [c], a);
    MulAssociates(Factors(s, cs), StepFactor(t, a), StepFactor(Sense(t, a), c));
    MulAssociates(Factors(s, cs), StepFactor(t, c), StepFactor(Sense(t, c), a));
  }

  /** The candidates without the one at position `i`. */
  function Without(cs: seq<Candidate>, i: nat): seq<Candidate>
    requires i < |cs|
  {
    cs[..i] + cs[i+1..]
  }

  lemma WithoutInit(cs: seq<Candidate>, i: nat)
    requires i < |cs| - 1
    ensures Without(cs[..|cs|-1], i) + [cs[|cs|-1]] == Without(cs, i)
  {
  }

  lemma ValidWithout(cs: seq<Candidate>, i: nat, n: nat)
    requires AllValid(cs, n) && i < |cs|
    ensures AllValid(Without(cs, i), n) && AllValid(cs[..|cs|-1], n)
    ensures ValidCandidate(cs[i], n) && ValidCandidate(cs[|cs|-1], n)
  {
    assert forall c | c in Without(cs, i) :: c in cs;
    assert cs[i] in cs && cs[|cs|-1] in cs;
  }

  lemma SameExtended(s: Mat, cs: seq<Candidate>, ds: seq<Candidate>, c: Candidate)
    requires SameOutcome(s, cs, ds)
    ensures SameOutcome(s, cs + [c], ds + [c])
  {
    OneMore(s, cs, c);
    OneMore(s, ds, c);
  }

  /** Any candidate may be sensed last instead. */
  lemma {:induction false} MoveLast(s: Mat, cs: seq<Candidate>, i: nat)
    requires IsPsd(s, |s|) && AllValid(cs, |s|) && i < |cs|
    ensures SameOutcome(s, cs, Without(cs, i) + [cs[i]])
  {
    var init, z := cs[..|cs|-1], cs[|cs|-1];
    assert cs == init + [z];
    if i < |init| {
      ValidWithout(cs, i, |s|);
      ValidWithout(init, i, |s|);
      MoveLast(s, init, i);
      SameExtended(s, init, Without(init, i) + [cs[i]], z);
      SwapLast(s, Without(init, i), cs[i], z);
      WithoutInit(cs, i);
    } else {
      assert Without(cs, i) == init;
    }
  }

  /** However a set of apertures is ordered, the same covariance and the same total factor come out. */
  lemma {:induction false} OrderFree(s: Mat, cs: seq<Candidate>, ds: seq<Candidate>)
    requires IsPsd(s, |s|) && AllValid(cs, |s|) && multiset(cs) == multiset(ds)
    ensures SameOutcome(s, cs, ds)
  {
    if ds == [] {
      assert cs == [];
    } else {
      var init, z := ds[..|ds|-1], ds[|ds|-1];
      assert ds == init + [z];
      assert z in multiset(cs);
      var i :| 0 <= i < |cs| && cs[i] == z;
      MoveOne(cs, i);
      assert multiset(cs) == multiset(Without(cs, i)) + multiset{z};
      assert multiset(ds) == multiset(init) + multiset{z};
      assert multiset(Without(cs, i)) == multiset(cs) - multiset{z};
      assert multiset(init) == multiset(ds) - multiset{z};
      ValidWithout(cs, i, |s|);
      OrderFree(s, Without(cs, i), init);
      SameExtended(s, Without(cs, i), init, z);
      MoveLast(s, cs, i);
    }
  }

  // ----- what a plan has learned depends on the set it chose

  /** A logarithm turns products into sums. */
  ghost predicate Logarithm(ln: real -> real) {
    forall x, y {:trigger ln(Mul(x, y))} | x > 0.0 && y > 0.0 :: ln(Mul(x, y)) == ln(x) + ln(y)
  }

  lemma LogOfOne(ln: real -> real)
    requires Logarithm(ln)
    ensures ln(1.0) == 0.0
  {
    assert Mul(1.0, 1.0) == 1.0;
    assert ln(Mul(1.0, 1.0)) == ln(1.0) + ln(1.0);
  }

  lemma AtLeastOne(x: real, y: real)
    requires x >= 1.0 && y >= 1.0
    ensures Mul(x, y) >= 1.0
  {
    assert (x - 1.0) * y >= 0.0;
  }

  /** Step `k` gained half the logarithm of its factor. */
  ghost predicate GainAt(ln: real -> real, s: Mat, chosen: seq<Candidate>, steps: seq<Step>, k: nat) {
    && k < |steps| && k < |chosen| && StepFactor(After(s, chosen[..k]), chosen[k]) >= 1.0
    && steps[k].gain == 0.5 * ln(StepFactor(After(s, chosen[..k]), chosen[k]))
  }

  lemma StepGain(ln: real -> real, q: Request, chosen: seq<Candidate>, steps: seq<Step>, k: nat)
    requires ProperRequest(q) && |steps| == |chosen| && k < |chosen| && StepAt(ln, q, chosen, steps, k)
    requires AllValid(chosen, |q.covariance|)
    ensures GainAt(ln, q.covariance, chosen, steps, k)
  {
    var s := q.covariance;
    assert forall c | c in chosen[..k] :: c in chosen;
    AfterPsd(s, chosen[..k]);
    StepFactorIs(After(s, chosen[..k]), chosen[k]);
  }

  lemma NextFactor(s: Mat, chosen: seq<Candidate>, k: nat)
    requires k < |chosen|
    ensures Factors(s, chosen[..k+1]) == Mul(Factors(s, chosen[..k]), StepFactor(After(s, chosen[..k]), chosen[k]))
  {
    assert chosen[..k+1] == chosen[..k] + [chosen[k]];
    OneMore(s, chosen[..k], chosen[k]);
  }

  lemma LogTimes(ln: real -> real, f: real, g: real, r: real)
    requires Logarithm(ln) && f >= 1.0 && g >= 1.0 && r == Mul(f, g)
    ensures r >= 1.0 && 0.5 * ln(r) == 0.5 * ln(f) + 0.5 * ln(g)
  {
    AtLeastOne(f, g);
    assert ln(Mul(f, g)) == ln(f) + ln(g);
  }

  /** The gains of the first `k` steps add up to half the logarithm of the product of their factors. */
  lemma {:induction false} GainsAreLog(ln: real -> real, s: Mat, chosen: seq<Candidate>, steps: seq<Step>, k: nat)
    requires Logarithm(ln) && k <= |steps| == |chosen|
    requires forall i: nat {:trigger GainAt(ln, s, chosen, steps, i)} | i < k :: GainAt(ln, s, chosen, steps, i)
    ensures Factors(s, chosen[..k]) >= 1.0 && GainSum(steps, k) == 0.5 * ln(Factors(s, chosen[..k]))
  {
    if k == 0 {
      LogOfOne(ln);
    } else {
      GainsAreLog(ln, s, chosen, steps, k - 1);
      NextFactor(s, chosen, k - 1);
      assert GainAt(ln, s, chosen, steps, k - 1);
      LogTimes(ln, Factors(s, chosen[..k-1]), StepFactor(After(s, chosen[..k-1]), chosen[k-1]),
        Factors(s, chosen[..k]));
    }
  }

  /** Plans that chose the same apertures, in whatever order and under whatever weights, report the same totals. */
  lemma PlansAgree(ln: real -> real, q: Request, q': Request, chosen: seq<Candidate>, chosen': seq<Candidate>,
      rest: seq<Candidate>, rest': seq<Candidate>, p: Plan, p': Plan)
    requires Logarithm(ln) && Planned(ln, q, chosen, rest, p) && Planned(ln, q', chosen', rest', p')
    requires q.covariance == q'.covariance && multiset(chosen) == multiset(chosen')
    ensures p.covariance == p'.covariance && p.finalTrace == p'.finalTrace
    ensures p.totalReduction == p'.totalReduction && p.totalGain == p'.totalGain
  {
    PlanLearns(ln, q, chosen, rest, p);
    PlanLearns(ln, q', chosen', rest', p');
    OrderFree(q.covariance, chosen, chosen');
  }

  /** What a plan reports, from the apertures it chose. */
  lemma PlanLearns(ln: real -> real, q: Request, chosen: seq<Candidate>, rest: seq<Candidate>, p: Plan)
    requires Logarithm(ln) && Planned(ln, q, chosen, rest, p)
    ensures AllValid(chosen, |q.covariance|)
    ensures p.covariance == After(q.covariance, chosen)
    ensures p.finalTrace == Trace(p.covariance, |q.covariance|)
    ensures p.totalReduction == Trace(q.covariance, |q.covariance|) - p.finalTrace
    ensures p.totalGain == 0.5 * ln(Factors(q.covariance, chosen))
  {
    ChosenValid(ln, q, chosen, rest, p);
    TotalsAdd(ln, q, chosen, rest, p);
    forall i: nat | i < |chosen|
      ensures GainAt(ln, q.covariance, chosen, p.steps, i)
    {
      ChosenAt(ln, q, chosen, rest, p, i);
      StepGain(ln, q, chosen, p.steps, i);
    }
    GainsAreLog(ln, q.covariance, chosen, p.steps, |chosen|);
    assert chosen[..|chosen|] == chosen;
  }
}
