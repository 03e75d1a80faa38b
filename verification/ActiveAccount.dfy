/** How cost and risk enter a plan: its objectives add up to what was learned less what it cost, and the dearer of two
    equal apertures never goes first. */
module ActiveAccount {
  import opened Prelude
  import opened Vectors
  import opened PosteriorUpdate
  import opened ActiveStep
  import opened ActivePlan
  import opened ActiveLaws
  import opened OrderIndependence
  import Text

  function ObjectiveSum(steps: seq<Step>, k: nat): real
    requires k <= |steps|
  {
    if k == 0 then 0.0 else ObjectiveSum(steps, k - 1) + steps[k-1].objective
  }

  function CostSum(cs: seq<Candidate>, k: nat): real
    requires k <= |cs|
  {
    if k == 0 then 0.0 else CostSum(cs, k - 1) + cs[k-1].cost
  }

  function RiskSum(cs: seq<Candidate>, k: nat): real
    requires k <= |cs|
  {
    if k == 0 then 0.0 else RiskSum(cs, k - 1) + cs[k-1].risk
  }

  /** What taking `c` counts against it. */
  function Burden(w: Weights, c: Candidate): real {
    Mul(w.cost, c.cost) + Mul(w.risk, c.risk)
  }

  /** Step `k` is worth what it gained less the burden of its candidate. */
  ghost predicate WorthAt(w: Weights, chosen: seq<Candidate>, steps: seq<Step>, k: nat) {
    k < |steps| && k < |chosen| && steps[k].objective == steps[k].gain - Burden(w, chosen[k])
  }

  lemma StepWorth(ln: real -> real, q: Request, chosen: seq<Candidate>, steps: seq<Step>, k: nat)
    requires StepAt(ln, q, chosen, steps, k)
    ensures WorthAt(q.weights, chosen, steps, k)
  {
  }

  lemma {:induction false} WorthAdds(w: Weights, chosen: seq<Candidate>, steps: seq<Step>, k: nat)
    requires k <= |steps| == |chosen|
    requires forall i: nat {:trigger WorthAt(w, chosen, steps, i)} | i < k :: WorthAt(w, chosen, steps, i)
    ensures ObjectiveSum(steps, k)
         == GainSum(steps, k) - Mul(w.cost, CostSum(chosen, k)) - Mul(w.risk, RiskSum(chosen, k))
  {
    if k > 0 {
      WorthAdds(w, chosen, steps, k - 1);
      assert WorthAt(w, chosen, steps, k - 1);
      MulAdds(w.cost, CostSum(chosen, k - 1), chosen[k-1].cost);
      MulAdds(w.risk, RiskSum(chosen, k - 1), chosen[k-1].risk);
    }
  }

  lemma MulAdds(w: real, x: real, y: real)
    ensures Mul(w, x + y) == Mul(w, x) + Mul(w, y)
  {
  }

  /** Over every plan the objectives add up to the total gain less the weighted total cost and risk. */
  lemma ObjectivesAccount(ln: real -> real, q: Request, chosen: seq<Candidate>, rest: seq<Candidate>, p: Plan)
    requires Planned(ln, q, chosen, rest, p)
    ensures |p.steps| == |chosen|
    ensures ObjectiveSum(p.steps, |p.steps|)
         == p.totalGain - Mul(q.weights.cost, CostSum(chosen, |chosen|))
          - Mul(q.weights.risk, RiskSum(chosen, |chosen|))
  {
    ChosenValid(ln, q, chosen, rest, p);
    TotalsAdd(ln, q, chosen, rest, p);
    forall i: nat | i < |chosen|
      ensures WorthAt(q.weights, chosen, p.steps, i)
    {
      ChosenAt(ln, q, chosen, rest, p, i);
      StepWorth(ln, q, chosen, p.steps, i);
    }
    WorthAdds(q.weights, chosen, p.steps, |chosen|);
  }

  // ----- equal apertures

  /** The two would teach the same. */
  predicate SameAperture(c: Candidate, d: Candidate) {
    c.sensing == d.sensing && c.noise == d.noise
  }

  lemma SameGain(ln: real -> real, w: Weights, s: Mat, c: Candidate, d: Candidate)
    requires Fits(s, c) && Fits(s, d) && SameAperture(c, d)
    ensures Objective(ln, w, s, c) - Objective(ln, w, s, d) == Burden(w, d) - Burden(w, c)
  {
  }

  /** Of two equal apertures the one with the larger burden is never taken while the other is unused. */
  lemma DearerWaits(ln: real -> real, q: Request, chosen: seq<Candidate>, rest: seq<Candidate>, p: Plan, i: nat,
                    c: Candidate)
    requires Planned(ln, q, chosen, rest, p) && i < |chosen| && c in q.pool
    requires SameAperture(c, chosen[i]) && Burden(q.weights, c) < Burden(q.weights, chosen[i])
    ensures c in chosen[..i]
  {
    if c !in chosen[..i] {
      var s := After(q.covariance, chosen[..i]);
      ChosenValid(ln, q, chosen, rest, p);
      ChosenAt(ln, q, chosen, rest, p, i);
      PoolMember(q.pool, c, |q.covariance|);
      GreedyAt(ln, q, chosen, p.steps, i, c);
      ObjectiveAt(ln, q, chosen, p.steps, i);
      SameGain(ln, q.weights, s, c, chosen[i]);
    }
  }

  lemma UnusedBeaten(ln: real -> real, q: Request, chosen: seq<Candidate>, steps: seq<Step>, i: nat, d: Candidate)
    requires StepAt(ln, q, chosen, steps, i) && d in q.pool && d !in chosen[..i]
    ensures DoesNotBeat(ln, q, chosen[..i], d, chosen[i])
  {
  }

  /** Of two that are equal in aperture and in burden the one with the earlier id is taken first. */
  lemma TwinsById(ln: real -> real, q: Request, chosen: seq<Candidate>, rest: seq<Candidate>, p: Plan, i: nat,
                  c: Candidate)
    requires Planned(ln, q, chosen, rest, p) && i < |chosen| && c in q.pool && c !in chosen[..i]
    requires SameAperture(c, chosen[i]) && Burden(q.weights, c) == Burden(q.weights, chosen[i])
    ensures Text.Le(chosen[i].id, c.id)
  {
    ChosenAt(ln, q, chosen, rest, p, i);
    UnusedBeaten(ln, q, chosen, p.steps, i, c);
    SameGain(ln, q.weights, After(q.covariance, chosen[..i]), c, chosen[i]);
  }

  /** When neither cost nor risk counts, every step takes an aperture of the largest signal-to-noise ratio. */
  lemma FreeChoosesClearest(ln: real -> real, q: Request, chosen: seq<Candidate>, rest: seq<Candidate>, p: Plan, i: nat,
                            c: Candidate)
    requires Planned(ln, q, chosen, rest, p) && q.weights.cost == q.weights.risk == 0.0
    requires i < |chosen| && c in q.pool && c !in chosen[..i]
    ensures StepFactor(After(q.covariance, chosen[..i]), c) <= StepFactor(After(q.covariance, chosen[..i]), chosen[i])
  {
    var s := After(q.covariance, chosen[..i]);
    ChosenAt(ln, q, chosen, rest, p, i);
    UnusedBeaten(ln, q, chosen, p.steps, i, c);
    GainOrders(ln, q.weights, s, c, chosen[i]);
  }

  lemma GainOrders(ln: real -> real, w: Weights, s: Mat, c: Candidate, d: Candidate)
    requires Increasing(ln) && Fits(s, c) && Fits(s, d) && w.cost == w.risk == 0.0
    requires Objective(ln, w, s, c) <= Objective(ln, w, s, d)
    ensures StepFactor(s, c) <= StepFactor(s, d)
  {
    SnrNonneg(s, c);
    SnrNonneg(s, d);
    assert ln(1.0 + Snr(s, c)) <= ln(1.0 + Snr(s, d));
  }

  lemma SnrNonneg(s: Mat, c: Candidate)
    requires Fits(s, c)
    ensures Snr(s, c) >= 0.0
  {
    ShareNonneg(Max(Predictive(s, c.sensing), 0.0), c.noise);
  }

  lemma ShareNonneg(x: real, d: real)
    requires x >= 0.0 && d > 0.0
    ensures x / d >= 0.0
  {
  }

  /** A plan that may stop takes no step that is not worth its burden. */
  lemma StepsWorthTaking(ln: real -> real, q: Request, chosen: seq<Candidate>, rest: seq<Candidate>, p: Plan, i: nat)
    requires Planned(ln, q, chosen, rest, p) && q.stop && i < |chosen|
    ensures |p.steps| == |chosen| && p.steps[i].gain > Burden(q.weights, chosen[i])
  {
    ChosenAt(ln, q, chosen, rest, p, i);
    StepWorth(ln, q, chosen, p.steps, i);
  }
}
