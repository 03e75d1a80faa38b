/** What holds over every greedy plan, whatever the candidates. */
module ActiveLaws {
  import opened Prelude
  import opened Vectors
  import opened PosteriorUpdate
  import opened ActiveStep
  import opened ActivePlan

  /** A request that passes the entry checks. */
  ghost predicate ProperRequest(q: Request) {
    IsPsd(q.covariance, |q.covariance|) && ValidPool(q.pool, |q.covariance|)
  }

  /** A finished plan for a proper request. */
  ghost predicate Planned(ln: real -> real, q: Request, chosen: seq<Candidate>, rest: seq<Candidate>, p: Plan) {
    ProperRequest(q) && Increasing(ln) && IsPlan(ln, q, chosen, rest, p)
  }

  lemma ChosenAt(ln: real -> real, q: Request, chosen: seq<Candidate>, rest: seq<Candidate>, p: Plan, i: nat)
    requires IsPlan(ln, q, chosen, rest, p) && i < |chosen|
    ensures |p.steps| == |chosen| && StepAt(ln, q, chosen, p.steps, i)
  {
  }

  lemma ChosenValid(ln: real -> real, q: Request, chosen: seq<Candidate>, rest: seq<Candidate>, p: Plan)
    requires ProperRequest(q) && IsPlan(ln, q, chosen, rest, p)
    ensures AllValid(chosen, |q.covariance|) && |p.steps| == |chosen|
  {
    forall c | c in chosen
      ensures ValidCandidate(c, |q.covariance|)
    {
      assert c in multiset(chosen);
      assert c in multiset(q.pool);
      PoolMember(q.pool, c, |q.covariance|);
    }
  }

  lemma PrefixValid(chosen: seq<Candidate>, i: nat, j: nat, n: nat)
    requires AllValid(chosen, n) && i <= j <= |chosen|
    ensures AllValid(chosen[..i], n) && AllValid(chosen[i..j], n)
    ensures chosen[..j] == chosen[..i] + chosen[i..j]
  {
  }

  /** At step i nothing unused had a higher objective than the one recorded. */
  lemma GreedyAt(ln: real -> real, q: Request, chosen: seq<Candidate>, steps: seq<Step>, i: nat, d: Candidate)
    requires StepAt(ln, q, chosen, steps, i) && d in q.pool && d !in chosen[..i]
    requires Rows(q.covariance, |q.covariance|, |q.covariance|) && ValidCandidate(d, |q.covariance|)
    ensures Value(ln, q.weights, q.covariance, chosen[..i], d) <= steps[i].objective
  {
    assert DoesNotBeat(ln, q, chosen[..i], d, chosen[i]);
  }

  lemma ObjectiveAt(ln: real -> real, q: Request, chosen: seq<Candidate>, steps: seq<Step>, j: nat)
    requires StepAt(ln, q, chosen, steps, j)
    requires Rows(q.covariance, |q.covariance|, |q.covariance|) && ValidCandidate(chosen[j], |q.covariance|)
    ensures steps[j].objective == Value(ln, q.weights, q.covariance, chosen[..j], chosen[j])
    ensures chosen[j] in q.pool && chosen[j] !in chosen[..j] && steps[j].id == chosen[j].id
  {
  }

  lemma ValueFalls(ln: real -> real, q: Request, chosen: seq<Candidate>, i: nat, j: nat, d: Candidate)
    requires Increasing(ln) && ProperRequest(q) && AllValid(chosen, |q.covariance|) && ValidCandidate(d, |q.covariance|)
    requires i <= j <= |chosen|
    ensures Value(ln, q.weights, q.covariance, chosen[..j], d) <= Value(ln, q.weights, q.covariance, chosen[..i], d)
  {
    PrefixValid(chosen, i, j, |q.covariance|);
    LaterIsLower(ln, q.weights, q.covariance, chosen[..i], chosen[i..j], d);
  }

  lemma UnusedEarlier(chosen: seq<Candidate>, i: nat, j: nat)
    requires i <= j < |chosen| && chosen[j] !in chosen[..j]
    ensures chosen[j] !in chosen[..i]
    ensures i < j ==> chosen[i] != chosen[j]
  {
    assert chosen[..i] == chosen[..j][..i];
    if i < j {
      assert chosen[i] == chosen[..j][i];
    }
  }

  /** Over a whole plan the objectives never increase. */
  lemma ObjectivesNeverIncrease(ln: real -> real, q: Request, chosen: seq<Candidate>, rest: seq<Candidate>, p: Plan,
                                i: nat, j: nat)
    requires Planned(ln, q, chosen, rest, p) && i <= j < |p.steps|
    ensures p.steps[j].objective <= p.steps[i].objective
  {
    ChosenValid(ln, q, chosen, rest, p);
    ChosenAt(ln, q, chosen, rest, p, i);
    ChosenAt(ln, q, chosen, rest, p, j);
    LaterStep(ln, q, chosen, p.steps, i, j);
  }

  lemma LaterStep(ln: real -> real, q: Request, chosen: seq<Candidate>, steps: seq<Step>, i: nat, j: nat)
    requires Increasing(ln) && ProperRequest(q) && AllValid(chosen, |q.covariance|) && i <= j < |chosen|
    requires StepAt(ln, q, chosen, steps, i) && StepAt(ln, q, chosen, steps, j)
    ensures steps[j].objective <= steps[i].objective
  {
    ObjectiveAt(ln, q, chosen, steps, j);
    UnusedEarlier(chosen, i, j);
    GreedyAt(ln, q, chosen, steps, i, chosen[j]);
    ValueFalls(ln, q, chosen, i, j, chosen[j]);
  }

  lemma SameCandidate(pool: seq<Candidate>, c: Candidate, d: Candidate)
    requires DistinctIds(pool) && c in pool && d in pool && c.id == d.id
    ensures c == d
  {
  }

  /** No aperture is planned twice. */
  lemma IdsDistinct(ln: real -> real, q: Request, chosen: seq<Candidate>, rest: seq<Candidate>, p: Plan, i: nat, j: nat)
    requires Planned(ln, q, chosen, rest, p) && i < j < |p.steps|
    ensures p.steps[i].id != p.steps[j].id
  {
    ChosenValid(ln, q, chosen, rest, p);
    ChosenAt(ln, q, chosen, rest, p, i);
    ChosenAt(ln, q, chosen, rest, p, j);
    ObjectiveAt(ln, q, chosen, p.steps, i);
    ObjectiveAt(ln, q, chosen, p.steps, j);
    UnusedEarlier(chosen, i, j);
    if chosen[i].id == chosen[j].id {
      SameCandidate(q.pool, chosen[i], chosen[j]);
    }
  }

  /** Every candidate is either planned or reported as unselected, exactly once. */
  lemma PlanPartitions(ln: real -> real, q: Request, chosen: seq<Candidate>, rest: seq<Candidate>, p: Plan,
      c: Candidate)
    requires Planned(ln, q, chosen, rest, p) && c in q.pool
    ensures multiset(chosen) + multiset(rest) == multiset(q.pool)
    ensures |p.steps| + |p.unselected| == |q.pool|
    ensures (exists i :: 0 <= i < |p.steps| && p.steps[i].id == c.id) <==> c.id !in p.unselected
  {
    assert |multiset(chosen)| + |multiset(rest)| == |multiset(q.pool)|;
    if c in chosen {
      var i: nat :| i < |chosen| && chosen[i] == c;
      ChosenAt(ln, q, chosen, rest, p, i);
      assert p.steps[i].id == c.id;
      NotBoth(q, chosen, rest, c);
    } else {
      LeftoverMember(q.pool, chosen, c);
      NotPlanned(ln, q, chosen, rest, p, c);
    }
  }

  lemma NotBoth(q: Request, chosen: seq<Candidate>, rest: seq<Candidate>, c: Candidate)
    requires DistinctIds(q.pool) && rest == Leftover(q.pool, chosen) && c in chosen && c in q.pool
    ensures c.id !in Ids(rest)
  {
    if c.id in Ids(rest) {
      var k :| 0 <= k < |rest| && Ids(rest)[k] == c.id;
      LeftoverMember(q.pool, chosen, rest[k]);
      SameCandidate(q.pool, rest[k], c);
    }
  }

  lemma NotPlanned(ln: real -> real, q: Request, chosen: seq<Candidate>, rest: seq<Candidate>, p: Plan, c: Candidate)
    requires Planned(ln, q, chosen, rest, p) && c in q.pool && c !in chosen && c in rest
    ensures c.id in p.unselected && forall i | 0 <= i < |p.steps| :: p.steps[i].id != c.id
  {
    var k :| 0 <= k < |rest| && rest[k] == c;
    assert Ids(rest)[k] == c.id;
    forall i: nat | i < |p.steps|
      ensures p.steps[i].id != c.id
    {
      ChosenAt(ln, q, chosen, rest, p, i);
      if chosen[i].id == c.id {
        SameCandidate(q.pool, chosen[i], c);
      }
    }
  }

  /** Stopping is final: no leftover has a positive objective, whatever valid apertures are sensed afterwards. */
  lemma StopIsFinal(ln: real -> real, q: Request, chosen: seq<Candidate>, rest: seq<Candidate>, p: Plan,
                    more: seq<Candidate>, c: Candidate)
    requires Planned(ln, q, chosen, rest, p) && p.stopped
    requires AllValid(more, |q.covariance|) && c in rest
    ensures Rows(q.covariance, |q.covariance|, |q.covariance|) && ValidCandidate(c, |q.covariance|)
    ensures Value(ln, q.weights, q.covariance, chosen + more, c) <= 0.0
  {
    ChosenValid(ln, q, chosen, rest, p);
    LeftoverMember(q.pool, chosen, c);
    StillWorthless(ln, q, chosen, c);
    LaterIsLower(ln, q.weights, q.covariance, chosen, more, c);
  }

  lemma StillWorthless(ln: real -> real, q: Request, chosen: seq<Candidate>, c: Candidate)
    requires Exhausted(ln, q, chosen) && c in q.pool && c !in chosen
    requires Rows(q.covariance, |q.covariance|, |q.covariance|) && ValidCandidate(c, |q.covariance|)
    ensures Value(ln, q.weights, q.covariance, chosen, c) <= 0.0
  {
    assert Worthless(ln, q, chosen, c);
  }

  // ----- traces

  function Reductions(steps: seq<Step>, k: nat): real
    requires k <= |steps|
  {
    if k == 0 then 0.0 else Reductions(steps, k - 1) + steps[k-1].reduction
  }

  lemma RecordedDrop(s: Mat, c: Candidate, t: Step, index: nat, top: Score)
    requires IsPsd(s, |s|) && ValidCandidate(c, |s|) && Rows(Sense(s, c), |s|, |s|)
    requires t == Recorded(index, top, s, Sense(s, c))
    ensures t.reduction == TraceDrop(s, c) == t.before - t.after >= 0.0
    ensures t.before == Trace(s, |s|) && t.after == Trace(Sense(s, c), |s|)
  {
    SenseTrace(s, c);
  }

  lemma StepDrop(ln: real -> real, q: Request, prefix: seq<Candidate>, c: Candidate, t: Step)
    requires ProperRequest(q) && AllValid(prefix, |q.covariance|) && ValidCandidate(c, |q.covariance|)
    requires StepOk(ln, q, prefix, c, t)
    ensures t.reduction == TraceDrop(After(q.covariance, prefix), c) == t.before - t.after >= 0.0
    ensures t.before == Trace(After(q.covariance, prefix), |q.covariance|)
    ensures t.after == Trace(After(q.covariance, prefix + [c]), |q.covariance|)
  {
    AfterPsd(q.covariance, prefix);
    AfterOne(q.covariance, prefix, c);
    var s := After(q.covariance, prefix);
    RecordedDrop(s, c, t, |prefix|, ScoreOf(ln, q.weights, s, c));
  }

  lemma StepDropAt(ln: real -> real, q: Request, chosen: seq<Candidate>, steps: seq<Step>, i: nat,
                   prefix: seq<Candidate>, next: seq<Candidate>)
    requires ProperRequest(q) && i < |chosen| == |steps| && prefix == chosen[..i] && next == chosen[..i+1]
    requires AllValid(prefix, |q.covariance|) && ValidCandidate(chosen[i], |q.covariance|)
    requires StepAt(ln, q, chosen, steps, i)
    ensures Fits(After(q.covariance, prefix), chosen[i])
    ensures steps[i].reduction == TraceDrop(After(q.covariance, prefix), chosen[i]) == steps[i].before - steps[i].after
    ensures steps[i].reduction >= 0.0 && steps[i].before == Trace(After(q.covariance, prefix), |q.covariance|)
    ensures steps[i].after == Trace(After(q.covariance, next), |q.covariance|)
  {
    assert next == prefix + [chosen[i]];
    StepDrop(ln, q, prefix, chosen[i], steps[i]);
  }

  /** One step's reduction is the exact drop of the trace. */
  lemma StepReduction(ln: real -> real, q: Request, chosen: seq<Candidate>, rest: seq<Candidate>, p: Plan, i: nat)
    requires Planned(ln, q, chosen, rest, p) && i < |chosen|
    ensures |p.steps| == |chosen| && Rows(q.covariance, |q.covariance|, |q.covariance|)
    ensures Fits(After(q.covariance, chosen[..i]), chosen[i])
    ensures p.steps[i].reduction == TraceDrop(After(q.covariance, chosen[..i]), chosen[i]) >= 0.0
    ensures p.steps[i].before == Trace(After(q.covariance, chosen[..i]), |q.covariance|)
    ensures p.steps[i].after == Trace(After(q.covariance, chosen[..i+1]), |q.covariance|)
    ensures p.steps[i].reduction == p.steps[i].before - p.steps[i].after
  {
    ChosenValid(ln, q, chosen, rest, p);
    ChosenAt(ln, q, chosen, rest, p, i);
    PrefixValid(chosen, i, i, |q.covariance|);
    StepDropAt(ln, q, chosen, p.steps, i, chosen[..i], chosen[..i+1]);
  }

  /** The reductions of the first `k` steps telescope. */
  lemma {:induction false} ReductionsTelescope(ln: real -> real, q: Request, chosen: seq<Candidate>,
      rest: seq<Candidate>, p: Plan, k: nat)
    requires Planned(ln, q, chosen, rest, p) && k <= |chosen|
    ensures |p.steps| == |chosen| && Rows(q.covariance, |q.covariance|, |q.covariance|)
    ensures Reductions(p.steps, k) == p.initialTrace - Trace(After(q.covariance, chosen[..k]), |q.covariance|) >= 0.0
  {
    if k > 0 {
      ReductionsTelescope(ln, q, chosen, rest, p, k - 1);
      StepReduction(ln, q, chosen, rest, p, k - 1);
    }
  }

  /** The reported totals are the sums over the steps. */
  lemma TotalsAdd(ln: real -> real, q: Request, chosen: seq<Candidate>, rest: seq<Candidate>, p: Plan)
    requires Planned(ln, q, chosen, rest, p)
    ensures p.totalReduction == Reductions(p.steps, |p.steps|) == p.initialTrace - p.finalTrace >= 0.0
    ensures p.totalGain == GainSum(p.steps, |p.steps|)
  {
    ReductionsTelescope(ln, q, chosen, rest, p, |chosen|);
    assert chosen[..|chosen|] == chosen;
  }
}
