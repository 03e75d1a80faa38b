/** `plan_active_apertures`: choose greedily, update, repeat; and what holds over a whole plan. */
module ActivePlan {
  import opened Prelude
  import opened Vectors
  import opened PosteriorUpdate
  import opened ActiveStep

  datatype Step = Step(index: nat, id: string, gain: real, objective: real, before: real, after: real, reduction: real)

  datatype Plan = Plan(initialTrace: real, finalTrace: real, totalReduction: real, totalGain: real,
                       steps: seq<Step>, unselected: seq<string>, stopped: bool, covariance: Mat)

  /** What the caller asks for. */
  datatype Request = Request(pool: seq<Candidate>, covariance: Mat, weights: Weights, maxSteps: nat, stop: bool)

  /** The covariance after sensing along every candidate in turn. */
  ghost function After(s: Mat, cs: seq<Candidate>): (r: Mat)
    ensures |r| == |s| && (Rows(s, |s|, |s|) ==> Rows(r, |s|, |s|))
  {
    if cs == [] then s else Sense(After(s, cs[..|cs|-1]), cs[|cs|-1])
  }

  predicate AllValid(cs: seq<Candidate>, n: nat) {
    forall c | c in cs :: ValidCandidate(c, n)
  }

  lemma {:induction false} AfterPsd(s: Mat, cs: seq<Candidate>)
    requires IsPsd(s, |s|) && AllValid(cs, |s|)
    ensures IsPsd(After(s, cs), |s|)
  {
    if cs != [] {
      AfterPsd(s, cs[..|cs|-1]);
      SensePsd(After(s, cs[..|cs|-1]), cs[|cs|-1]);
    }
  }

  lemma AfterOne(s: Mat, cs: seq<Candidate>, c: Candidate)
    ensures After(s, cs + [c]) == Sense(After(s, cs), c)
  {
    assert (cs + [c])[..|cs|] == cs;
  }

  /** The objective of `d` after everything in `cs`. */
  ghost function Value(ln: real -> real, w: Weights, s: Mat, cs: seq<Candidate>, d: Candidate): real
    requires Rows(s, |s|, |s|) && ValidCandidate(d, |s|)
  {
    Objective(ln, w, After(s, cs), d)
  }

  lemma OneLater(ln: real -> real, w: Weights, s: Mat, cs: seq<Candidate>, c: Candidate, all: seq<Candidate>,
      d: Candidate)
    requires Increasing(ln) && IsPsd(s, |s|) && AllValid(cs, |s|) && ValidCandidate(c, |s|) && ValidCandidate(d, |s|)
    requires all == cs + [c]
    ensures Value(ln, w, s, all, d) <= Value(ln, w, s, cs, d)
  {
    AfterPsd(s, cs);
    AfterOne(s, cs, c);
    ObjectiveShrinks(ln, w, After(s, cs), c, d);
  }

  lemma AllValidParts(cs: seq<Candidate>, init: seq<Candidate>, c: Candidate, more: seq<Candidate>, n: nat)
    requires AllValid(cs, n) && AllValid(more, n) && more == init + [c]
    ensures AllValid(init, n) && AllValid(cs + init, n) && ValidCandidate(c, n)
    ensures cs + more == (cs + init) + [c]
  {
    assert forall x | x in init :: x in more;
    assert c in more;
  }

  /** Whatever else is sensed, no objective rises. */
  lemma {:induction false} LaterIsLower(ln: real -> real, w: Weights, s: Mat, cs: seq<Candidate>, more: seq<Candidate>,
                                        d: Candidate)
    requires Increasing(ln) && IsPsd(s, |s|) && AllValid(cs, |s|) && AllValid(more, |s|) && ValidCandidate(d, |s|)
    ensures Value(ln, w, s, cs + more, d) <= Value(ln, w, s, cs, d)
  {
    if more == [] {
      assert cs + more == cs;
    } else {
      var init, c := more[..|more|-1], more[|more|-1];
      AllValidParts(cs, init, c, more, |s|);
      LaterIsLower(ln, w, s, cs, init, d);
      OneLater(ln, w, s, cs + init, c, cs + more, d);
    }
  }

  // ----- the candidates that are left

  function Leftover(pool: seq<Candidate>, chosen: seq<Candidate>): seq<Candidate> {
    if pool == [] then [] else (if pool[0] in chosen then [] else [pool[0]]) + Leftover(pool[1..], chosen)
  }

  lemma {:induction false} LeftoverMember(pool: seq<Candidate>, chosen: seq<Candidate>, c: Candidate)
    ensures c in Leftover(pool, chosen) <==> c in pool && c !in chosen
  {
    if pool != [] {
      LeftoverMember(pool[1..], chosen, c);
      assert pool == [pool[0]] + pool[1..];
    }
  }

  lemma {:induction false} LeftoverAbsent(pool: seq<Candidate>, chosen: seq<Candidate>, b: Candidate)
    requires b !in pool
    ensures Leftover(pool, chosen + [b]) == Leftover(pool, chosen)
  {
    if pool != [] {
      LeftoverAbsent(pool[1..], chosen, b);
    }
  }

  lemma TailDistinct(pool: seq<Candidate>)
    requires DistinctIds(pool) && pool != []
    ensures DistinctIds(pool[1..]) && pool[0] !in pool[1..]
  {
  }

  /** Dropping a later element of a list with a fixed head. */
  lemma DropLater(head: Candidate, tail: seq<Candidate>, rest: seq<Candidate>, k: nat)
    requires rest == [head] + tail && 0 < k < |rest|
    ensures rest[k] == tail[k-1] && rest[..k] + rest[k+1..] == [head] + (tail[..k-1] + tail[k..])
  {
  }

  lemma DropHead(head: Candidate, tail: seq<Candidate>, rest: seq<Candidate>)
    requires rest == [head] + tail
    ensures rest[0] == head && rest[..0] + rest[1..] == tail
  {
  }

  lemma LeftoverHead(pool: seq<Candidate>, chosen: seq<Candidate>)
    requires pool != []
    ensures Leftover(pool, chosen)
         == if pool[0] in chosen then Leftover(pool[1..], chosen) else [pool[0]] + Leftover(pool[1..], chosen)
  {
  }

  lemma {:induction false} LeftoverRemove(pool: seq<Candidate>, chosen: seq<Candidate>, rest: seq<Candidate>, k: nat)
    requires DistinctIds(pool) && rest == Leftover(pool, chosen) && k < |rest|
    ensures Leftover(pool, chosen + [rest[k]]) == rest[..k] + rest[k+1..]
  {
    var b, tail := rest[k], Leftover(pool[1..], chosen);
    TailDistinct(pool);
    LeftoverHead(pool, chosen);
    LeftoverHead(pool, chosen + [b]);
    if pool[0] in chosen {
      LeftoverRemove(pool[1..], chosen, tail, k);
    } else if k == 0 {
      DropHead(pool[0], tail, rest);
      LeftoverAbsent(pool[1..], chosen, b);
    } else {
      DropLater(pool[0], tail, rest, k);
      LeftoverMember(pool[1..], chosen, b);
      LeftoverRemove(pool[1..], chosen, tail, k - 1);
    }
  }

  lemma MoveOne(rest: seq<Candidate>, k: nat)
    requires k < |rest|
    ensures multiset(rest) == multiset(rest[..k] + rest[k+1..]) + multiset{rest[k]}
  {
    assert rest == rest[..k] + [rest[k]] + rest[k+1..];
  }

  /** Where the chosen name sits in the list of remaining candidates. */
  method Position(rest: seq<Candidate>, id: string) returns (k: nat)
    ensures k <= |rest| && (forall j | 0 <= j < k :: rest[j].id != id)
    ensures k < |rest| ==> rest[k].id == id
  {
    k := 0;
    while k < |rest| && rest[k].id != id
      invariant k <= |rest| && forall j | 0 <= j < k :: rest[j].id != id
    {
      k := k + 1;
    }
  }

  function Ids(cs: seq<Candidate>): (r: seq<string>)
    ensures |r| == |cs| && forall i | 0 <= i < |cs| :: r[i] == cs[i].id
  {
    seq(|cs|, i requires 0 <= i < |cs| => cs[i].id)
  }

  // ----- one step of a plan

  /** No unused candidate scores better than `c`. */
  ghost predicate Dominates(ln: real -> real, q: Request, prefix: seq<Candidate>, c: Candidate)
  {
    && Fits(After(q.covariance, prefix), c)
    && (forall d | d in q.pool && d !in prefix :: DoesNotBeat(ln, q, prefix, d, c))
  }

  ghost predicate DoesNotBeat(ln: real -> real, q: Request, prefix: seq<Candidate>, d: Candidate, c: Candidate) {
    var s := After(q.covariance, prefix);
    Fits(s, d) && Fits(s, c) && NoBetter(ScoreOf(ln, q.weights, s, d), ScoreOf(ln, q.weights, s, c))
  }

  /** The record of a step from covariance `s` to `t`. */
  function Recorded(index: nat, top: Score, s: Mat, t: Mat): Step
    requires Rows(s, |s|, |s|) && Rows(t, |s|, |s|)
  {
    var before, after := Trace(s, |s|), Trace(t, |s|);
    Step(index, top.id, top.gain, top.objective, before, after, Max(before - after, 0.0))
  }

  /** What is recorded when `c` is sensed after `prefix`. */
  ghost function Record(ln: real -> real, q: Request, prefix: seq<Candidate>, c: Candidate): Step
    requires Fits(After(q.covariance, prefix), c)
  {
    var s := After(q.covariance, prefix);
    Recorded(|prefix|, ScoreOf(ln, q.weights, s, c), s, Sense(s, c))
  }

  /** Sensing `c` after `prefix` is a greedy step, recorded as `t`. */
  ghost predicate StepOk(ln: real -> real, q: Request, prefix: seq<Candidate>, c: Candidate, t: Step) {
    && c in q.pool && c !in prefix && Dominates(ln, q, prefix, c)
    && t == Record(ln, q, prefix, c) && (q.stop ==> t.objective > 0.0)
  }

  ghost predicate StepAt(ln: real -> real, q: Request, chosen: seq<Candidate>, steps: seq<Step>, i: nat) {
    i < |chosen| && i < |steps| && StepOk(ln, q, chosen[..i], chosen[i], steps[i])
  }

  function GainSum(steps: seq<Step>, k: nat): real
    requires k <= |steps|
  {
    if k == 0 then 0.0 else GainSum(steps, k - 1) + steps[k-1].gain
  }

  lemma {:induction false} GainSumPrefix(steps: seq<Step>, t: Step, k: nat)
    requires k <= |steps|
    ensures GainSum(steps + [t], k) == GainSum(steps, k)
  {
    if k > 0 {
      GainSumPrefix(steps, t, k - 1);
    }
  }

  /** The loop's state after the candidates in `chosen` have been sensed. */
  ghost predicate Running(ln: real -> real, q: Request, chosen: seq<Candidate>, rest: seq<Candidate>, steps: seq<Step>,
                          gain: real) {
    && |steps| == |chosen| && rest == Leftover(q.pool, chosen)
    && multiset(chosen) + multiset(rest) == multiset(q.pool)
    && gain == GainSum(steps, |steps|)
    && (forall i: nat | i < |chosen| :: StepAt(ln, q, chosen, steps, i))
  }

  lemma StepsExtend(ln: real -> real, q: Request, chosen: seq<Candidate>, steps: seq<Step>, c: Candidate, t: Step,
      i: nat)
    requires |steps| == |chosen| && i <= |chosen|
    requires if i == |chosen| then StepOk(ln, q, chosen, c, t) else StepAt(ln, q, chosen, steps, i)
    ensures StepAt(ln, q, chosen + [c], steps + [t], i)
  {
    assert (chosen + [c])[..i] == chosen[..i];
    assert chosen[..|chosen|] == chosen;
  }

  lemma Conserved(q: Request, chosen: seq<Candidate>, rest: seq<Candidate>, k: nat)
    requires multiset(chosen) + multiset(rest) == multiset(q.pool) && k < |rest|
    ensures multiset(chosen + [rest[k]]) + multiset(rest[..k] + rest[k+1..]) == multiset(q.pool)
  {
    MoveOne(rest, k);
  }

  lemma RunningStep(ln: real -> real, q: Request, chosen: seq<Candidate>, rest: seq<Candidate>, steps: seq<Step>,
                    gain: real, k: nat, t: Step)
    requires DistinctIds(q.pool) && Running(ln, q, chosen, rest, steps, gain) && k < |rest|
    requires StepOk(ln, q, chosen, rest[k], t)
    ensures Running(ln, q, chosen + [rest[k]], rest[..k] + rest[k+1..], steps + [t], gain + t.gain)
  {
    LeftoverRemove(q.pool, chosen, rest, k);
    Conserved(q, chosen, rest, k);
    GainSumPrefix(steps, t, |steps|);
    AllStepsExtend(ln, q, chosen, steps, rest[k], t);
  }

  lemma AllStepsExtend(ln: real -> real, q: Request, chosen: seq<Candidate>, steps: seq<Step>, c: Candidate, t: Step)
    requires |steps| == |chosen| && StepOk(ln, q, chosen, c, t)
    requires forall i: nat | i < |chosen| :: StepAt(ln, q, chosen, steps, i)
    ensures forall i: nat | i < |chosen + [c]| :: StepAt(ln, q, chosen + [c], steps + [t], i)
  {
    forall i: nat | i < |chosen + [c]|
      ensures StepAt(ln, q, chosen + [c], steps + [t], i)
    {
      StepsExtend(ln, q, chosen, steps, c, t, i);
    }
  }

  /** The winner among the remaining candidates dominates every unused one. */
  lemma WinnerDominates(ln: real -> real, q: Request, chosen: seq<Candidate>, rest: seq<Candidate>, best: nat,
      top: Score)
    requires rest == Leftover(q.pool, chosen) && ValidPool(rest, |q.covariance|)
    requires Rows(After(q.covariance, chosen), |q.covariance|, |q.covariance|)
    requires Leads(Scores(ln, q.weights, After(q.covariance, chosen), rest), |rest|, top, best)
    ensures Dominates(ln, q, chosen, rest[best])
    ensures top == ScoreOf(ln, q.weights, After(q.covariance, chosen), rest[best])
  {
    var s := After(q.covariance, chosen);
    ScoreAt(ln, q.weights, s, rest, best);
    forall d | d in q.pool && d !in chosen
      ensures DoesNotBeat(ln, q, chosen, d, rest[best])
    {
      LeftoverMember(q.pool, chosen, d);
      var i :| 0 <= i < |rest| && rest[i] == d;
      ScoreAt(ln, q.weights, s, rest, i);
    }
  }

  // ----- the whole plan

  /** None of the leftovers has a positive objective after the chosen ones. */
  ghost predicate Exhausted(ln: real -> real, q: Request, chosen: seq<Candidate>) {
    forall c | c in q.pool && c !in chosen :: Worthless(ln, q, chosen, c)
  }

  ghost predicate Worthless(ln: real -> real, q: Request, chosen: seq<Candidate>, c: Candidate) {
    Fits(After(q.covariance, chosen), c) && Objective(ln, q.weights, After(q.covariance, chosen), c) <= 0.0
  }

  /** Why the loop ended. */
  ghost predicate Ended(ln: real -> real, q: Request, chosen: seq<Candidate>, rest: seq<Candidate>, stopped: bool) {
    && |chosen| <= q.maxSteps
    && (stopped ==> q.stop && |chosen| < q.maxSteps && rest != [] && Exhausted(ln, q, chosen))
    && (!stopped ==> |chosen| == q.maxSteps || rest == [])
  }

  ghost predicate Reports(q: Request, chosen: seq<Candidate>, rest: seq<Candidate>, p: Plan) {
    var n, last := |q.covariance|, After(q.covariance, chosen);
    && Rows(q.covariance, n, n) && p.covariance == last
    && p.initialTrace == Trace(q.covariance, n) && p.finalTrace == Trace(last, n)
    && p.totalReduction == Max(p.initialTrace - p.finalTrace, 0.0)
    && p.unselected == Ids(rest)
  }

  /** `p` is the greedy plan that senses `chosen` and leaves `rest`. */
  ghost predicate IsPlan(ln: real -> real, q: Request, chosen: seq<Candidate>, rest: seq<Candidate>, p: Plan) {
    && Running(ln, q, chosen, rest, p.steps, p.totalGain)
    && Ended(ln, q, chosen, rest, p.stopped) && Reports(q, chosen, rest, p)
  }

  /** An accepted covariance and a valid pool. */
  predicate ProperInput(validate: Mat -> bool, q: Request) {
    validate(q.covariance) && ValidPool(q.pool, |q.covariance|)
  }

  predicate Weighs(q: Request) {
    q.weights.cost >= 0.0 && q.weights.risk >= 0.0
  }

  /** Validate the pool before planning. */
  method AdmitAll(pool: seq<Candidate>, n: nat) returns (r: Result<set<string>>)
    ensures r.Ok? <==> ValidPool(pool, n)
  {
    var ids: set<string> := {};
    for i := 0 to |pool|
      invariant Scanned(pool, n, i, ids)
    {
      var admitted := Admit(pool, n, i, ids);
      if admitted.Err? {
        return admitted;
      }
      ids := admitted.value;
    }
    ScanDone(pool, n, ids);
    r := Ok(ids);
  }

  /** A part of a valid pool is valid. */
  lemma {:induction false} RestValid(pool: seq<Candidate>, chosen: seq<Candidate>, n: nat)
    requires ValidPool(pool, n)
    ensures ValidPool(Leftover(pool, chosen), n)
  {
    if pool != [] {
      var r := Leftover(pool[1..], chosen);
      TailDistinct(pool);
      RestValid(pool[1..], chosen, n);
      forall i | 0 <= i < |r|
        ensures r[i].id != pool[0].id
      {
        LeftoverMember(pool[1..], chosen, r[i]);
        var j :| 0 <= j < |pool[1..]| && pool[1..][j] == r[i];
        assert pool[j+1].id != pool[0].id;
      }
    }
  }

  lemma WinnerWorthless(ln: real -> real, q: Request, chosen: seq<Candidate>, c: Candidate)
    requires Dominates(ln, q, chosen, c) && Objective(ln, q.weights, After(q.covariance, chosen), c) <= 0.0
    ensures Exhausted(ln, q, chosen)
  {
    forall d | d in q.pool && d !in chosen
      ensures Worthless(ln, q, chosen, d)
    {
      assert DoesNotBeat(ln, q, chosen, d, c);
    }
  }

  /** What one pass through the loop did. */
  datatype Pass = Halted | Failed(code: string) | Advanced(step: Step, index: nat, covariance: Mat)

  /** Find the chosen candidate by name, update the covariance, and record the step. */
  method SenseChosen(validate: Mat -> bool, s: Mat, rest: seq<Candidate>, index: nat, top: Score, ghost best: nat)
    returns (r: Pass)
    requires Validates(validate) && validate(s) && ValidPool(rest, |s|)
    requires best < |rest| && top.id == rest[best].id
    ensures r.Advanced? && r.index == best && r.covariance == Sense(s, rest[best])
    ensures r.step == Recorded(index, top, s, Sense(s, rest[best]))
  {
    var k := Position(rest, top.id);
    if k == |rest| {
      return Failed("active_selected_candidate_missing");
    }
    var before := Trace(s, |s|);
    var updated := UpdatePosterior(validate, s, rest[k]);
    if updated.Err? {
      return Failed("active_covariance");
    }
    var after := Trace(updated.value, |s|);
    var step := Step(index, top.id, top.gain, top.objective, before, after, Max(before - after, 0.0));
    r := Advanced(step, k, updated.value);
  }

  lemma RecordedStep(ln: real -> real, q: Request, chosen: seq<Candidate>, rest: seq<Candidate>, best: nat,
      top: Score, r: Pass)
    requires rest == Leftover(q.pool, chosen) && best < |rest| && Dominates(ln, q, chosen, rest[best])
    requires top == ScoreOf(ln, q.weights, After(q.covariance, chosen), rest[best])
    requires q.stop ==> top.objective > 0.0
    requires r.Advanced? && r.index == best && r.covariance == Sense(After(q.covariance, chosen), rest[best])
    requires r.step == Recorded(|chosen|, top, After(q.covariance, chosen), r.covariance)
    ensures Moved(ln, q, chosen, rest, r)
  {
    AfterOne(q.covariance, chosen, rest[best]);
    LeftoverMember(q.pool, chosen, rest[best]);
  }

  lemma StaysAccepted(validate: Mat -> bool, q: Request, chosen: seq<Candidate>)
    requires Validates(validate) && ProperInput(validate, q) && AllValid(chosen, |q.covariance|)
    ensures validate(After(q.covariance, chosen))
  {
    AfterPsd(q.covariance, chosen);
  }

  /** The choice is a remaining candidate that no other beats. */
  ghost predicate Picked(ln: real -> real, q: Request, chosen: seq<Candidate>, rest: seq<Candidate>,
      choice: Result<Score>, best: nat) {
    && choice.Ok? && best < |rest| && Dominates(ln, q, chosen, rest[best])
    && choice.value == ScoreOf(ln, q.weights, After(q.covariance, chosen), rest[best])
  }

  /** Choose among the remaining candidates. */
  method Pick(ln: real -> real, validate: Mat -> bool, q: Request, covariance: Mat, rest: seq<Candidate>,
              ghost chosen: seq<Candidate>)
    returns (choice: Result<Score>, ghost best: nat)
    requires Validates(validate) && ProperInput(validate, q) && rest != []
    requires rest == Leftover(q.pool, chosen) && AllValid(chosen, |q.covariance|)
    requires covariance == After(q.covariance, chosen)
    ensures choice.Ok? <==> Weighs(q)
    ensures choice.Ok? <==> Picked(ln, q, chosen, rest, choice, best)
  {
    StaysAccepted(validate, q, chosen);
    RestValid(q.pool, chosen, |q.covariance|);
    choice, best := Choose(ln, validate, rest, covariance, q.weights);
    if choice.Ok? {
      WinnerDominates(ln, q, chosen, rest, best, choice.value);
    }
  }

  /** One greedy step was made. */
  ghost predicate Moved(ln: real -> real, q: Request, chosen: seq<Candidate>, rest: seq<Candidate>, r: Pass) {
    && r.Advanced? && r.index < |rest| && StepOk(ln, q, chosen, rest[r.index], r.step)
    && r.covariance == After(q.covariance, chosen + [rest[r.index]])
  }

  /** Choose the best remaining candidate and, unless it is worthless and the caller stops there, sense it. */
  method Advance(ln: real -> real, validate: Mat -> bool, q: Request, covariance: Mat, rest: seq<Candidate>, index: nat,
                 ghost chosen: seq<Candidate>)
    returns (r: Pass)
    requires Validates(validate) && ProperInput(validate, q) && rest != [] && index == |chosen|
    requires rest == Leftover(q.pool, chosen) && AllValid(chosen, |q.covariance|)
    requires covariance == After(q.covariance, chosen)
    ensures r.Failed? <==> !Weighs(q)
    ensures r.Halted? ==> q.stop && Exhausted(ln, q, chosen)
    ensures r.Advanced? ==> Moved(ln, q, chosen, rest, r)
  {
    var choice, best := Pick(ln, validate, q, covariance, rest, chosen);
    if choice.Err? {
      return Failed(choice.code);
    }
    if q.stop && choice.value.objective <= 0.0 {
      WinnerWorthless(ln, q, chosen, rest[best]);
      return Halted;
    }
    StaysAccepted(validate, q, chosen);
    RestValid(q.pool, chosen, |q.covariance|);
    r := SenseChosen(validate, covariance, rest, index, choice.value, best);
    RecordedStep(ln, q, chosen, rest, best, choice.value, r);
  }

  /** The mutable state of the planning loop. */
  datatype State = State(covariance: Mat, rest: seq<Candidate>, steps: seq<Step>, gain: real)

  /** What every pass through the loop keeps. */
  ghost predicate Underway(ln: real -> real, q: Request, chosen: seq<Candidate>, st: State) {
    && Running(ln, q, chosen, st.rest, st.steps, st.gain) && st.covariance == After(q.covariance, chosen)
    && |st.steps| <= q.maxSteps && (st.steps != [] ==> Weighs(q)) && AllValid(chosen, |q.covariance|)
  }

  function NextState(st: State, k: nat, t: Step, next: Mat): State
    requires k < |st.rest|
  {
    State(next, st.rest[..k] + st.rest[k+1..], st.steps + [t], st.gain + t.gain)
  }

  lemma UnderwayStep(ln: real -> real, q: Request, chosen: seq<Candidate>, st: State, k: nat, t: Step, next: Mat)
    requires ValidPool(q.pool, |q.covariance|) && Weighs(q) && |st.steps| < q.maxSteps && Underway(ln, q, chosen, st)
    requires k < |st.rest| && StepOk(ln, q, chosen, st.rest[k], t) && next == After(q.covariance, chosen + [st.rest[k]])
    ensures Underway(ln, q, chosen + [st.rest[k]], NextState(st, k, t, next))
  {
    RunningStep(ln, q, chosen, st.rest, st.steps, st.gain, k, t);
    PoolMember(q.pool, st.rest[k], |q.covariance|);
  }

  lemma PoolMember(pool: seq<Candidate>, c: Candidate, n: nat)
    requires ValidPool(pool, n) && c in pool
    ensures ValidCandidate(c, n)
  {
  }

  lemma UnderwayFacts(ln: real -> real, q: Request, chosen: seq<Candidate>, st: State)
    requires Underway(ln, q, chosen, st)
    ensures |st.steps| == |chosen| && st.rest == Leftover(q.pool, chosen)
    ensures st.covariance == After(q.covariance, chosen) && AllValid(chosen, |q.covariance|)
  {
  }

  /** How a pass through the loop ended. */
  datatype Outcome = Stop | Fail(code: string) | Go(state: State)

  /** One pass: sense the best remaining candidate, or stop. */
  method PlanPass(ln: real -> real, validate: Mat -> bool, q: Request, st: State, ghost chosen: seq<Candidate>)
    returns (r: Outcome, ghost chosen': seq<Candidate>)
    requires Validates(validate) && ProperInput(validate, q) && st.rest != [] && |st.steps| < q.maxSteps
    requires Underway(ln, q, chosen, st)
    ensures r.Fail? <==> !Weighs(q)
    ensures r.Stop? ==> q.stop && Exhausted(ln, q, chosen)
    ensures r.Go? ==> Underway(ln, q, chosen', r.state) && |r.state.rest| < |st.rest|
  {
    chosen' := chosen;
    UnderwayFacts(ln, q, chosen, st);
    var pass := Advance(ln, validate, q, st.covariance, st.rest, |st.steps|, chosen);
    match pass {
      case Failed(code) =>
        r := Fail(code);
      case Halted =>
        r := Stop;
      case Advanced(step, k, next) =>
        UnderwayStep(ln, q, chosen, st, k, step, next);
        chosen' := chosen + [st.rest[k]];
        r := Go(NextState(st, k, step, next));
    }
  }

  /** The planning loop, from a validated request. */
  method Loop(ln: real -> real, validate: Mat -> bool, q: Request)
    returns (error: Option<string>, st: State, stopped: bool, ghost chosen: seq<Candidate>)
    requires Validates(validate) && ProperInput(validate, q) && q.pool != [] && q.maxSteps > 0
    ensures error.None? <==> Weighs(q)
    ensures error.None? ==> Underway(ln, q, chosen, st) && Ended(ln, q, chosen, st.rest, stopped)
  {
    error, st, stopped, chosen := None, State(q.covariance, q.pool, [], 0.0), false, [];
    LeftoverAll(q.pool);
    while st.rest != [] && |st.steps| < q.maxSteps
      invariant Underway(ln, q, chosen, st)
      decreases |st.rest|
    {
      UnderwayFacts(ln, q, chosen, st);
      var pass; ghost var next;
      pass, next := PlanPass(ln, validate, q, st, chosen);
      match pass {
        case Fail(code) =>
          error := Some(code);
          return;
        case Stop =>
          stopped := true;
          return;
        case Go(after) =>
          st, chosen := after, next;
      }
    }
  }

  method PlanActive(ln: real -> real, validate: Mat -> bool, q: Request)
    returns (r: Result<Plan>, ghost chosen: seq<Candidate>, ghost left: seq<Candidate>)
    requires Validates(validate)
    ensures r.Ok? <==> q.maxSteps > 0 && q.pool != [] && ProperInput(validate, q) && Weighs(q)
    ensures r.Ok? ==> IsPlan(ln, q, chosen, left, r.value)
  {
    chosen, left := [], [];
    if !validate(q.covariance) {
      return Err("active_covariance"), chosen, left;
    }
    if q.maxSteps == 0 {
      return Err("active_plan_zero_steps"), chosen, left;
    }
    var n := |q.covariance|;
    var ids := AdmitAll(q.pool, n);
    if ids.Err? {
      return Err(ids.code), chosen, left;
    }
    if q.pool == [] {
      return Err("active_no_candidates"), chosen, left;
    }
    var error, st, stopped;
    error, st, stopped, chosen := Loop(ln, validate, q);
    left := st.rest;
    if error.Some? {
      return Err(error.value), chosen, left;
    }
    r := Ok(Summary(q, st, stopped));
  }

  /** The report of a finished loop. */
  function Summary(q: Request, st: State, stopped: bool): Plan
    requires Rows(q.covariance, |q.covariance|, |q.covariance|)
    requires Rows(st.covariance, |q.covariance|, |q.covariance|)
  {
    var initialTrace, finalTrace := Trace(q.covariance, |q.covariance|), Trace(st.covariance, |q.covariance|);
    Plan(initialTrace, finalTrace, Max(initialTrace - finalTrace, 0.0), st.gain, st.steps, Ids(st.rest), stopped,
      st.covariance)
  }

  lemma {:induction false} LeftoverAll(pool: seq<Candidate>)
    ensures Leftover(pool, []) == pool
  {
    if pool != [] {
      LeftoverAll(pool[1..]);
    }
  }
}
