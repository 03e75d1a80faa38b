/** One step of greedy experiment design: choose an aperture, then update the posterior covariance. */
module ActiveStep {
  import opened Prelude
  import opened Vectors
  import opened PosteriorUpdate
  import Text

  datatype Candidate = Candidate(id: string, sensing: Vec, noise: real, cost: real, risk: real)

  datatype Score = Score(id: string, gain: real, objective: real)

  /** The weights of cost and risk in the objective. */
  datatype Weights = Weights(cost: real, risk: real)

  const MIN_SENSING_ENERGY: real := 0.000000000000000000000000000001

  predicate ValidCandidate(c: Candidate, n: nat) {
    && |c.sensing| == n && Dot(c.sensing, c.sensing, n) > MIN_SENSING_ENERGY
    && c.noise > 0.0 && c.cost >= 0.0 && 0.0 <= c.risk <= 1.0
  }

  predicate DistinctIds(cs: seq<Candidate>) {
    forall i, j | 0 <= i < j < |cs| :: cs[i].id != cs[j].id
  }

  predicate ValidPool(cs: seq<Candidate>, n: nat) {
    (forall i | 0 <= i < |cs| :: ValidCandidate(cs[i], n)) && DistinctIds(cs)
  }

  ghost predicate Increasing(ln: real -> real) {
    forall x, y :: 0.0 < x < y ==> ln(x) < ln(y)
  }

  /** A covariance and a candidate of its dimension. */
  predicate Fits(s: Mat, c: Candidate) {
    Rows(s, |s|, |s|) && ValidCandidate(c, |s|)
  }

  function Snr(s: Mat, c: Candidate): real
    requires Fits(s, c)
  {
    Max(Predictive(s, c.sensing), 0.0) / c.noise
  }

  function Gain(ln: real -> real, s: Mat, c: Candidate): real
    requires Fits(s, c)
  {
    0.5 * ln(1.0 + Snr(s, c))
  }

  function Objective(ln: real -> real, w: Weights, s: Mat, c: Candidate): real
    requires Fits(s, c)
  {
    Gain(ln, s, c) - w.cost * c.cost - w.risk * c.risk
  }

  function ScoreOf(ln: real -> real, w: Weights, s: Mat, c: Candidate): (r: Score)
    requires Fits(s, c)
  {
    Score(c.id, Gain(ln, s, c), Objective(ln, w, s, c))
  }

  // ----- choosing

  /** `c` does not beat `b`: a lower objective, or the same with an id that is not earlier. */
  predicate NoBetter(c: Score, b: Score) {
    c.objective < b.objective || (c.objective == b.objective && Text.Le(b.id, c.id))
  }

  lemma NoBetterTransitive(a: Score, b: Score, c: Score)
    requires NoBetter(a, b) && NoBetter(b, c)
    ensures NoBetter(a, c)
  {
    if a.objective == c.objective {
      Text.LeTransitive(c.id, b.id, a.id);
    }
  }

  /** The scores of a pool; a candidate that does not fit has none. */
  function Scores(ln: real -> real, w: Weights, s: Mat, pool: seq<Candidate>): (r: seq<Score>)
    ensures |r| == |pool|
  {
    seq(|pool|, i requires 0 <= i < |pool| =>
      if Fits(s, pool[i]) then ScoreOf(ln, w, s, pool[i]) else Score(pool[i].id, 0.0, 0.0))
  }

  lemma ScoreAt(ln: real -> real, w: Weights, s: Mat, pool: seq<Candidate>, i: nat)
    requires i < |pool| && Fits(s, pool[i])
    ensures Scores(ln, w, s, pool)[i] == ScoreOf(ln, w, s, pool[i])
  {
  }

  /** The first `i` candidates are valid and `ids` is the set of their names. */
  ghost predicate Scanned(pool: seq<Candidate>, n: nat, i: nat, ids: set<string>) {
    && i <= |pool| && ValidPool(pool[..i], n)
    && (forall j | 0 <= j < i :: pool[j].id in ids)
    && (forall id | id in ids :: exists j :: 0 <= j < i && pool[j].id == id)
  }

  lemma ScanMore(pool: seq<Candidate>, n: nat, i: nat, ids: set<string>)
    requires i < |pool| && Scanned(pool, n, i, ids) && ValidCandidate(pool[i], n) && pool[i].id !in ids
    ensures Scanned(pool, n, i + 1, ids + {pool[i].id})
  {
    assert forall j | 0 <= j < i :: pool[..i][j] == pool[j];
    assert ValidPool(pool[..i+1], n) by {
      assert forall j | 0 <= j < i + 1 :: pool[..i+1][j] == pool[j];
      forall j, k | 0 <= j < k < i + 1
        ensures pool[j].id != pool[k].id
      {
        if k < i {
          assert pool[..i][j].id != pool[..i][k].id;
        }
      }
    }
    forall id | id in ids + {pool[i].id}
      ensures exists j :: 0 <= j < i + 1 && pool[j].id == id
    {
      if id in ids {
        var j :| 0 <= j < i && pool[j].id == id;
      }
    }
  }

  lemma ScanDone(pool: seq<Candidate>, n: nat, ids: set<string>)
    requires Scanned(pool, n, |pool|, ids)
    ensures ValidPool(pool, n)
  {
    assert pool[..|pool|] == pool;
  }

  lemma ScanFails(pool: seq<Candidate>, n: nat, i: nat, ids: set<string>)
    requires i < |pool| && Scanned(pool, n, i, ids)
    requires !ValidCandidate(pool[i], n) || pool[i].id in ids
    ensures !ValidPool(pool, n)
  {
    if ValidCandidate(pool[i], n) {
      var j :| 0 <= j < i && pool[j].id == pool[i].id;
    }
  }

  /** Validate one more candidate and its name. */
  method Admit(pool: seq<Candidate>, n: nat, i: nat, ids: set<string>) returns (r: Result<set<string>>)
    requires i < |pool| && Scanned(pool, n, i, ids)
    ensures r.Ok? ==> Scanned(pool, n, i + 1, r.value) && ValidCandidate(pool[i], n)
    ensures r.Err? ==> !ValidPool(pool, n)
  {
    if !ValidCandidate(pool[i], n) {
      ScanFails(pool, n, i, ids);
      return Err("active_candidate_invalid");
    }
    if pool[i].id in ids {
      ScanFails(pool, n, i, ids);
      return Err("active_duplicate_aperture_id");
    }
    ScanMore(pool, n, i, ids);
    r := Ok(ids + {pool[i].id});
  }

  /** `top` is score number `best`, and none of the first `i` beats it. */
  ghost predicate Leads(scores: seq<Score>, i: nat, top: Score, best: nat) {
    best < i <= |scores| && top == scores[best] && forall j | 0 <= j < i :: NoBetter(scores[j], top)
  }

  method Choose(ln: real -> real, validate: Mat -> bool, pool: seq<Candidate>, s: Mat, w: Weights)
    returns (r: Result<Score>, ghost best: nat)
    requires Validates(validate)
    ensures r.Ok? <==> validate(s) && w.cost >= 0.0 && w.risk >= 0.0 && pool != [] && ValidPool(pool, |s|)
    ensures r.Ok? ==> Leads(Scores(ln, w, s, pool), |pool|, r.value, best)
  {
    best := 0;
    if !validate(s) {
      return Err("active_covariance"), best;
    }
    if w.cost < 0.0 || w.risk < 0.0 {
      return Err("active_objective_weights_invalid"), best;
    }
    r, best := Compare(ln, pool, s, w, Scores(ln, w, s, pool));
  }

  /** The loop over the candidates. */
  method Compare(ln: real -> real, pool: seq<Candidate>, s: Mat, w: Weights, ghost scores: seq<Score>)
    returns (r: Result<Score>, ghost best: nat)
    requires Rows(s, |s|, |s|) && scores == Scores(ln, w, s, pool)
    ensures r.Ok? <==> pool != [] && ValidPool(pool, |s|)
    ensures r.Ok? ==> Leads(scores, |pool|, r.value, best)
  {
    best := 0;
    var ids: set<string> := {};
    var top: Option<Score> := None;
    for i := 0 to |pool|
      invariant Scanned(pool, |s|, i, ids)
      invariant top.None? <==> i == 0
      invariant top.Some? ==> Leads(scores, i, top.value, best)
    {
      var admitted := Admit(pool, |s|, i, ids);
      if admitted.Err? {
        return Err(admitted.code), best;
      }
      ids := admitted.value;
      ScoreAt(ln, w, s, pool, i);
      top, best := Challenge(ScoreOf(ln, w, s, pool[i]), scores, i, top, best);
    }
    ScanDone(pool, |s|, ids);
    if top.None? {
      return Err("active_no_candidates"), best;
    }
    r := Ok(top.value);
  }

  /** Keep the better of one more score and the running best. */
  method Challenge(score: Score, ghost scores: seq<Score>, ghost i: nat, top: Option<Score>, ghost best: nat)
    returns (top': Option<Score>, ghost best': nat)
    requires i < |scores| && score == scores[i] && (top.None? <==> i == 0)
    requires top.Some? ==> Leads(scores, i, top.value, best)
    ensures top'.Some? && Leads(scores, i + 1, top'.value, best')
  {
    top', best' := top, best;
    if top.None? {
      top', best' := Some(score), i;
      Text.LeTotal(score.id, score.id);
    } else if score.objective > top.value.objective
           || (score.objective == top.value.objective && score.id != top.value.id && Text.Le(score.id, top.value.id)) {
      forall j | 0 <= j < i
        ensures NoBetter(scores[j], score)
      {
        NoBetterTransitive(scores[j], top.value, score);
      }
      Text.LeTotal(score.id, score.id);
      top', best' := Some(score), i;
    } else {
      Text.LeTotal(score.id, top.value.id);
    }
  }

  // ----- updating

  /** What the second pass leaves at one entry: the diagonal clamped at zero, the rest averaged with its mirror. */
  function Settled(t: Mat, i: nat, j: nat): real
    requires Rows(t, |t|, |t|) && i < |t| && j < |t|
  {
    if i == j then Max(t[i][i], 0.0) else if j < i then 0.5 * (t[i][j] + t[j][i]) else 0.5 * (t[j][i] + t[i][j])
  }

  ghost function Settle(t: Mat): (r: Mat)
    requires Rows(t, |t|, |t|)
    ensures Rows(r, |t|, |t|) && forall i, j | 0 <= i < |t| && 0 <= j < |t| :: r[i][j] == Settled(t, i, j)
  {
    seq(|t|, i requires 0 <= i < |t| => seq(|t|, j requires 0 <= j < |t| => Settled(t, i, j)))
  }

  /** On a positive semidefinite matrix the second pass changes nothing. */
  lemma SettleIdle(t: Mat)
    requires IsPsd(t, |t|)
    ensures Settle(t) == t
  {
    forall i | 0 <= i < |t|
      ensures Settle(t)[i] == t[i]
    {
      DiagonalNonneg(t, |t|, i);
      assert forall j | 0 <= j < |t| :: Settle(t)[i][j] == t[i][j];
    }
  }

  /** The total variance the update divides by. */
  function Denominator(s: Mat, c: Candidate): (d: real)
    requires Fits(s, c)
    ensures d > 0.0
  {
    c.noise + Max(Predictive(s, c.sensing), 0.0)
  }

  ghost predicate Holds(u: array2<real>, t: Mat)
    reads u
  {
    && Rows(t, |t|, |t|) && u.Length0 == u.Length1 == |t|
    && (forall i, j | 0 <= i < |t| && 0 <= j < |t| :: u[i, j] == t[i][j])
  }

  method RankOnePass(s: Mat, p: Vec, den: real, u: array2<real>)
    requires Rows(s, |s|, |s|) && |p| == |s| && den != 0.0 && u.Length0 == u.Length1 == |s|
    modifies u
    ensures Holds(u, Downdate(s, |s|, p, den))
  {
    var n := |s|;
    for row := 0 to n
      invariant forall i, j | 0 <= i < row && 0 <= j < n :: u[i, j] == s[i][j] - Share(p[i], p[j], den)
    {
      for col := 0 to n
        invariant forall i, j | 0 <= i < row && 0 <= j < n :: u[i, j] == s[i][j] - Share(p[i], p[j], den)
        invariant forall j | 0 <= j < col :: u[row, j] == s[row][j] - Share(p[row], p[j], den)
      {
        u[row, col] := s[row][col] - p[row] * p[col] / den;
      }
    }
  }

  /** Rows and columns below `k` are settled, the rest untouched. */
  ghost predicate SettledBelow(u: array2<real>, t: Mat, k: nat)
    reads u
  {
    && Rows(t, |t|, |t|) && u.Length0 == u.Length1 == |t|
    && (forall i, j | 0 <= i < |t| && 0 <= j < |t| :: u[i, j] == if i < k && j < k then Settled(t, i, j) else t[i][j])
  }

  /** Restore symmetry and clamp the diagonal. */
  method SymmetryPass(u: array2<real>, ghost t: Mat)
    requires Holds(u, t)
    modifies u
    ensures Holds(u, Settle(t))
  {
    var n := u.Length0;
    for row := 0 to n
      invariant SettledBelow(u, t, row)
    {
      u[row, row] := Max(u[row, row], 0.0);
      for col := 0 to row
        invariant forall i, j | 0 <= i < n && 0 <= j < n ::
                    u[i, j] == if (i < row && j < row) || (i == row && j == row)
                                  || (i == row && j < col) || (j == row && i < col)
                               then Settled(t, i, j) else t[i][j]
      {
        var mean := 0.5 * (u[row, col] + u[col, row]);
        u[row, col] := mean;
        u[col, row] := mean;
      }
    }
  }

  lemma HoldsUnique(u: array2<real>, t: Mat)
    requires Holds(u, t)
    ensures AsMat(u) == t
  {
    forall i | 0 <= i < |t|
      ensures AsMat(u)[i] == t[i]
    {
    }
  }

  /** The exact rank-one update: neither the clamps nor the averaging change anything, and the second
      validation never fails. */
  method UpdatePosterior(validate: Mat -> bool, s: Mat, c: Candidate) returns (r: Result<Mat>)
    requires Validates(validate)
    ensures r.Ok? <==> validate(s) && ValidCandidate(c, |s|)
    ensures r.Ok? ==> r.value == Sense(s, c) && validate(r.value)
  {
    if !validate(s) {
      return Err("active_covariance");
    }
    if !ValidCandidate(c, |s|) {
      return Err("active_candidate_invalid");
    }
    var projected := Projected(s, c.sensing);
    var den := Denominator(s, c);
    var u := new real[|s|, |s|];
    RankOnePass(s, projected, den, u);
    SymmetryPass(u, Downdate(s, |s|, projected, den));
    HoldsUnique(u, Settle(Downdate(s, |s|, projected, den)));
    var updated := AsMat(u);
    SensePsd(s, c);
    SenseDowndate(s, c);
    SettleIdle(Sense(s, c));
    if !validate(updated) {
      return Err("active_covariance");
    }
    r := Ok(updated);
  }

  /** The covariance after `c` has been sensed. */
  ghost function Sense(s: Mat, c: Candidate): (r: Mat)
    ensures |r| == |s| && (Rows(s, |s|, |s|) ==> Rows(r, |s|, |s|))
  {
    if Fits(s, c) && c.noise + Predictive(s, c.sensing) != 0.0 then Posterior(s, c.sensing, c.noise) else s
  }

  lemma SenseIs(s: Mat, c: Candidate)
    requires IsPsd(s, |s|) && ValidCandidate(c, |s|)
    ensures Predictive(s, c.sensing) >= 0.0 && Denominator(s, c) == c.noise + Predictive(s, c.sensing)
    ensures Sense(s, c) == Posterior(s, c.sensing, c.noise)
  {
    PredictiveNonneg(s, c.sensing);
  }

  lemma PosteriorIs(s: Mat, a: Vec, noise: real, den: real)
    requires Rows(s, |a|, |a|) && den == noise + Predictive(s, a) && den != 0.0
    ensures Posterior(s, a, noise) == Downdate(s, |a|, Projected(s, a), den)
  {
  }

  lemma SenseDowndate(s: Mat, c: Candidate)
    requires IsPsd(s, |s|) && ValidCandidate(c, |s|)
    ensures Sense(s, c) == Downdate(s, |s|, Projected(s, c.sensing), Denominator(s, c))
  {
    SenseIs(s, c);
    PosteriorIs(s, c.sensing, c.noise, Denominator(s, c));
  }

  /** Sensing keeps the covariance positive semidefinite. */
  lemma SensePsd(s: Mat, c: Candidate)
    requires IsPsd(s, |s|) && ValidCandidate(c, |s|)
    ensures |Sense(s, c)| == |s| && IsPsd(Sense(s, c), |s|)
  {
    SenseIs(s, c);
    PosteriorPsd(s, c.sensing, c.noise);
  }

  lemma DivMono(x: real, y: real, d: real)
    requires x <= y && d > 0.0
    ensures x / d <= y / d
  {
  }

  /** No direction gains variance. */
  lemma PredictiveShrinks(s: Mat, c: Candidate, d: Candidate)
    requires IsPsd(s, |s|) && ValidCandidate(c, |s|) && ValidCandidate(d, |s|)
    ensures Fits(Sense(s, c), d) && 0.0 <= Predictive(Sense(s, c), d.sensing) <= Predictive(s, d.sensing)
  {
    SenseIs(s, c);
    PosteriorQuad(s, c.sensing, c.noise, d.sensing);
  }

  lemma ObjectiveMonotone(ln: real -> real, w: Weights, s: Mat, t: Mat, d: Candidate)
    requires Increasing(ln) && Fits(s, d) && Fits(t, d)
    requires 0.0 <= Predictive(t, d.sensing) <= Predictive(s, d.sensing)
    ensures Objective(ln, w, t, d) <= Objective(ln, w, s, d)
  {
    var x, y := Predictive(t, d.sensing), Predictive(s, d.sensing);
    DivMono(x, y, d.noise);
    DivMono(0.0, x, d.noise);
    assert Snr(t, d) == x / d.noise && Snr(s, d) == y / d.noise;
  }

  /** Diminishing returns: sensing `c` never raises the objective of any `d`. */
  lemma ObjectiveShrinks(ln: real -> real, w: Weights, s: Mat, c: Candidate, d: Candidate)
    requires Increasing(ln) && IsPsd(s, |s|) && ValidCandidate(c, |s|) && ValidCandidate(d, |s|)
    ensures Fits(Sense(s, c), d) && Objective(ln, w, Sense(s, c), d) <= Objective(ln, w, s, d)
  {
    PredictiveShrinks(s, c, d);
    ObjectiveMonotone(ln, w, s, Sense(s, c), d);
  }

  /** What one sensing takes from the trace: |S a|^2 / (noise + a' S a). */
  function TraceDrop(s: Mat, c: Candidate): real
    requires Fits(s, c)
  {
    Dot(Projected(s, c.sensing), Projected(s, c.sensing), |s|) / Denominator(s, c)
  }

  lemma SenseTrace(s: Mat, c: Candidate)
    requires IsPsd(s, |s|) && ValidCandidate(c, |s|)
    ensures Rows(Sense(s, c), |s|, |s|)
    ensures Trace(Sense(s, c), |s|) == Trace(s, |s|) - TraceDrop(s, c) <= Trace(s, |s|)
  {
    SenseIs(s, c);
    SenseDowndate(s, c);
    TraceFalls(s, |s|, Projected(s, c.sensing), Denominator(s, c));
  }
}
