/** `align_bases`: sign-invariant alignment of two bases by optimal assignment on |cosine|. */
module Gauge {
  import opened Prelude
  import opened Matching
  import Hungarian

  type Vector = seq<real>
  type Cosine = (Vector, Vector) -> Result<real>

  /** What the cosine routine promises when it succeeds: it clamps its result to [-1, 1]. */
  ghost predicate CosineRange(cosine: Cosine) {
    forall a, b :: cosine(a, b).Ok? ==> -1.0 <= cosine(a, b).value <= 1.0
  }

  datatype BasisAlignment = BasisAlignment(assignment: Partial, signs: seq<real>, meanAbsCosine: real)

  predicate SameDimension(reference: seq<Vector>, candidate: seq<Vector>) {
    && reference != [] && candidate != [] && |reference[0]| != 0
    && (forall i | 0 <= i < |reference| :: |reference[i]| == |reference[0]|)
    && (forall j | 0 <= j < |candidate| :: |candidate[j]| == |reference[0]|)
  }

  ghost predicate Comparable(cosine: Cosine, reference: seq<Vector>, candidate: seq<Vector>) {
    forall i, j | 0 <= i < |reference| && 0 <= j < |candidate| :: cosine(reference[i], candidate[j]).Ok?
  }

  ghost function AbsCosines(cosine: Cosine, reference: seq<Vector>, candidate: seq<Vector>): (w: Matrix)
    requires Comparable(cosine, reference, candidate)
    ensures Shape(w, |reference|, |candidate|)
    ensures forall i, j | 0 <= i < |reference| && 0 <= j < |candidate| ::
              w[i][j] == Abs(cosine(reference[i], candidate[j]).value)
  {
    seq(|reference|, i requires 0 <= i < |reference| =>
      seq(|candidate|, j requires 0 <= j < |candidate| => Abs(cosine(reference[i], candidate[j]).value)))
  }

  /** The padded square weights: |cosine| inside, zero on the padding. */
  ghost predicate Padded(w: Matrix, rows: nat, cols: nat, cost: Matrix, n: nat) {
    && Shape(w, rows, cols) && Shape(cost, n, n) && rows <= n && cols <= n
    && (forall i, j | 0 <= i < n && 0 <= j < n ::
          1.0 - cost[i][j] == if i < rows && j < cols then w[i][j] else 0.0)
  }

  ghost function Gains(cost: Matrix, n: nat): (g: Matrix)
    requires Shape(cost, n, n)
    ensures Shape(g, n, n)
    ensures forall i, j | 0 <= i < n && 0 <= j < n :: g[i][j] == 1.0 - cost[i][j]
  {
    seq(n, i requires 0 <= i < n => seq(n, j requires 0 <= j < n => 1.0 - cost[i][j]))
  }

  /** The column holding each row, as a full matching of the square. */
  ghost predicate ReadsRows(n: nat, p: seq<nat>, full: Partial) {
    && |p| == n + 1 && |full| == n
    && (forall r | 0 <= r < n :: full[r].Some? && full[r].value < n && p[full[r].value + 1] == r + 1)
  }

  lemma RowHolders(n: nat, p: seq<nat>, k: nat) returns (full: seq<Option<nat>>)
    requires Hungarian.Holds(n, p, n, 0) && k <= n
    ensures |full| == k
    ensures forall r | 0 <= r < k :: full[r].Some? && full[r].value < n && p[full[r].value + 1] == r + 1
  {
    full := [];
    if k > 0 {
      var rest := RowHolders(n, p, k - 1);
      assert Hungarian.HeldSomewhere(n, p, 0, k);
      var c :| 0 <= c <= n && c != 0 && p[c] == k;
      full := rest + [Some(c - 1)];
    }
  }

  /** Feasible potentials bound the gains. */
  lemma GainsBounded(cost: Matrix, n: nat, u: seq<real>, v: seq<real>, p: seq<nat>)
    requires Hungarian.Inserted(cost, n, u, v, p, n)
    requires forall i, j | 0 <= i < n && 0 <= j < n :: cost[i][j] <= 1.0
    ensures Bounded(Gains(cost, n), u[1..], v[1..], n)
  {
    var g := Gains(cost, n);
    forall r, c | 0 <= r < n && 0 <= c < n
      ensures 0.0 <= g[r][c] <= 1.0 - u[1..][r] - v[1..][c]
    {
      assert Hungarian.Reduced(cost, u, v, r + 1, c + 1) >= 0.0;
    }
  }

  lemma TightGain(cost: Matrix, n: nat, u: seq<real>, v: seq<real>, p: seq<nat>, full: Partial, r: nat)
    requires Hungarian.Inserted(cost, n, u, v, p, n) && ReadsRows(n, p, full) && r < n
    ensures Gains(cost, n)[r][full[r].value] == 1.0 - u[1..][r] - v[1..][full[r].value]
  {
    assert Hungarian.Reduced(cost, u, v, p[full[r].value + 1], full[r].value + 1) == 0.0;
  }

  /** Tight pairs under feasible potentials make the square matching optimal. */
  lemma SquareOptimal(cost: Matrix, n: nat, u: seq<real>, v: seq<real>, p: seq<nat>, full: Partial, m: Partial)
    requires Hungarian.Inserted(cost, n, u, v, p, n) && ReadsRows(n, p, full) && IsMatching(m, n, n)
    requires forall i, j | 0 <= i < n && 0 <= j < n :: cost[i][j] <= 1.0
    ensures IsMatching(full, n, n)
    ensures Score(Gains(cost, n), m, n) <= Score(Gains(cost, n), full, n)
  {
    HoldersMatch(n, p, full);
    GainsBounded(cost, n, u, v, p);
    GainsTight(cost, n, u, v, p, full, Gains(cost, n), u[1..], v[1..]);
    TightIsOptimal(Gains(cost, n), u[1..], v[1..], n, full, m);
  }

  lemma HoldersMatch(n: nat, p: seq<nat>, full: Partial)
    requires ReadsRows(n, p, full)
    ensures IsMatching(full, n, n)
  {
  }

  lemma GainsTight(cost: Matrix, n: nat, u: seq<real>, v: seq<real>, p: seq<nat>, full: Partial, g: Matrix,
                   us: seq<real>, vs: seq<real>)
    requires Hungarian.Inserted(cost, n, u, v, p, n) && ReadsRows(n, p, full)
    requires g == Gains(cost, n) && us == u[1..] && vs == v[1..]
    ensures forall r | 0 <= r < n :: g[r][full[r].value] == 1.0 - us[r] - vs[full[r].value]
  {
    forall r | 0 <= r < n
      ensures g[r][full[r].value] == 1.0 - us[r] - vs[full[r].value]
    {
      TightGain(cost, n, u, v, p, full, r);
    }
  }

  function Pad(m: Partial, n: nat): (q: Partial)
    requires |m| <= n
    ensures |q| == n
    ensures forall i | 0 <= i < n :: q[i] == if i < |m| then m[i] else None
  {
    m + seq(n - |m|, _ => None)
  }

  /** Drop the pairs that touch the padding. */
  ghost predicate Trims(full: Partial, rows: nat, cols: nat, m: Partial) {
    && rows <= |full| && |m| == rows
    && (forall i | 0 <= i < rows ::
          m[i] == if full[i].Some? && full[i].value < cols then full[i] else None)
  }

  /** Padding contributes nothing to a score. */
  lemma {:induction false} TrimScore(w: Matrix, rows: nat, cols: nat, cost: Matrix, n: nat, full: Partial, m: Partial,
      k: nat)
    requires Padded(w, rows, cols, cost, n) && k <= n && |full| == n
    requires forall i | 0 <= i < n && full[i].Some? :: full[i].value < n
    requires Trims(full, rows, cols, m)
    ensures Score(Gains(cost, n), full, k) == Score(w, m, if k < rows then k else rows)
  {
    if k > 0 {
      TrimScore(w, rows, cols, cost, n, full, m, k - 1);
    }
  }

  /** The trimmed square optimum is optimal among the partial matchings of the rectangle. */
  lemma TrimOptimal(w: Matrix, rows: nat, cols: nat, cost: Matrix, n: nat, u: seq<real>, v: seq<real>, p: seq<nat>,
                    full: Partial, best: Partial, m: Partial)
    requires Padded(w, rows, cols, cost, n)
    requires Hungarian.Inserted(cost, n, u, v, p, n) && ReadsRows(n, p, full)
    requires forall i, j | 0 <= i < n && 0 <= j < n :: cost[i][j] <= 1.0
    requires Trims(full, rows, cols, best) && IsMatching(m, rows, cols)
    ensures Score(w, m, rows) <= Score(w, best, rows)
  {
    SquareOptimal(cost, n, u, v, p, full, Pad(m, n));
    TrimScore(w, rows, cols, cost, n, full, best, n);
    TrimScore(w, rows, cols, cost, n, Pad(m, n), m, n);
  }

  /** In a square no wider than one side, trimming keeps exactly min(rows, cols) pairs. */
  lemma TrimCount(n: nat, p: seq<nat>, full: Partial, rows: nat, cols: nat, best: Partial)
    requires Hungarian.Holds(n, p, n, 0) && ReadsRows(n, p, full)
    requires Trims(full, rows, cols, best) && cols <= n && (rows == n || cols == n)
    ensures IsMatching(best, rows, cols)
    ensures |MatchedRows(best, rows)| == if rows < cols then rows else cols
  {
    ColumnsSize(best, rows, cols, rows);
    if cols == n {
      MatchedRowsSize(best, rows);
    } else {
      TrimKeepsColumns(n, p, full, rows, cols, best);
    }
  }

  /** When every row is kept, every kept column is still used. */
  lemma TrimKeepsColumns(n: nat, p: seq<nat>, full: Partial, rows: nat, cols: nat, best: Partial)
    requires Hungarian.Holds(n, p, n, 0) && ReadsRows(n, p, full)
    requires Trims(full, rows, cols, best) && cols <= n && rows == n
    ensures Columns(best, rows) == Interval(0, cols)
  {
    HoldersMatch(n, p, full);
    KeepsColumns(n, full, cols, best);
  }

  lemma KeepsColumns(n: nat, full: Partial, cols: nat, best: Partial)
    requires IsMatching(full, n, n) && (forall i | 0 <= i < n :: full[i].Some?)
    requires Trims(full, n, cols, best) && cols <= n
    ensures Columns(best, n) == Interval(0, cols)
  {
    FullUsesAll(full, n);
    ColumnsSize(best, n, cols, n);
    forall c: nat | c < cols
      ensures c in Columns(best, n)
    {
      assert c in Interval(0, n);
      KeptColumn(full, n, cols, best, c);
    }
  }

  lemma KeptColumn(full: Partial, n: nat, cols: nat, best: Partial, c: nat)
    requires IsMatching(full, n, n) && Trims(full, n, cols, best) && c in Columns(full, n) && c < cols
    ensures c in Columns(best, n)
  {
    var i := ColumnUser(full, n, c);
    InColumns(best, n, i);
  }

  /** A matching of min(rows, cols) pairs whose score no partial matching exceeds. */
  ghost predicate IsBest(w: Matrix, rows: nat, cols: nat, best: Partial) {
    && Shape(w, rows, cols) && IsMatching(best, rows, cols)
    && |MatchedRows(best, rows)| == (if rows < cols then rows else cols)
    && (forall m | IsMatching(m, rows, cols) :: Score(w, m, rows) <= Score(w, best, rows))
  }

  predicate IsMean(mean: real, sum: real, count: nat) {
    mean * count as real == sum
  }

  /** An alignment that is what `align_bases` promises. */
  ghost predicate Aligned(cosine: Cosine, reference: seq<Vector>, candidate: seq<Vector>, a: BasisAlignment)
    requires Comparable(cosine, reference, candidate)
  {
    var rows, cols := |reference|, |candidate|;
    var w := AbsCosines(cosine, reference, candidate);
    && IsBest(w, rows, cols, a.assignment)
    && SignsMatch(cosine, reference, candidate, a.assignment, a.signs)
    && IsMean(a.meanAbsCosine, Score(w, a.assignment, rows), |MatchedRows(a.assignment, rows)|)
  }

  /** The sign turns the matched cosine into its absolute value; unmatched rows keep +1. */
  ghost predicate SignsMatch(cosine: Cosine, reference: seq<Vector>, candidate: seq<Vector>,
                             assignment: Partial, signs: seq<real>)
    requires Comparable(cosine, reference, candidate)
    requires IsMatching(assignment, |reference|, |candidate|)
  {
    && |signs| == |reference|
    && (forall i | 0 <= i < |reference| ::
          && (signs[i] == 1.0 || signs[i] == -1.0)
          && (match assignment[i]
              case None => signs[i] == 1.0
              case Some(j) => var c := cosine(reference[i], candidate[j]).value;
                              signs[i] * c == Abs(c) && (c == 0.0 ==> signs[i] == 1.0)))
  }

  /** The first `k` costs of a row are 1 - |cosine|, the rest are still 1. */
  ghost predicate FilledRow(cosine: Cosine, left: Vector, candidate: seq<Vector>, row: seq<real>, n: nat, k: nat)
    requires k <= |candidate| <= n
  {
    && |row| == n
    && (forall j | 0 <= j < k ::
          cosine(left, candidate[j]).Ok? && row[j] == 1.0 - Abs(cosine(left, candidate[j]).value))
    && (forall j | k <= j < n :: row[j] == 1.0)
  }

  method FillCosts(cosine: Cosine, reference: seq<Vector>, candidate: seq<Vector>, n: nat)
    returns (r: Result<Matrix>)
    requires CosineRange(cosine) && |reference| <= n && |candidate| <= n
    ensures r.Ok? <==> Comparable(cosine, reference, candidate)
    ensures r.Ok? ==> Padded(AbsCosines(cosine, reference, candidate), |reference|, |candidate|, r.value, n)
    ensures r.Ok? ==> forall i, j | 0 <= i < n && 0 <= j < n :: 0.0 <= r.value[i][j] <= 1.0
  {
    var ones := seq(n, _ => 1.0);
    var cost := seq(n, _ => ones);
    for i := 0 to |reference|
      invariant Shape(cost, n, n)
      invariant forall k | 0 <= k < i :: FilledRow(cosine, reference[k], candidate, cost[k], n, |candidate|)
      invariant forall k | i <= k < n :: cost[k] == ones
    {
      for j := 0 to |candidate|
        invariant Shape(cost, n, n)
        invariant forall k | 0 <= k < i :: FilledRow(cosine, reference[k], candidate, cost[k], n, |candidate|)
        invariant forall k | i < k < n :: cost[k] == ones
        invariant FilledRow(cosine, reference[i], candidate, cost[i], n, j)
      {
        var c := cosine(reference[i], candidate[j]);
        if c.Err? {
          return Err(c.code);
        }
        cost := cost[i := cost[i][j := 1.0 - Clamp(Abs(c.value), 0.0, 1.0)]];
      }
    }
    r := Ok(cost);
    assert Comparable(cosine, reference, candidate) by {
      forall i, j | 0 <= i < |reference| && 0 <= j < |candidate|
        ensures cosine(reference[i], candidate[j]).Ok?
      {
        assert FilledRow(cosine, reference[i], candidate, cost[i], n, |candidate|);
      }
    }
    forall i, j | 0 <= i < n && 0 <= j < n
      ensures 0.0 <= cost[i][j] <= 1.0
      ensures 1.0 - cost[i][j] == if i < |reference| && j < |candidate|
                                  then AbsCosines(cosine, reference, candidate)[i][j] else 0.0
    {
      assert i < |reference| ==> FilledRow(cosine, reference[i], candidate, cost[i], n, |candidate|);
      assert i >= |reference| ==> cost[i] == ones;
    }
  }

  /** Keep the pairs whose row and column are both inside the rectangle. */
  method ReadAssignment(n: nat, p: array<nat>, rows: nat, cols: nat, ghost full: Partial)
    returns (assignment: Partial)
    requires p.Length == n + 1 && Hungarian.Holds(n, p[..], n, 0) && ReadsRows(n, p[..], full)
    requires rows <= n && cols <= n
    ensures Trims(full, rows, cols, assignment)
  {
    assignment := seq(rows, _ => None);
    for j := 1 to n + 1
      invariant |assignment| == rows
      invariant forall r | 0 <= r < rows ::
                  assignment[r] == if full[r].value < cols && full[r].value + 1 < j then full[r] else None
    {
      var i := p[j];
      assert forall r | 0 <= r < rows :: full[r].value + 1 == j <==> p[..][j] == r + 1;
      if i > 0 && i <= rows && j <= cols {
        assignment := assignment[i-1 := Some(j - 1)];
      }
    }
  }

  /** The sign of row `k`'s matched cosine. */
  function SignOf(cosine: Cosine, reference: seq<Vector>, candidate: seq<Vector>, assignment: Partial, k: nat): real
    requires k < |reference| && k < |assignment| && (assignment[k].Some? ==> assignment[k].value < |candidate|)
    requires assignment[k].Some? ==> cosine(reference[k], candidate[assignment[k].value]).Ok?
  {
    match assignment[k]
    case None => 1.0
    case Some(j) => if cosine(reference[k], candidate[j]).value >= 0.0 then 1.0 else -1.0
  }

  /** The signs of the first `i` rows are set, the others are still +1. */
  ghost predicate SignsRead(cosine: Cosine, reference: seq<Vector>, candidate: seq<Vector>, assignment: Partial,
                            signs: seq<real>, i: nat)
    requires Comparable(cosine, reference, candidate) && IsMatching(assignment, |reference|, |candidate|)
  {
    && |signs| == |reference| && (forall k | i <= k < |reference| :: signs[k] == 1.0)
    && (forall k | 0 <= k < i && k < |reference| ::
          signs[k] == SignOf(cosine, reference, candidate, assignment, k))
  }

  lemma NextSign(cosine: Cosine, reference: seq<Vector>, candidate: seq<Vector>, assignment: Partial,
                 signs: seq<real>, i: nat)
    requires Comparable(cosine, reference, candidate) && IsMatching(assignment, |reference|, |candidate|)
    requires i < |reference| && SignsRead(cosine, reference, candidate, assignment, signs, i)
    ensures assignment[i].None? ==> SignsRead(cosine, reference, candidate, assignment, signs, i + 1)
    ensures assignment[i].Some? ==>
              SignsRead(cosine, reference, candidate, assignment,
                signs[i := SignOf(cosine, reference, candidate, assignment, i)], i + 1)
  {
  }

  lemma SignsFollow(cosine: Cosine, reference: seq<Vector>, candidate: seq<Vector>, assignment: Partial,
                    signs: seq<real>)
    requires Comparable(cosine, reference, candidate) && IsMatching(assignment, |reference|, |candidate|)
    requires SignsRead(cosine, reference, candidate, assignment, signs, |reference|)
    ensures SignsMatch(cosine, reference, candidate, assignment, signs)
  {
  }

  /** One more row: its share of the score and of the count. */
  lemma NextRow(w: Matrix, assignment: Partial, rows: nat, cols: nat, i: nat)
    requires Shape(w, rows, cols) && IsMatching(assignment, rows, cols) && i < rows
    ensures assignment[i].Some? ==> Score(w, assignment, i + 1) == Score(w, assignment, i) + w[i][assignment[i].value]
    ensures assignment[i].None? ==> Score(w, assignment, i + 1) == Score(w, assignment, i)
    ensures |MatchedRows(assignment, i + 1)| == |MatchedRows(assignment, i)| + if assignment[i].Some? then 1 else 0
  {
    InMatchedRows(assignment, i, i);
  }

  method ReadSigns(cosine: Cosine, reference: seq<Vector>, candidate: seq<Vector>, assignment: Partial)
    returns (signs: seq<real>, sum: real, count: nat)
    requires Comparable(cosine, reference, candidate) && IsMatching(assignment, |reference|, |candidate|)
    ensures SignsMatch(cosine, reference, candidate, assignment, signs)
    ensures sum == Score(AbsCosines(cosine, reference, candidate), assignment, |reference|)
    ensures count == |MatchedRows(assignment, |reference|)|
  {
    signs, sum, count := seq(|reference|, _ => 1.0), 0.0, 0;
    ghost var w := AbsCosines(cosine, reference, candidate);
    for i := 0 to |reference|
      invariant SignsRead(cosine, reference, candidate, assignment, signs, i)
      invariant sum == Score(w, assignment, i) && count == |MatchedRows(assignment, i)|
    {
      NextRow(w, assignment, |reference|, |candidate|, i);
      NextSign(cosine, reference, candidate, assignment, signs, i);
      if assignment[i].Some? {
        var c := cosine(reference[i], candidate[assignment[i].value]).value;
        signs := signs[i := if c >= 0.0 then 1.0 else -1.0];
        sum := sum + Abs(c);
        count := count + 1;
      }
    }
    SignsFollow(cosine, reference, candidate, assignment, signs);
  }

  lemma TrimBest(w: Matrix, rows: nat, cols: nat, n: nat, cost: Matrix,
                 u: seq<real>, v: seq<real>, p: seq<nat>, full: Partial, best: Partial)
    requires Padded(w, rows, cols, cost, n)
    requires forall i, j | 0 <= i < n && 0 <= j < n :: 0.0 <= cost[i][j] <= 1.0
    requires Hungarian.Inserted(cost, n, u, v, p, n) && ReadsRows(n, p, full)
    requires Trims(full, rows, cols, best) && (rows == n || cols == n)
    ensures IsBest(w, rows, cols, best)
  {
    TrimCount(n, p, full, rows, cols, best);
    forall m | IsMatching(m, rows, cols)
      ensures Score(w, m, rows) <= Score(w, best, rows)
    {
      TrimOptimal(w, rows, cols, cost, n, u, v, p, full, best, m);
    }
  }

  /** Solve the padded problem and drop the padding. */
  method AssignPadded(ghost w: Matrix, rows: nat, cols: nat, n: nat, cost: Matrix)
    returns (assignment: Partial)
    requires Padded(w, rows, cols, cost, n) && (rows == n || cols == n)
    requires forall i, j | 0 <= i < n && 0 <= j < n :: 0.0 <= cost[i][j] <= 1.0
    ensures IsBest(w, rows, cols, assignment)
  {
    var p; ghost var u, v;
    p, u, v := Hungarian.Solve(cost, n);
    ghost var full := RowHolders(n, p[..], n);
    assignment := ReadAssignment(n, p, rows, cols, full);
    TrimBest(w, rows, cols, n, cost, u, v, p[..], full, assignment);
  }

  function Mean(sum: real, count: nat): (mean: real)
    ensures count > 0 ==> IsMean(mean, sum, count)
  {
    sum / (if count > 1 then count else 1) as real
  }

  /** Assign the padded problem, then read off the signs. */
  method AlignFilled(cosine: Cosine, reference: seq<Vector>, candidate: seq<Vector>, n: nat, cost: Matrix)
    returns (a: BasisAlignment)
    requires Comparable(cosine, reference, candidate) && reference != [] && candidate != []
    requires Padded(AbsCosines(cosine, reference, candidate), |reference|, |candidate|, cost, n)
    requires forall i, j | 0 <= i < n && 0 <= j < n :: 0.0 <= cost[i][j] <= 1.0
    requires |reference| == n || |candidate| == n
    ensures Aligned(cosine, reference, candidate, a)
  {
    ghost var w := AbsCosines(cosine, reference, candidate);
    var assignment := AssignPadded(w, |reference|, |candidate|, n, cost);
    a := Describe(cosine, reference, candidate, assignment);
  }

  /** Signs and mean of an assignment. */
  method Describe(cosine: Cosine, reference: seq<Vector>, candidate: seq<Vector>, assignment: Partial)
    returns (a: BasisAlignment)
    requires Comparable(cosine, reference, candidate)
    requires IsBest(AbsCosines(cosine, reference, candidate), |reference|, |candidate|, assignment)
    requires reference != [] && candidate != []
    ensures Aligned(cosine, reference, candidate, a) && a.assignment == assignment
  {
    var signs, sum, count := ReadSigns(cosine, reference, candidate, assignment);
    assert IsMean(Mean(sum, count), sum, count);
    a := BasisAlignment(assignment, signs, Mean(sum, count));
  }

  method AlignBases(cosine: Cosine, reference: seq<Vector>, candidate: seq<Vector>)
    returns (r: Result<BasisAlignment>)
    requires CosineRange(cosine)
    ensures r.Ok? <==> SameDimension(reference, candidate) && Comparable(cosine, reference, candidate)
    ensures r.Ok? ==> Aligned(cosine, reference, candidate, r.value)
  {
    if reference == [] || candidate == [] {
      return Err("gauge_empty_basis");
    }
    if !SameDimension(reference, candidate) {
      return Err("gauge_dimension_mismatch");
    }
    var n := if |reference| < |candidate| then |candidate| else |reference|;
    var cost := FillCosts(cosine, reference, candidate, n);
    if cost.Err? {
      return Err(cost.code);
    }
    var a := AlignFilled(cosine, reference, candidate, n, cost.value);
    r := Ok(a);
  }
}
