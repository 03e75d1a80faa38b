/** Partial matchings of rows to columns, their score, and weak duality for the assignment problem. */
module Matching {
  import opened Prelude

  type Matrix = seq<seq<real>>
  type Partial = seq<Option<nat>>

  predicate Shape(w: Matrix, rows: nat, cols: nat) {
    |w| == rows && forall i | 0 <= i < rows :: |w[i]| == cols
  }

  /** `m` sends each of `rows` rows to at most one of `cols` columns and no column is used twice. */
  predicate IsMatching(m: Partial, rows: nat, cols: nat) {
    && |m| == rows
    && (forall i | 0 <= i < rows && m[i].Some? :: m[i].value < cols)
    && (forall i, j | 0 <= i < j < rows && m[i].Some? && m[j].Some? :: m[i].value != m[j].value)
  }

  /** Sum of the matched entries in the first `k` rows. */
  function Score(w: Matrix, m: Partial, k: nat): real
    requires k <= |m| && k <= |w|
    requires forall i | 0 <= i < k && m[i].Some? :: m[i].value < |w[i]|
  {
    if k == 0 then 0.0
    else Score(w, m, k - 1) + if m[k-1].Some? then w[k-1][m[k-1].value] else 0.0
  }

  /** The columns used by the first `k` rows. */
  function Columns(m: Partial, k: nat): set<nat>
    requires k <= |m|
  {
    if k == 0 then {}
    else if m[k-1].Some? then Columns(m, k - 1) + {m[k-1].value}
    else Columns(m, k - 1)
  }

  /** The rows among the first `k` that are matched. */
  function MatchedRows(m: Partial, k: nat): set<nat>
    requires k <= |m|
  {
    if k == 0 then {}
    else if m[k-1].Some? then MatchedRows(m, k - 1) + {k - 1}
    else MatchedRows(m, k - 1)
  }

  lemma {:induction false} InMatchedRows(m: Partial, k: nat, i: nat)
    requires k <= |m|
    ensures i in MatchedRows(m, k) <==> i < k && m[i].Some?
  {
    if k > 0 {
      InMatchedRows(m, k - 1, i);
    }
  }

  lemma {:induction false} InColumns(m: Partial, k: nat, i: nat)
    requires i < k <= |m| && m[i].Some?
    ensures m[i].value in Columns(m, k)
  {
    if i < k - 1 {
      InColumns(m, k - 1, i);
    }
  }

  lemma {:induction false} ColumnUser(m: Partial, k: nat, c: nat) returns (i: nat)
    requires k <= |m| && c in Columns(m, k)
    ensures i < k && m[i] == Some(c)
  {
    i := k - 1;
    if m[k-1] != Some(c) {
      i := ColumnUser(m, k - 1, c);
    }
  }

  function Sum(v: seq<real>, k: nat): real
    requires k <= |v|
  {
    if k == 0 then 0.0 else Sum(v, k - 1) + v[k-1]
  }

  /** Sum of the entries of `v` below `k` whose index lies in `s`. */
  function SumOver(v: seq<real>, s: set<nat>, k: nat): real
    requires k <= |v|
  {
    if k == 0 then 0.0 else SumOver(v, s, k - 1) + if k - 1 in s then v[k-1] else 0.0
  }

  lemma {:induction false} SumOverAdd(v: seq<real>, s: set<nat>, c: nat, k: nat)
    requires k <= |v| && c !in s
    ensures SumOver(v, s + {c}, k) == SumOver(v, s, k) + if c < k then v[c] else 0.0
  {
    if k > 0 {
      SumOverAdd(v, s, c, k - 1);
    }
  }

  lemma {:induction false} SumOverAll(v: seq<real>, s: set<nat>, k: nat)
    requires k <= |v| && Interval(0, k) <= s
    ensures SumOver(v, s, k) == Sum(v, k)
  {
    if k > 0 {
      assert k - 1 in Interval(0, k);
      assert Interval(0, k - 1) <= Interval(0, k);
      SumOverAll(v, s, k - 1);
    }
  }

  lemma {:induction false} SumOverNone(v: seq<real>, k: nat)
    requires k <= |v|
    ensures SumOver(v, {}, k) == 0.0
  {
    if k > 0 {
      SumOverNone(v, k - 1);
    }
  }

  lemma FreshColumn(m: Partial, rows: nat, cols: nat, k: nat)
    requires IsMatching(m, rows, cols) && k < rows && m[k].Some?
    ensures m[k].value !in Columns(m, k)
  {
    if m[k].value in Columns(m, k) {
      var i := ColumnUser(m, k, m[k].value);
    }
  }

  /** A matching uses as many columns as it matches rows. */
  lemma {:induction false} ColumnsSize(m: Partial, rows: nat, cols: nat, k: nat)
    requires IsMatching(m, rows, cols) && k <= rows
    ensures |Columns(m, k)| == |MatchedRows(m, k)|
    ensures forall c <- Columns(m, k) :: c < cols
  {
    if k > 0 {
      ColumnsSize(m, rows, cols, k - 1);
      InMatchedRows(m, k - 1, k - 1);
      if m[k-1].Some? {
        FreshColumn(m, rows, cols, k - 1);
      }
    }
  }

  /** A matching that leaves some row out matches fewer rows than there are. */
  lemma {:induction false} UnmatchedRow(m: Partial, k: nat, r: nat)
    requires r < k <= |m| && m[r] == None
    ensures |MatchedRows(m, k)| < k
  {
    if r < k - 1 {
      UnmatchedRow(m, k - 1, r);
    } else {
      MatchedRowsSize(m, k - 1);
    }
  }

  lemma {:induction false} MatchedRowsSize(m: Partial, k: nat)
    requires k <= |m|
    ensures |MatchedRows(m, k)| <= k
    ensures (forall i | 0 <= i < k :: m[i].Some?) ==> |MatchedRows(m, k)| == k
  {
    if k > 0 {
      MatchedRowsSize(m, k - 1);
      InMatchedRows(m, k - 1, k - 1);
    }
  }

  /** Matching row `r` adds exactly one matched row. */
  lemma {:induction false} MatchOneMore(m: Partial, r: nat, c: nat, k: nat)
    requires r < |m| && m[r] == None && k <= |m|
    ensures |MatchedRows(m[r := Some(c)], k)| == |MatchedRows(m, k)| + if r < k then 1 else 0
  {
    if k > 0 {
      MatchOneMore(m, r, c, k - 1);
      InMatchedRows(m, k - 1, k - 1);
      InMatchedRows(m[r := Some(c)], k - 1, k - 1);
    }
  }

  /** A full matching of a square matrix uses every column. */
  lemma FullUsesAll(m: Partial, n: nat)
    requires IsMatching(m, n, n)
    requires forall i | 0 <= i < n :: m[i].Some?
    ensures Columns(m, n) == Interval(0, n)
  {
    ColumnsSize(m, n, n, n);
    MatchedRowsSize(m, n);
    SubsetSize(Columns(m, n), Interval(0, n));
  }

  /** A matching that leaves row `r` out also leaves a column out. */
  lemma UnusedColumn(m: Partial, n: nat, r: nat) returns (c: nat)
    requires IsMatching(m, n, n) && r < n && m[r] == None
    ensures c < n && IsMatching(m[r := Some(c)], n, n)
  {
    ColumnsSize(m, n, n, n);
    UnmatchedRow(m, n, r);
    c := PickOutside(Columns(m, n), Interval(0, n));
    forall i | 0 <= i < n && m[i].Some?
      ensures m[i].value != c
    {
      InColumns(m, n, i);
    }
  }

  /** Weights bounded by potentials, in a square matrix: `w[r][c] <= 1 - u[r] - v[c]`. */
  ghost predicate Bounded(w: Matrix, u: seq<real>, v: seq<real>, n: nat) {
    && Shape(w, n, n) && |u| == n && |v| == n
    && (forall r, c | 0 <= r < n && 0 <= c < n :: 0.0 <= w[r][c] <= 1.0 - u[r] - v[c])
  }

  /** The score of the first `k` rows of a full matching is bounded by the potentials it uses. */
  lemma {:induction false} FullBound(w: Matrix, u: seq<real>, v: seq<real>, n: nat, m: Partial, k: nat)
    requires Bounded(w, u, v, n) && IsMatching(m, n, n) && k <= n
    requires forall i | 0 <= i < n :: m[i].Some?
    ensures Score(w, m, k) <= k as real - Sum(u, k) - SumOver(v, Columns(m, k), n)
    ensures (forall i | 0 <= i < n :: w[i][m[i].value] == 1.0 - u[i] - v[m[i].value])
            ==> Score(w, m, k) == k as real - Sum(u, k) - SumOver(v, Columns(m, k), n)
  {
    if k > 0 {
      FullBound(w, u, v, n, m, k - 1);
      var c := m[k-1].value;
      if c in Columns(m, k - 1) {
        var i := ColumnUser(m, k - 1, c);
      }
      SumOverAdd(v, Columns(m, k - 1), c, n);
    } else {
      SumOverNone(v, n);
    }
  }

  /** Matching one more row to an unused column does not lower the score. */
  lemma {:induction false} ScoreExtend(w: Matrix, m: Partial, r: nat, c: nat, n: nat, k: nat)
    requires Shape(w, n, n) && IsMatching(m, n, n) && r < n && c < n && m[r] == None && k <= n
    requires w[r][c] >= 0.0
    ensures Score(w, m, k) <= Score(w, m[r := Some(c)], k)
  {
    if k > 0 {
      ScoreExtend(w, m, r, c, n, k - 1);
    }
  }

  lemma WeightNonneg(w: Matrix, u: seq<real>, v: seq<real>, n: nat, r: nat, c: nat)
    requires Bounded(w, u, v, n) && r < n && c < n
    ensures w[r][c] >= 0.0
  {
    assert w[r][c] <= 1.0 - u[r] - v[c];
  }

  /** Weak duality: no partial matching scores more than `n` minus the potentials. */
  lemma {:induction false} WeakDuality(w: Matrix, u: seq<real>, v: seq<real>, n: nat, m: Partial)
    requires Bounded(w, u, v, n) && IsMatching(m, n, n)
    ensures Score(w, m, n) <= n as real - Sum(u, n) - Sum(v, n)
    decreases n - |MatchedRows(m, n)|
  {
    if forall i | 0 <= i < n :: m[i].Some? {
      FullUsesAll(m, n);
      FullBound(w, u, v, n, m, n);
      SumOverAll(v, Columns(m, n), n);
    } else {
      var r: nat :| r < n && m[r] == None;
      var c := UnusedColumn(m, n, r);
      MatchOneMore(m, r, c, n);
      MatchedRowsSize(m[r := Some(c)], n);
      WeightNonneg(w, u, v, n, r, c);
      ScoreExtend(w, m, r, c, n, n);
      WeakDuality(w, u, v, n, m[r := Some(c)]);
    }
  }

  /** Strong duality: a full matching whose pairs are tight has the highest score. */
  lemma TightIsOptimal(w: Matrix, u: seq<real>, v: seq<real>, n: nat, best: Partial, m: Partial)
    requires Bounded(w, u, v, n) && IsMatching(best, n, n) && IsMatching(m, n, n)
    requires forall i | 0 <= i < n :: best[i].Some?
    requires forall i | 0 <= i < n :: w[i][best[i].value] == 1.0 - u[i] - v[best[i].value]
    ensures Score(w, m, n) <= Score(w, best, n)
  {
    WeakDuality(w, u, v, n, m);
    FullUsesAll(best, n);
    FullBound(w, u, v, n, best, n);
    SumOverAll(v, Columns(best, n), n);
  }
}
