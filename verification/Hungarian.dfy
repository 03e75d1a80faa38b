/** The primal-dual assignment search inside `align_bases`, on a square cost matrix.
    Rows and columns are numbered from 1; column 0 holds the row being inserted. */
module Hungarian {
  import opened Prelude
  import opened Matching

  /** A slack that may still be the initial infinity. */
  datatype Slack = Infinite | Finite(value: real)

  predicate Below(a: Slack, b: Slack) {
    a.Finite? && (b.Infinite? || a.value < b.value)
  }

  function Reduced(cost: Matrix, u: seq<real>, v: seq<real>, r: nat, c: nat): real
    requires 1 <= r <= |cost| && 1 <= c <= |cost[r-1]| && r < |u| && c < |v|
  {
    cost[r-1][c-1] - u[r] - v[c]
  }

  /** No reduced cost is negative. */
  ghost predicate Feasible(cost: Matrix, n: nat, u: seq<real>, v: seq<real>) {
    && Shape(cost, n, n) && |u| == |v| == n + 1
    && (forall r, c | 1 <= r <= n && 1 <= c <= n :: Reduced(cost, u, v, r, c) >= 0.0)
  }

  /** Rows held by distinct columns are distinct, and none exceeds `i`. */
  ghost predicate Distinct(n: nat, p: seq<nat>, i: nat) {
    && |p| == n + 1
    && (forall c | 0 <= c <= n :: p[c] <= i)
    && (forall c, d | 0 <= c < d <= n && p[c] != 0 :: p[c] != p[d])
  }

  /** Every matched column other than `hole` holds its row at zero reduced cost. */
  ghost predicate Tight(cost: Matrix, n: nat, u: seq<real>, v: seq<real>, p: seq<nat>, hole: nat)
    requires Shape(cost, n, n) && |u| == |v| == |p| == n + 1
  {
    forall c | 1 <= c <= n && c != hole && 1 <= p[c] <= n :: Reduced(cost, u, v, p[c], c) == 0.0
  }

  /** The columns other than `hole` hold each of the rows 1..i exactly once, and nothing else. */
  ghost predicate Holds(n: nat, p: seq<nat>, i: nat, hole: nat) {
    && |p| == n + 1 && hole <= n
    && (forall c | 0 <= c <= n && c != hole :: p[c] <= i)
    && (forall c, d | 0 <= c < d <= n && c != hole && d != hole && p[c] != 0 :: p[c] != p[d])
    && (forall r | 1 <= r <= i :: HeldSomewhere(n, p, hole, r))
  }

  ghost predicate HeldSomewhere(n: nat, p: seq<nat>, hole: nat, r: nat)
    requires |p| == n + 1
  {
    exists c :: 0 <= c <= n && c != hole && p[c] == r
  }

  /** Between row insertions: columns 1..n hold the rows 1..i at zero reduced cost. */
  ghost predicate Inserted(cost: Matrix, n: nat, u: seq<real>, v: seq<real>, p: seq<nat>, i: nat) {
    && Feasible(cost, n, u, v) && Holds(n, p, i, 0) && i <= n
    && Tight(cost, n, u, v, p, 0)
  }

  /** The alternating tree: every marked column other than 0 was reached over a tight edge from the
      row of an earlier marked column. `level` orders the columns by the time they were marked. */
  ghost predicate Tree(cost: Matrix, n: nat, u: seq<real>, v: seq<real>, p: seq<nat>, way: seq<nat>,
                       used: seq<bool>, level: seq<nat>, time: nat)
    requires Shape(cost, n, n) && |u| == |v| == |p| == n + 1
  {
    && |way| == |used| == |level| == n + 1
    && (forall c | 0 <= c <= n && used[c] :: 1 <= p[c] <= n && level[c] < time)
    && (forall c | 1 <= c <= n && used[c] :: Linked(cost, n, u, v, p, way, used, c) && level[way[c]] < level[c])
  }

  /** Column `c` hangs from a marked column whose row is tight with `c`. */
  ghost predicate Linked(cost: Matrix, n: nat, u: seq<real>, v: seq<real>, p: seq<nat>, way: seq<nat>,
                         used: seq<bool>, c: nat)
    requires Shape(cost, n, n) && |u| == |v| == |p| == |way| == |used| == n + 1 && 1 <= c <= n
  {
    && way[c] <= n && used[way[c]]
    && 1 <= p[way[c]] <= n
    && Reduced(cost, u, v, p[way[c]], c) == 0.0
  }

  /** `minv[c]` is the least reduced cost from a marked row to column `c`, and `way[c]` the marked
      column that attains it; it is infinite only while nothing is marked. */
  ghost predicate LeastSlack(cost: Matrix, n: nat, u: seq<real>, v: seq<real>, p: seq<nat>, way: seq<nat>,
                             used: seq<bool>, minv: seq<Slack>, c: nat)
    requires Shape(cost, n, n) && |u| == |v| == |p| == |way| == |used| == |minv| == n + 1 && 1 <= c <= n
  {
    && (minv[c].Finite? ==>
          && way[c] <= n && used[way[c]] && 1 <= p[way[c]] <= n
          && minv[c].value == Reduced(cost, u, v, p[way[c]], c))
    && (forall d | 0 <= d <= n && used[d] && 1 <= p[d] <= n ::
          minv[c].Finite? && minv[c].value <= Reduced(cost, u, v, p[d], c))
  }

  ghost predicate Frontier(cost: Matrix, n: nat, u: seq<real>, v: seq<real>, p: seq<nat>, way: seq<nat>,
                           used: seq<bool>, minv: seq<Slack>)
    requires Shape(cost, n, n) && |u| == |v| == |p| == n + 1
  {
    && |way| == |used| == |minv| == n + 1
    && (forall c | 1 <= c <= n && !used[c] :: LeastSlack(cost, n, u, v, p, way, used, minv, c))
  }

  /** One of the first `k` columns is marked and holds row `r`. */
  ghost predicate Marked(p: seq<nat>, used: seq<bool>, k: nat, r: nat)
    requires k <= |p| == |used|
  {
    exists c :: 0 <= c < k && used[c] && p[c] == r
  }

  /** Raising the potentials of the marked rows and lowering those of the marked columns by `delta`. */
  ghost predicate Shifted(n: nat, p: seq<nat>, used: seq<bool>, delta: real,
                          u: seq<real>, v: seq<real>, minv: seq<Slack>,
                          u': seq<real>, v': seq<real>, minv': seq<Slack>)
    requires |p| == |used| == |u| == |v| == |minv| == n + 1
  {
    && |u'| == |v'| == |minv'| == n + 1
    && (forall c | 0 <= c <= n :: v'[c] == if used[c] then v[c] - delta else v[c])
    && (forall r | 0 <= r <= n :: u'[r] == if Marked(p, used, n + 1, r) then u[r] + delta else u[r])
    && (forall c | 0 <= c <= n :: minv'[c] == if !used[c] && minv[c].Finite?
                                              then Finite(minv[c].value - delta) else minv[c])
  }

  /** The state of the search for row `i` when column `j0` is about to be marked. */
  ghost predicate Searching(cost: Matrix, n: nat, i: nat, u: seq<real>, v: seq<real>, p: seq<nat>,
                            way: seq<nat>, used: seq<bool>, minv: seq<Slack>, level: seq<nat>, time: nat, j0: nat) {
    && Scanned(cost, n, i, u, v, p, way, used, minv, level, time)
    && j0 <= n && !used[j0]
    && (j0 == 0 ==> forall c | 0 <= c <= n :: !used[c])
    && (j0 != 0 ==> used[0] && Linked(cost, n, u, v, p, way, used, j0))
  }

  /** The search state between relaxing the slacks and shifting the potentials. */
  ghost predicate Scanned(cost: Matrix, n: nat, i: nat, u: seq<real>, v: seq<real>, p: seq<nat>,
                          way: seq<nat>, used: seq<bool>, minv: seq<Slack>, level: seq<nat>, time: nat) {
    && Feasible(cost, n, u, v)
    && 1 <= i <= n && Distinct(n, p, i) && p[0] == i
    && Tight(cost, n, u, v, p, 0)
    && Tree(cost, n, u, v, p, way, used, level, time)
    && Frontier(cost, n, u, v, p, way, used, minv)
  }

  /** The slack of one column after relaxing it against row `row`, held by column `j0`. */
  ghost predicate RelaxedAt(cost: Matrix, n: nat, u: seq<real>, v: seq<real>, row: nat, j0: nat,
                            way: seq<nat>, minv: seq<Slack>, way': seq<nat>, minv': seq<Slack>, c: nat)
    requires Shape(cost, n, n) && |u| == |v| == |way| == |minv| == |way'| == |minv'| == n + 1
    requires 1 <= row <= n && 1 <= c <= n
  {
    var cur := Reduced(cost, u, v, row, c);
    if Below(Finite(cur), minv[c]) then minv'[c] == Finite(cur) && way'[c] == j0
    else minv'[c] == minv[c] && way'[c] == way[c]
  }

  /** The slacks after relaxing every unmarked column. */
  ghost predicate Relaxed(cost: Matrix, n: nat, u: seq<real>, v: seq<real>, row: nat, j0: nat, used: seq<bool>,
                          way: seq<nat>, minv: seq<Slack>, way': seq<nat>, minv': seq<Slack>)
    requires Shape(cost, n, n) && |u| == |v| == |used| == |way| == |minv| == n + 1
    requires 1 <= row <= n
  {
    && |way'| == |minv'| == n + 1
    && (forall c | 0 <= c <= n && (c == 0 || used[c]) :: minv'[c] == minv[c] && way'[c] == way[c])
    && (forall c | 1 <= c <= n && !used[c] :: RelaxedAt(cost, n, u, v, row, j0, way, minv, way', minv', c))
  }

  lemma MarkKeepsTree(cost: Matrix, n: nat, i: nat, u: seq<real>, v: seq<real>, p: seq<nat>,
                      way: seq<nat>, used: seq<bool>, minv: seq<Slack>, level: seq<nat>, time: nat, j0: nat,
                      way': seq<nat>, minv': seq<Slack>)
    requires Searching(cost, n, i, u, v, p, way, used, minv, level, time, j0) && p[j0] != 0
    requires Relaxed(cost, n, u, v, p[j0], j0, used[j0 := true], way, minv, way', minv')
    ensures Tree(cost, n, u, v, p, way', used[j0 := true], level[j0 := time], time + 1)
  {
    TreeAfterMark(cost, n, u, v, p, way, used, level, time, j0, way');
  }

  lemma TreeAfterMark(cost: Matrix, n: nat, u: seq<real>, v: seq<real>, p: seq<nat>, way: seq<nat>, used: seq<bool>,
                      level: seq<nat>, time: nat, j0: nat, way': seq<nat>)
    requires Shape(cost, n, n) && |u| == |v| == |p| == |way'| == n + 1 && j0 <= n && 1 <= p[j0] <= n
    requires Tree(cost, n, u, v, p, way, used, level, time) && !used[j0]
    requires forall c | 1 <= c <= n && used[j0 := true][c] :: way'[c] == way[c]
    requires j0 != 0 ==> Linked(cost, n, u, v, p, way, used, j0)
    ensures Tree(cost, n, u, v, p, way', used[j0 := true], level[j0 := time], time + 1)
  {
    var used', level' := used[j0 := true], level[j0 := time];
    forall c | 1 <= c <= n && used'[c]
      ensures Linked(cost, n, u, v, p, way', used', c) && level'[way'[c]] < level'[c]
    {
      MarkedLink(cost, n, u, v, p, way, used, level, time, j0, way', c);
    }
  }

  /** A marked column keeps its link, and its parent is older. */
  lemma MarkedLink(cost: Matrix, n: nat, u: seq<real>, v: seq<real>, p: seq<nat>, way: seq<nat>, used: seq<bool>,
                   level: seq<nat>, time: nat, j0: nat, way': seq<nat>, c: nat)
    requires Shape(cost, n, n) && |u| == |v| == |p| == |way'| == n + 1 && j0 <= n
    requires Tree(cost, n, u, v, p, way, used, level, time) && !used[j0]
    requires 1 <= c <= n && used[j0 := true][c] && way'[c] == way[c]
    requires c == j0 ==> Linked(cost, n, u, v, p, way, used, c)
    ensures Linked(cost, n, u, v, p, way', used[j0 := true], c)
    ensures level[j0 := time][way'[c]] < level[j0 := time][c]
  {
    assert Linked(cost, n, u, v, p, way, used, c);
  }

  lemma MarkedSlack(cost: Matrix, n: nat, u: seq<real>, v: seq<real>, p: seq<nat>,
                    way: seq<nat>, used: seq<bool>, minv: seq<Slack>, j0: nat,
                    way': seq<nat>, minv': seq<Slack>, c: nat)
    requires Shape(cost, n, n) && |u| == |v| == |p| == |used| == n + 1
    requires |way| == |minv| == |way'| == |minv'| == n + 1
    requires j0 <= n && 1 <= p[j0] <= n && 1 <= c <= n && c != j0 && !used[c]
    requires LeastSlack(cost, n, u, v, p, way, used, minv, c)
    requires RelaxedAt(cost, n, u, v, p[j0], j0, way, minv, way', minv', c)
    ensures LeastSlack(cost, n, u, v, p, way', used[j0 := true], minv', c)
  {
    var used' := used[j0 := true];
    forall d | 0 <= d <= n && used'[d] && 1 <= p[d] <= n
      ensures minv'[c].Finite? && minv'[c].value <= Reduced(cost, u, v, p[d], c)
    {
      assert d == j0 || used[d];
    }
  }

  lemma MarkKeepsFrontier(cost: Matrix, n: nat, i: nat, u: seq<real>, v: seq<real>, p: seq<nat>,
                          way: seq<nat>, used: seq<bool>, minv: seq<Slack>, level: seq<nat>, time: nat, j0: nat,
                          way': seq<nat>, minv': seq<Slack>)
    requires Searching(cost, n, i, u, v, p, way, used, minv, level, time, j0) && p[j0] != 0
    requires Relaxed(cost, n, u, v, p[j0], j0, used[j0 := true], way, minv, way', minv')
    ensures Frontier(cost, n, u, v, p, way', used[j0 := true], minv')
  {
    var used' := used[j0 := true];
    forall c | 1 <= c <= n && !used'[c]
      ensures LeastSlack(cost, n, u, v, p, way', used', minv', c)
    {
      assert LeastSlack(cost, n, u, v, p, way, used, minv, c);
      MarkedSlack(cost, n, u, v, p, way, used, minv, j0, way', minv', c);
    }
  }

  /** After marking and relaxing, the search state is scanned. */
  lemma MarkScans(cost: Matrix, n: nat, i: nat, u: seq<real>, v: seq<real>, p: seq<nat>,
                  way: seq<nat>, used: seq<bool>, minv: seq<Slack>, level: seq<nat>, time: nat, j0: nat,
                  way': seq<nat>, minv': seq<Slack>)
    requires Searching(cost, n, i, u, v, p, way, used, minv, level, time, j0) && p[j0] != 0
    requires Relaxed(cost, n, u, v, p[j0], j0, used[j0 := true], way, minv, way', minv')
    ensures Scanned(cost, n, i, u, v, p, way', used[j0 := true], minv', level[j0 := time], time + 1)
  {
    MarkKeepsTree(cost, n, i, u, v, p, way, used, minv, level, time, j0, way', minv');
    MarkKeepsFrontier(cost, n, i, u, v, p, way, used, minv, level, time, j0, way', minv');
  }

  /** The potential shift keeps every reduced cost nonnegative. */
  lemma ShiftKeepsFeasible(cost: Matrix, n: nat, i: nat, u: seq<real>, v: seq<real>, p: seq<nat>,
                           way: seq<nat>, used: seq<bool>, minv: seq<Slack>, level: seq<nat>, time: nat, delta: real,
                           u': seq<real>, v': seq<real>, minv': seq<Slack>)
    requires Scanned(cost, n, i, u, v, p, way, used, minv, level, time)
    requires Shifted(n, p, used, delta, u, v, minv, u', v', minv')
    requires delta >= 0.0
    requires forall c | 1 <= c <= n && !used[c] :: minv[c].Finite? && delta <= minv[c].value
    ensures Feasible(cost, n, u', v')
  {
    forall r, c | 1 <= r <= n && 1 <= c <= n
      ensures Reduced(cost, u', v', r, c) >= 0.0
    {
      assert Reduced(cost, u, v, r, c) >= 0.0;
      assert !used[c] ==> LeastSlack(cost, n, u, v, p, way, used, minv, c);
      if Marked(p, used, n + 1, r) && !used[c] {
        var d :| 0 <= d <= n && used[d] && p[d] == r;
        assert minv[c].value <= Reduced(cost, u, v, p[d], c);
      }
    }
  }

  /** The reduced cost between a column and the row held by another column changes only when exactly
      one of the two is marked. */
  lemma ShiftReduced(cost: Matrix, n: nat, i: nat, p: seq<nat>, used: seq<bool>, delta: real,
                     u: seq<real>, v: seq<real>, minv: seq<Slack>, u': seq<real>, v': seq<real>, minv': seq<Slack>,
                     d: nat, c: nat)
    requires Shape(cost, n, n) && |u| == |v| == |p| == |used| == |minv| == n + 1 && Distinct(n, p, i)
    requires Shifted(n, p, used, delta, u, v, minv, u', v', minv')
    requires d <= n && 1 <= c <= n && 1 <= p[d] <= n
    ensures Reduced(cost, u', v', p[d], c)
         == Reduced(cost, u, v, p[d], c) - (if used[d] then delta else 0.0) + (if used[c] then delta else 0.0)
  {
    assert Marked(p, used, n + 1, p[d]) <==> used[d];
  }

  lemma ShiftKeepsTree(cost: Matrix, n: nat, i: nat, u: seq<real>, v: seq<real>, p: seq<nat>,
                       way: seq<nat>, used: seq<bool>, minv: seq<Slack>, level: seq<nat>, time: nat, delta: real,
                       u': seq<real>, v': seq<real>, minv': seq<Slack>)
    requires Scanned(cost, n, i, u, v, p, way, used, minv, level, time)
    requires Shifted(n, p, used, delta, u, v, minv, u', v', minv')
    ensures Tree(cost, n, u', v', p, way, used, level, time)
    ensures Tight(cost, n, u', v', p, 0)
  {
    forall c | 1 <= c <= n && used[c]
      ensures Linked(cost, n, u', v', p, way, used, c)
    {
      assert Linked(cost, n, u, v, p, way, used, c);
      ShiftReduced(cost, n, i, p, used, delta, u, v, minv, u', v', minv', way[c], c);
    }
    forall c | 1 <= c <= n && 1 <= p[c] <= n
      ensures Reduced(cost, u', v', p[c], c) == 0.0
    {
      ShiftReduced(cost, n, i, p, used, delta, u, v, minv, u', v', minv', c, c);
    }
  }

  lemma ShiftSlack(cost: Matrix, n: nat, i: nat, u: seq<real>, v: seq<real>, p: seq<nat>,
                   way: seq<nat>, used: seq<bool>, minv: seq<Slack>, delta: real,
                   u': seq<real>, v': seq<real>, minv': seq<Slack>, c: nat)
    requires Shape(cost, n, n) && |u| == |v| == |p| == |way| == |used| == |minv| == n + 1 && Distinct(n, p, i)
    requires Shifted(n, p, used, delta, u, v, minv, u', v', minv')
    requires 1 <= c <= n && !used[c] && LeastSlack(cost, n, u, v, p, way, used, minv, c)
    ensures LeastSlack(cost, n, u', v', p, way, used, minv', c)
  {
    if minv[c].Finite? {
      ShiftReduced(cost, n, i, p, used, delta, u, v, minv, u', v', minv', way[c], c);
    }
    forall d | 0 <= d <= n && used[d] && 1 <= p[d] <= n
      ensures minv'[c].Finite? && minv'[c].value <= Reduced(cost, u', v', p[d], c)
    {
      ShiftReduced(cost, n, i, p, used, delta, u, v, minv, u', v', minv', d, c);
    }
  }

  lemma ShiftKeepsFrontier(cost: Matrix, n: nat, i: nat, u: seq<real>, v: seq<real>, p: seq<nat>,
                           way: seq<nat>, used: seq<bool>, minv: seq<Slack>, level: seq<nat>, time: nat, delta: real,
                           u': seq<real>, v': seq<real>, minv': seq<Slack>)
    requires Scanned(cost, n, i, u, v, p, way, used, minv, level, time)
    requires Shifted(n, p, used, delta, u, v, minv, u', v', minv')
    ensures Frontier(cost, n, u', v', p, way, used, minv')
  {
    forall c | 1 <= c <= n && !used[c]
      ensures LeastSlack(cost, n, u', v', p, way, used, minv', c)
    {
      ShiftSlack(cost, n, i, u, v, p, way, used, minv, delta, u', v', minv', c);
    }
  }

  /** The column of least slack becomes tight with the column its slack came from. */
  lemma ShiftLinks(cost: Matrix, n: nat, i: nat, u: seq<real>, v: seq<real>, p: seq<nat>,
                   way: seq<nat>, used: seq<bool>, minv: seq<Slack>, level: seq<nat>, time: nat, delta: real,
                   u': seq<real>, v': seq<real>, minv': seq<Slack>, j1: nat)
    requires Scanned(cost, n, i, u, v, p, way, used, minv, level, time)
    requires Shifted(n, p, used, delta, u, v, minv, u', v', minv')
    requires 1 <= j1 <= n && !used[j1] && minv[j1] == Finite(delta)
    ensures Linked(cost, n, u', v', p, way, used, j1)
  {
    assert LeastSlack(cost, n, u, v, p, way, used, minv, j1);
    ShiftReduced(cost, n, i, p, used, delta, u, v, minv, u', v', minv', way[j1], j1);
  }

  function RowsHeld(p: seq<nat>, k: nat): set<nat>
    requires k <= |p|
  {
    if k == 0 then {} else RowsHeld(p, k - 1) + {p[k-1]}
  }

  lemma {:induction false} RowHolder(p: seq<nat>, k: nat, r: nat) returns (c: nat)
    requires k <= |p| && r in RowsHeld(p, k)
    ensures c < k && p[c] == r
  {
    c := k - 1;
    if p[k-1] != r {
      c := RowHolder(p, k - 1, r);
    }
  }

  lemma {:induction false} RowsHeldSize(n: nat, p: seq<nat>, i: nat, k: nat)
    requires Distinct(n, p, i) && k <= n + 1
    requires forall c | 0 <= c <= n :: p[c] != 0
    ensures |RowsHeld(p, k)| == k
  {
    if k > 0 {
      RowsHeldSize(n, p, i, k - 1);
      if p[k-1] in RowsHeld(p, k - 1) {
        var c := RowHolder(p, k - 1, p[k-1]);
      }
    }
  }

  lemma {:induction false} RowsHeldIn(n: nat, p: seq<nat>, i: nat, k: nat)
    requires Distinct(n, p, i) && k <= n + 1
    requires forall c | 0 <= c <= n :: p[c] != 0
    ensures RowsHeld(p, k) <= Interval(1, i + 1)
  {
    if k > 0 {
      RowsHeldIn(n, p, i, k - 1);
    }
  }

  /** There are fewer rows than columns, so some column is still free. */
  lemma SomeColumnFree(n: nat, p: seq<nat>, i: nat)
    requires Distinct(n, p, i) && i <= n
    ensures exists c :: 0 <= c <= n && p[c] == 0
  {
    if forall c | 0 <= c <= n :: p[c] != 0 {
      RowsHeldSize(n, p, i, n + 1);
      RowsHeldIn(n, p, i, n + 1);
      SubsetSize(RowsHeld(p, n + 1), Interval(1, i + 1));
    }
  }

  /** One pass over the unmarked columns: relax their slacks against row `i0`, held by column `j0`,
      and pick the first column of least slack. */
  method RelaxColumns(cost: Matrix, n: nat, u: array<real>, v: array<real>, i0: nat, j0: nat,
                      minv: array<Slack>, way: array<nat>, used: array<bool>)
    returns (delta: Slack, j1: nat)
    requires Shape(cost, n, n) && 1 <= i0 <= n && j0 <= n
    requires u.Length == v.Length == minv.Length == way.Length == used.Length == n + 1
    modifies minv, way
    ensures Relaxed(cost, n, u[..], v[..], i0, j0, used[..], old(way[..]), old(minv[..]), way[..], minv[..])
    ensures j1 <= n
    ensures j1 == 0 ==> forall c | 1 <= c <= n :: used[c]
    ensures j1 != 0 ==> !used[j1] && delta.Finite? && minv[j1] == delta
    ensures j1 != 0 ==> forall c | 1 <= c <= n && !used[c] :: !Below(minv[c], delta)
  {
    delta, j1 := Infinite, 0;
    ghost var way0, minv0, u0, v0 := way[..], minv[..], u[..], v[..];
    for j := 1 to n + 1
      invariant j1 < j && u[..] == u0 && v[..] == v0
      invariant forall c | 0 <= c <= n && (c == 0 || used[c] || j <= c) :: minv[c] == minv0[c] && way[c] == way0[c]
      invariant forall c | 1 <= c < j && !used[c] ::
                  RelaxedAt(cost, n, u0, v0, i0, j0, way0, minv0, way[..], minv[..], c)
      invariant j1 == 0 ==> delta == Infinite && forall c | 1 <= c < j :: used[c]
      invariant j1 != 0 ==> !used[j1] && delta.Finite? && minv[j1] == delta
      invariant j1 != 0 ==> forall c | 1 <= c < j && !used[c] :: !Below(minv[c], delta)
    {
      if !used[j] {
        var cur := cost[i0-1][j-1] - u[i0] - v[j];
        if Below(Finite(cur), minv[j]) {
          minv[j] := Finite(cur);
          way[j] := j0;
        }
        if Below(minv[j], delta) {
          delta := minv[j];
          j1 := j;
        }
      }
    }
  }

  lemma MarkedStep(p: seq<nat>, used: seq<bool>, k: nat, r: nat)
    requires k < |p| == |used|
    ensures Marked(p, used, k + 1, r) <==> Marked(p, used, k, r) || (used[k] && p[k] == r)
  {
    if used[k] && p[k] == r {
      assert 0 <= k < k + 1 && used[k] && p[k] == r;
    }
  }

  method ShiftPotentials(n: nat, u: array<real>, v: array<real>, p: array<nat>,
                         minv: array<Slack>, used: array<bool>, delta: real)
    requires u.Length == v.Length == p.Length == minv.Length == used.Length == n + 1
    requires u != v
    requires forall c | 0 <= c <= n :: p[c] <= n
    requires forall c, d | 0 <= c < d <= n && used[c] && used[d] :: p[c] != p[d]
    modifies u, v, minv
    ensures Shifted(n, p[..], used[..], delta, old(u[..]), old(v[..]), old(minv[..]), u[..], v[..], minv[..])
  {
    ghost var rows, marks := p[..], used[..];
    for j := 0 to n + 1
      invariant rows == p[..] && marks == used[..]
      invariant forall c | 0 <= c <= n :: v[c] == if marks[c] && c < j then old(v[c]) - delta else old(v[c])
      invariant forall r | 0 <= r <= n :: u[r] == if Marked(rows, marks, j, r) then old(u[r]) + delta else old(u[r])
      invariant forall c | 0 <= c <= n :: minv[c] == if !marks[c] && c < j && old(minv[c]).Finite?
                                                     then Finite(old(minv[c]).value - delta) else old(minv[c])
    {
      forall r ensures Marked(rows, marks, j + 1, r) <==> Marked(rows, marks, j, r) || (marks[j] && rows[j] == r) {
        MarkedStep(rows, marks, j, r);
      }
      if used[j] {
        assert !Marked(rows, marks, j, rows[j]);
        u[p[j]] := u[p[j]] + delta;
        v[j] := v[j] - delta;
      } else if minv[j].Finite? {
        minv[j] := Finite(minv[j].value - delta);
      }
    }
  }

  /** Moving the row of `j1` into the hole `j0` moves the hole to `j1`. */
  lemma MoveHole(n: nat, p: seq<nat>, i: nat, j0: nat, j1: nat)
    requires Holds(n, p, i, j0) && j1 <= n && j1 != j0
    ensures Holds(n, p[j0 := p[j1]], i, j1)
  {
    var p' := p[j0 := p[j1]];
    forall r | 1 <= r <= i
      ensures HeldSomewhere(n, p', j1, r)
    {
      assert HeldSomewhere(n, p, j0, r);
      var c :| 0 <= c <= n && c != j0 && p[c] == r;
      var c' := if c == j1 then j0 else c;
      assert p'[c'] == r && c' != j1;
    }
  }

  /** The row being inserted is parked in column 0 while column `j0` is free. */
  lemma ParkRow(n: nat, p: seq<nat>, i: nat, j0: nat)
    requires 1 <= i && Holds(n, p, i - 1, 0) && 1 <= j0 <= n && p[j0] == 0
    ensures Holds(n, p[0 := i], i, j0)
  {
    var p' := p[0 := i];
    forall r | 1 <= r <= i
      ensures HeldSomewhere(n, p', j0, r)
    {
      if r == i {
        assert p'[0] == r;
      } else {
        assert HeldSomewhere(n, p, 0, r);
        var c :| 0 <= c <= n && c != 0 && p[c] == r;
        assert p'[c] == r && c != j0;
      }
    }
  }

  /** Follow the alternating path back from the free column `free`, shifting each row one column on. */
  method Augment(cost: Matrix, n: nat, i: nat, ghost u: seq<real>, ghost v: seq<real>, p: array<nat>,
                 way: array<nat>, ghost used: seq<bool>, ghost level: seq<nat>, ghost time: nat, free: nat)
    requires p.Length == way.Length == n + 1 && p != way
    requires Shape(cost, n, n) && |u| == |v| == n + 1
    requires Tree(cost, n, u, v, p[..], way[..], used, level, time)
    requires 1 <= free <= n && !used[free] && Linked(cost, n, u, v, p[..], way[..], used, free)
    requires 1 <= i <= n && Holds(n, p[..], i, free) && Tight(cost, n, u, v, p[..], free)
    modifies p
    ensures Holds(n, p[..], i, 0) && Tight(cost, n, u, v, p[..], 0)
  {
    ghost var p0, w := p[..], way[..];
    var j0 := free;
    ghost var now := time;
    while j0 != 0
      invariant j0 <= n && w == way[..]
      invariant if j0 == free then now == time else used[j0] && level[j0] == now
      invariant Untouched(n, p0, p[..], used, level, free, j0, now)
      invariant Holds(n, p[..], i, j0) && Tight(cost, n, u, v, p[..], j0)
      decreases now
    {
      var j1 := way[j0];
      ghost var before := p[..];
      assert Linked(cost, n, u, v, p0, w, used, j0);
      MoveHole(n, before, i, j0, j1);
      p[j0] := p[j1];
      assert p[..] == before[j0 := before[j1]];
      StepBack(cost, n, u, v, p0, before, used, level, free, j0, j1, now);
      j0 := j1;
      now := level[j1];
    }
  }

  /** Columns marked before `now` still hold their rows, and so does every column before the first move. */
  ghost predicate Untouched(n: nat, p0: seq<nat>, p: seq<nat>, used: seq<bool>, level: seq<nat>, free: nat, j0: nat,
                            now: nat)
    requires |p0| == |p| == |used| == |level| == n + 1 && j0 <= n
  {
    && (forall c | 0 <= c <= n && used[c] && level[c] < now :: p[c] == p0[c])
    && (j0 == free ==> p == p0) && p[j0] == p0[j0]
  }

  /** Moving the row of the older column `j1` to `j0` keeps the matched pairs tight. */
  lemma StepBack(cost: Matrix, n: nat, u: seq<real>, v: seq<real>, p0: seq<nat>, p: seq<nat>, used: seq<bool>,
                 level: seq<nat>, free: nat, j0: nat, j1: nat, now: nat)
    requires Shape(cost, n, n) && |u| == |v| == |p0| == |p| == |used| == |level| == n + 1 && 1 <= j0 <= n && j1 <= n
    requires Untouched(n, p0, p, used, level, free, j0, now) && Tight(cost, n, u, v, p, j0)
    requires free <= n && !used[free] && used[j1] && level[j1] < now
    requires j0 != free ==> used[j0] && level[j0] == now
    requires 1 <= p0[j1] <= n && Reduced(cost, u, v, p0[j1], j0) == 0.0
    ensures Tight(cost, n, u, v, p[j0 := p[j1]], j1)
    ensures Untouched(n, p0, p[j0 := p[j1]], used, level, free, j1, level[j1])
  {
  }

  /** With row `i` parked in column 0, the held rows are distinct. */
  lemma ParkedDistinct(cost: Matrix, n: nat, u: seq<real>, v: seq<real>, p: seq<nat>, i: nat)
    requires 1 <= i <= n && Inserted(cost, n, u, v, p, i - 1)
    ensures Distinct(n, p[0 := i], i) && Tight(cost, n, u, v, p[0 := i], 0)
  {
  }

  lemma SearchStarts(cost: Matrix, n: nat, i: nat, u: seq<real>, v: seq<real>, p: seq<nat>,
                     way: seq<nat>, used: seq<bool>, minv: seq<Slack>, level: seq<nat>)
    requires |way| == |used| == |minv| == |level| == n + 1
    requires 1 <= i <= n && Feasible(cost, n, u, v) && Distinct(n, p, i) && p[0] == i && Tight(cost, n, u, v, p, 0)
    requires forall c | 0 <= c <= n :: !used[c] && minv[c] == Infinite
    ensures Searching(cost, n, i, u, v, p, way, used, minv, level, 0, 0)
  {
    forall c | 1 <= c <= n
      ensures LeastSlack(cost, n, u, v, p, way, used, minv, c)
    {
    }
  }

  /** Mark column `j0` and relax the slacks against its row. */
  method MarkAndRelax(cost: Matrix, n: nat, i: nat, u: array<real>, v: array<real>, p: array<nat>,
                      way: array<nat>, used: array<bool>, minv: array<Slack>, ghost level: seq<nat>,
                      ghost time: nat, j0: nat)
    returns (delta: Slack, j1: nat)
    requires u.Length == v.Length == p.Length == way.Length == used.Length == minv.Length == n + 1
    requires p != way
    requires Searching(cost, n, i, u[..], v[..], p[..], way[..], used[..], minv[..], level, time, j0)
    requires p[j0] != 0
    modifies way, used, minv
    ensures used[..] == old(used[..])[j0 := true] && used[0]
    ensures Scanned(cost, n, i, u[..], v[..], p[..], way[..], used[..], minv[..], level[j0 := time], time + 1)
    ensures 1 <= j1 <= n && !used[j1] && delta.Finite? && minv[j1] == delta
    ensures forall c | 1 <= c <= n && !used[c] :: !Below(minv[c], delta)
  {
    ghost var used0, minv0, way0, u0, v0, p0 := used[..], minv[..], way[..], u[..], v[..], p[..];
    used[j0] := true;
    ghost var used1 := used0[j0 := true];
    assert used[..] == used1;
    delta, j1 := RelaxColumns(cost, n, u, v, p[j0], j0, minv, way, used);
    assert u[..] == u0 && v[..] == v0 && p[..] == p0 && used[..] == used1;
    MarkScans(cost, n, i, u0, v0, p0, way0, used0, minv0, level, time, j0, way[..], minv[..]);
    ColumnsRemain(cost, n, i, u0, v0, p0, way[..], used1, minv[..], level[j0 := time], time + 1);
  }

  /** A marked column holds a row and some column holds none, so some column is not marked; column 0 is. */
  lemma ColumnsRemain(cost: Matrix, n: nat, i: nat, u: seq<real>, v: seq<real>, p: seq<nat>, way: seq<nat>,
                      used: seq<bool>, minv: seq<Slack>, level: seq<nat>, time: nat)
    requires Scanned(cost, n, i, u, v, p, way, used, minv, level, time)
    ensures exists c :: 1 <= c <= n && !used[c]
  {
    SomeColumnFree(n, p, i);
    var c :| 0 <= c <= n && p[c] == 0;
    assert c != 0 && !used[c];
  }

  /** Shift by the least slack, which makes column `j1` the next one to mark. */
  method ShiftAndAdvance(cost: Matrix, n: nat, i: nat, u: array<real>, v: array<real>, p: array<nat>,
                         way: array<nat>, used: array<bool>, minv: array<Slack>, ghost level: seq<nat>,
                         ghost time: nat, delta: Slack, j1: nat)
    returns (j0: nat)
    requires u.Length == v.Length == p.Length == way.Length == used.Length == minv.Length == n + 1
    requires u != v && p != way
    requires Scanned(cost, n, i, u[..], v[..], p[..], way[..], used[..], minv[..], level, time)
    requires used[0]
    requires 1 <= j1 <= n && !used[j1] && delta.Finite? && minv[j1] == delta
    requires forall c | 1 <= c <= n && !used[c] :: !Below(minv[c], delta)
    modifies u, v, minv
    ensures j0 == j1
    ensures Searching(cost, n, i, u[..], v[..], p[..], way[..], used[..], minv[..], level, time, j0)
  {
    ghost var u0, v0, minv0, p0, way0, used0 := u[..], v[..], minv[..], p[..], way[..], used[..];
    LeastIsBelow(cost, n, i, u0, v0, p0, way0, used0, minv0, level, time, delta.value, j1);
    ShiftPotentials(n, u, v, p, minv, used, delta.value);
    ShiftSearches(cost, n, i, u0, v0, p0, way0, used0, minv0, level, time, delta.value, u[..], v[..], minv[..], j1);
    assert p[..] == p0 && way[..] == way0 && used[..] == used0;
    j0 := j1;
  }

  /** The least open slack is finite, nonnegative and below every other. */
  lemma LeastIsBelow(cost: Matrix, n: nat, i: nat, u: seq<real>, v: seq<real>, p: seq<nat>, way: seq<nat>,
                     used: seq<bool>, minv: seq<Slack>, level: seq<nat>, time: nat, delta: real, j1: nat)
    requires Scanned(cost, n, i, u, v, p, way, used, minv, level, time) && used[0]
    requires 1 <= j1 <= n && !used[j1] && minv[j1] == Finite(delta)
    requires forall c | 1 <= c <= n && !used[c] :: !Below(minv[c], Finite(delta))
    ensures delta >= 0.0
    ensures forall c | 1 <= c <= n && !used[c] :: minv[c].Finite? && delta <= minv[c].value
  {
    assert LeastSlack(cost, n, u, v, p, way, used, minv, j1);
    forall c | 1 <= c <= n && !used[c]
      ensures minv[c].Finite? && delta <= minv[c].value
    {
      assert LeastSlack(cost, n, u, v, p, way, used, minv, c);
      assert 1 <= p[0] <= n && used[0];
    }
  }

  /** After the shift the search stands at column `j1`. */
  lemma ShiftSearches(cost: Matrix, n: nat, i: nat, u: seq<real>, v: seq<real>, p: seq<nat>, way: seq<nat>,
                      used: seq<bool>, minv: seq<Slack>, level: seq<nat>, time: nat, delta: real,
                      u': seq<real>, v': seq<real>, minv': seq<Slack>, j1: nat)
    requires Scanned(cost, n, i, u, v, p, way, used, minv, level, time) && used[0] && delta >= 0.0
    requires Shifted(n, p, used, delta, u, v, minv, u', v', minv')
    requires forall c | 1 <= c <= n && !used[c] :: minv[c].Finite? && delta <= minv[c].value
    requires 1 <= j1 <= n && !used[j1] && minv[j1] == Finite(delta)
    ensures Searching(cost, n, i, u', v', p, way, used, minv', level, time, j1)
  {
    ShiftKeepsFeasible(cost, n, i, u, v, p, way, used, minv, level, time, delta, u', v', minv');
    ShiftKeepsTree(cost, n, i, u, v, p, way, used, minv, level, time, delta, u', v', minv');
    ShiftKeepsFrontier(cost, n, i, u, v, p, way, used, minv, level, time, delta, u', v', minv');
    ShiftLinks(cost, n, i, u, v, p, way, used, minv, level, time, delta, u', v', minv', j1);
  }

  /** One pass of the search loop. */
  method SearchStep(cost: Matrix, n: nat, i: nat, u: array<real>, v: array<real>, p: array<nat>,
                    way: array<nat>, used: array<bool>, minv: array<Slack>, ghost level: seq<nat>,
                    ghost time: nat, j0: nat)
    returns (j1: nat)
    requires u.Length == v.Length == p.Length == way.Length == used.Length == minv.Length == n + 1
    requires u != v && p != way
    requires Searching(cost, n, i, u[..], v[..], p[..], way[..], used[..], minv[..], level, time, j0)
    requires p[j0] != 0
    modifies u, v, way, used, minv
    ensures used[..] == old(used[..])[j0 := true]
    ensures Searching(cost, n, i, u[..], v[..], p[..], way[..], used[..], minv[..], level[j0 := time], time + 1, j1)
  {
    var delta, next := MarkAndRelax(cost, n, i, u, v, p, way, used, minv, level, time, j0);
    j1 := ShiftAndAdvance(cost, n, i, u, v, p, way, used, minv, level[j0 := time], time + 1, delta, next);
  }

  /** How many of the first `k` columns are not yet marked. */
  ghost function Open(used: seq<bool>, k: nat): nat
    requires k <= |used|
  {
    if k == 0 then 0 else Open(used, k - 1) + if used[k-1] then 0 else 1
  }

  lemma {:induction false} MarkClosesOne(used: seq<bool>, j: nat, k: nat)
    requires k <= |used| && j < |used| && !used[j]
    ensures Open(used[j := true], k) == Open(used, k) - if j < k then 1 else 0
  {
    if k > 0 {
      MarkClosesOne(used, j, k - 1);
    }
  }

  /** Pass after pass from column 0 until the search stands at a column without a row. */
  method GrowTree(cost: Matrix, n: nat, i: nat, u: array<real>, v: array<real>, p: array<nat>,
                  way: array<nat>, used: array<bool>, minv: array<Slack>, ghost level0: seq<nat>)
    returns (j0: nat, ghost level: seq<nat>, ghost time: nat)
    requires u.Length == v.Length == p.Length == way.Length == used.Length == minv.Length == n + 1
    requires u != v && p != way
    requires Searching(cost, n, i, u[..], v[..], p[..], way[..], used[..], minv[..], level0, 0, 0)
    modifies u, v, way, used, minv
    ensures Searching(cost, n, i, u[..], v[..], p[..], way[..], used[..], minv[..], level, time, j0) && p[j0] == 0
  {
    j0, level, time := 0, level0, 0;
    while p[j0] != 0
      invariant Searching(cost, n, i, u[..], v[..], p[..], way[..], used[..], minv[..], level, time, j0)
      decreases Open(used[..], n + 1)
    {
      MarkClosesOne(used[..], j0, n + 1);
      var j1 := SearchStep(cost, n, i, u, v, p, way, used, minv, level, time, j0);
      level, time := level[j0 := time], time + 1;
      j0 := j1;
    }
  }

  /** Grow the tree of tight edges from row `i` until it reaches a free column. */
  method FindFreeColumn(cost: Matrix, n: nat, i: nat, u: array<real>, v: array<real>, p: array<nat>,
                        way: array<nat>, used: array<bool>)
    returns (j0: nat, ghost level: seq<nat>, ghost time: nat)
    requires u.Length == v.Length == p.Length == way.Length == used.Length == n + 1
    requires u != v && p != way
    requires 1 <= i <= n && Feasible(cost, n, u[..], v[..])
    requires Distinct(n, p[..], i) && p[0] == i && Tight(cost, n, u[..], v[..], p[..], 0)
    requires forall c | 0 <= c <= n :: !used[c]
    modifies u, v, way, used
    ensures Feasible(cost, n, u[..], v[..]) && Tight(cost, n, u[..], v[..], p[..], 0)
    ensures Tree(cost, n, u[..], v[..], p[..], way[..], used[..], level, time)
    ensures 1 <= j0 <= n && p[j0] == 0 && !used[j0]
    ensures Linked(cost, n, u[..], v[..], p[..], way[..], used[..], j0)
  {
    var minv := new Slack[n+1](_ => Infinite);
    level := seq(n + 1, _ => 0);
    SearchStarts(cost, n, i, u[..], v[..], p[..], way[..], used[..], minv[..], level);
    j0, level, time := GrowTree(cost, n, i, u, v, p, way, used, minv, level);
    SearchEnds(cost, n, i, u[..], v[..], p[..], way[..], used[..], minv[..], level, time, j0);
  }

  /** At a free column the search has what the augmentation needs. */
  lemma SearchEnds(cost: Matrix, n: nat, i: nat, u: seq<real>, v: seq<real>, p: seq<nat>, way: seq<nat>,
                   used: seq<bool>, minv: seq<Slack>, level: seq<nat>, time: nat, j0: nat)
    requires Searching(cost, n, i, u, v, p, way, used, minv, level, time, j0) && p[j0] == 0
    ensures Feasible(cost, n, u, v) && Tight(cost, n, u, v, p, 0) && Tree(cost, n, u, v, p, way, used, level, time)
    ensures 1 <= j0 <= n && !used[j0] && Linked(cost, n, u, v, p, way, used, j0)
  {
  }

  method InsertRow(cost: Matrix, n: nat, i: nat, u: array<real>, v: array<real>, p: array<nat>, way: array<nat>)
    requires u.Length == v.Length == p.Length == way.Length == n + 1 && u != v && p != way
    requires 1 <= i <= n && Inserted(cost, n, u[..], v[..], p[..], i - 1)
    modifies u, v, p, way
    ensures Inserted(cost, n, u[..], v[..], p[..], i)
  {
    ghost var p0 := p[..];
    p[0] := i;
    assert p[..] == p0[0 := i];
    ParkedDistinct(cost, n, u[..], v[..], p0, i);
    var used := new bool[n+1](_ => false);
    var j0; ghost var level, time;
    j0, level, time := FindFreeColumn(cost, n, i, u, v, p, way, used);
    ParkRow(n, p0, i, j0);
    Augment(cost, n, i, u[..], v[..], p, way, used[..], level, time, j0);
  }

  /** Insert the rows one by one. The result holds every row in exactly one column, at zero reduced
      cost under potentials that leave no reduced cost negative. */
  method Solve(cost: Matrix, n: nat) returns (p: array<nat>, ghost u: seq<real>, ghost v: seq<real>)
    requires Shape(cost, n, n)
    requires forall r, c | 0 <= r < n && 0 <= c < n :: cost[r][c] >= 0.0
    ensures fresh(p) && p.Length == n + 1
    ensures Inserted(cost, n, u, v, p[..], n)
  {
    var us := new real[n+1](_ => 0.0);
    var vs := new real[n+1](_ => 0.0);
    p := new nat[n+1](_ => 0);
    var way := new nat[n+1](_ => 0);
    for i := 1 to n + 1
      invariant Inserted(cost, n, us[..], vs[..], p[..], i - 1)
    {
      InsertRow(cost, n, i, us, vs, p, way);
    }
    u, v := us[..], vs[..];
  }
}
