/** Potentials on a graph of pairwise measurements: the least-squares problem behind both inversions. */
module MeasurementGraph {
  import opened Prelude
  import opened Vectors
  import opened LeastSquares
  import opened RidgeFit
  import opened Graph

  /** `diff` measures the potential of `b` minus that of `a`. */
  datatype Measurement = Measurement(a: nat, b: nat, diff: real, weight: real)

  predicate WellFormed(n: nat, ms: seq<Measurement>) {
    && n >= 1
    && (forall k | 0 <= k < |ms| :: ms[k].a < n && ms[k].b < n && ms[k].a != ms[k].b && ms[k].weight > 0.0)
  }

  /** +1 at node b, -1 at node a, node 0 left out: its potential is fixed at zero. */
  function Row(n: nat, m: Measurement): (g: Vec)
    requires n >= 1
    ensures |g| == n - 1
    ensures forall i | 0 <= i < n - 1 :: g[i] == Sign(m, i)
  {
    seq(n - 1, i requires 0 <= i < n - 1 => Sign(m, i))
  }

  /** The coefficient of unknown `i`, the potential of node i + 1. */
  function Sign(m: Measurement, i: nat): real {
    (if i + 1 == m.b then 1.0 else 0.0) - (if i + 1 == m.a then 1.0 else 0.0)
  }

  function GraphFit(n: nat, ms: seq<Measurement>): (f: Fit)
    requires WellFormed(n, ms)
    ensures f.Valid() && f.n == n - 1 && |f.xs| == |ms|
    ensures forall k | 0 <= k < |ms| ::
              f.xs[k] == Row(n, ms[k]) && f.ws[k] == ms[k].weight && f.ys[k] == ms[k].diff
  {
    Fit(n - 1,
        seq(|ms|, k requires 0 <= k < |ms| => Row(n, ms[k])),
        seq(|ms|, k requires 0 <= k < |ms| => ms[k].weight),
        seq(|ms|, k requires 0 <= k < |ms| => ms[k].diff))
  }

  // ----- connectivity

  function EdgesOf(ms: seq<Measurement>, k: nat): set<Edge>
    requires k <= |ms|
  {
    if k == 0 then {} else EdgesOf(ms, k - 1) + {(ms[k-1].a, ms[k-1].b)}
  }

  lemma {:induction false} InEdgesOf(ms: seq<Measurement>, k: nat, e: Edge)
    requires k <= |ms|
    ensures e in EdgesOf(ms, k) <==> exists i :: 0 <= i < k && (ms[i].a, ms[i].b) == e
  {
    if k > 0 {
      InEdgesOf(ms, k - 1, e);
      if (ms[k-1].a, ms[k-1].b) == e {
        assert 0 <= k - 1 < k;
      }
    }
  }

  /** The measurements connect every node to node 0. */
  ghost predicate Anchored(n: nat, ms: seq<Measurement>) {
    forall v: nat | v < n :: Connected(EdgesOf(ms, |ms|), 0, v)
  }

  /** The potentials: node 0 at zero, then the unknowns. */
  function Potentials(x: Vec): (u: Vec)
    ensures |u| == |x| + 1 && u[0] == 0.0 && forall i | 0 <= i < |x| :: u[i+1] == x[i]
  {
    [0.0] + x
  }

  /** A row predicts the difference of the potentials of its ends. */
  lemma RowPredicts(n: nat, m: Measurement, x: Vec)
    requires n >= 1 && m.a < n && m.b < n && |x| == n - 1
    ensures Dot(Row(n, m), x, n - 1) == Potentials(x)[m.b] - Potentials(x)[m.a]
  {
    RowPrefix(n, m, x, n - 1);
    PotentialAt(x, m.a);
    PotentialAt(x, m.b);
  }

  lemma PotentialAt(x: Vec, k: nat)
    requires k <= |x|
    ensures Potentials(x)[k] == if 1 <= k <= |x| then x[k-1] else 0.0
  {
  }

  lemma {:induction false} RowPrefix(n: nat, m: Measurement, x: Vec, k: nat)
    requires n >= 1 && m.a < n && m.b < n && |x| == n - 1 && k <= n - 1
    ensures Dot(Row(n, m), x, k)
         == (if 1 <= m.b <= k then x[m.b-1] else 0.0) - (if 1 <= m.a <= k then x[m.a-1] else 0.0)
  {
    if k > 0 {
      RowPrefix(n, m, x, k - 1);
      assert Row(n, m)[k-1] == Sign(m, k - 1);
    }
  }

  /** Potentials that satisfy every edge exactly are constant along paths. */
  lemma {:induction false} PathLevel(ms: seq<Measurement>, u: Vec, p: seq<nat>)
    requires forall i | 0 <= i < |ms| :: ms[i].a < |u| && ms[i].b < |u| && u[ms[i].a] == u[ms[i].b]
    requires IsPath(EdgesOf(ms, |ms|), p) && p[0] < |u|
    ensures p[|p|-1] < |u| && u[p[|p|-1]] == u[p[0]]
    decreases |p|
  {
    if |p| > 1 {
      var es := EdgesOf(ms, |ms|);
      assert Adjacent(es, p[0], p[1]);
      InEdgesOf(ms, |ms|, (p[0], p[1]));
      InEdgesOf(ms, |ms|, (p[1], p[0]));
      assert IsPath(es, p[1..]) by {
        forall i | 0 <= i < |p[1..]| - 1
          ensures Adjacent(es, p[1..][i], p[1..][i+1])
        {
          assert Adjacent(es, p[i+1], p[i+2]);
        }
      }
      PathLevel(ms, u, p[1..]);
    }
  }

  /** On an anchored graph only zero predicts zero differences. */
  lemma AnchoredInjective(n: nat, ms: seq<Measurement>, x: Vec)
    requires WellFormed(n, ms) && Anchored(n, ms) && |x| == n - 1
    requires GraphFit(n, ms).Predict(x) == Zeros(|ms|)
    ensures x == Zeros(n - 1)
  {
    var f, u := GraphFit(n, ms), Potentials(x);
    forall k | 0 <= k < |ms|
      ensures u[ms[k].a] == u[ms[k].b]
    {
      RowPredicts(n, ms[k], x);
      assert f.Predict(x)[k] == 0.0;
    }
    forall i | 0 <= i < n - 1
      ensures x[i] == 0.0
    {
      assert Connected(EdgesOf(ms, |ms|), 0, i + 1);
      var p :| PathBetween(EdgesOf(ms, |ms|), p, 0, i + 1);
      PathLevel(ms, u, p);
    }
  }

  /** The indicator of the nodes that are not connected to node 0. */
  ghost function Detached(n: nat, es: set<Edge>): (x: Vec)
    requires n >= 1
    ensures |x| == n - 1
    ensures forall i | 0 <= i < n - 1 :: x[i] == if Connected(es, 0, i + 1) then 0.0 else 1.0
  {
    seq(n - 1, i requires 0 <= i < n - 1 => if Connected(es, 0, i + 1) then 0.0 else 1.0)
  }

  lemma DetachedLevel(n: nat, es: set<Edge>, v: nat)
    requires n >= 1 && v < n
    ensures Potentials(Detached(n, es))[v] == if Connected(es, 0, v) then 0.0 else 1.0
  {
    if v == 0 {
      ConnectedSelf(es, 0);
    }
  }

  /** Without an anchor for every node, a nonzero potential predicts zero differences. */
  lemma UnanchoredKernel(n: nat, ms: seq<Measurement>)
    requires WellFormed(n, ms) && !Anchored(n, ms)
    ensures Detached(n, EdgesOf(ms, |ms|)) != Zeros(n - 1)
    ensures GraphFit(n, ms).Predict(Detached(n, EdgesOf(ms, |ms|))) == Zeros(|ms|)
  {
    var es := EdgesOf(ms, |ms|);
    var v: nat :| v < n && !Connected(es, 0, v);
    DetachedNonzero(n, es, v);
    DetachedPredictsZero(n, ms);
  }

  lemma DetachedNonzero(n: nat, es: set<Edge>, v: nat)
    requires n >= 1 && v < n && !Connected(es, 0, v)
    ensures Detached(n, es) != Zeros(n - 1)
  {
    DetachedLevel(n, es, v);
    assert Detached(n, es)[v-1] == 1.0;
  }

  lemma DetachedPredictsZero(n: nat, ms: seq<Measurement>)
    requires WellFormed(n, ms)
    ensures GraphFit(n, ms).Predict(Detached(n, EdgesOf(ms, |ms|))) == Zeros(|ms|)
  {
    forall k | 0 <= k < |ms|
      ensures GraphFit(n, ms).Predict(Detached(n, EdgesOf(ms, |ms|)))[k] == 0.0
    {
      DetachedPredicts(n, ms, k);
    }
  }

  lemma DetachedPredicts(n: nat, ms: seq<Measurement>, k: nat)
    requires WellFormed(n, ms) && k < |ms|
    ensures GraphFit(n, ms).Predict(Detached(n, EdgesOf(ms, |ms|)))[k] == 0.0
  {
    var es, m := EdgesOf(ms, |ms|), ms[k];
    RowPredicts(n, m, Detached(n, es));
    InEdgesOf(ms, |ms|, (m.a, m.b));
    SameSide(es, m.a, m.b);
    DetachedLevel(n, es, m.a);
    DetachedLevel(n, es, m.b);
  }

  lemma SameSide(es: set<Edge>, a: nat, b: nat)
    requires (a, b) in es
    ensures Connected(es, 0, a) <==> Connected(es, 0, b)
  {
    ConnectedEdge(es, a, b);
    ConnectedEdge(es, b, a);
    if Connected(es, 0, a) {
      ConnectedTrans(es, 0, a, b);
    }
    if Connected(es, 0, b) {
      ConnectedTrans(es, 0, b, a);
    }
  }

  /** The assembled matrix is positive definite exactly when the ridge is positive or every node is
      connected to node 0. */
  lemma DefiniteIffAnchored(n: nat, ms: seq<Measurement>, mu: real, a: Mat, b: Vec)
    requires WellFormed(n, ms) && mu >= 0.0 && Assembled(GraphFit(n, ms), mu, a, b)
    ensures PositiveDefinite(a, n - 1) <==> mu > 0.0 || Anchored(n, ms)
  {
    var f := GraphFit(n, ms);
    AssembledIsNormal(f, mu, a, b);
    if mu > 0.0 {
      RidgedDefinite(f, mu, a, b);
    } else {
      DefiniteIffInjective(f, a, b);
      if Anchored(n, ms) {
        forall h: Vec | |h| == f.n && h != Zeros(f.n)
          ensures f.Predict(h) != Zeros(|f.xs|)
        {
          if f.Predict(h) == Zeros(|f.xs|) {
            AnchoredInjective(n, ms, h);
          }
        }
      } else {
        UnanchoredKernel(n, ms);
      }
    }
  }

  // ----- the objective in terms of potentials

  /** A weighted square. */
  function Cost(w: real, e: real): real {
    w * (e * e)
  }

  /** The weighted squared misfit of the first `k` measurements. */
  function EdgeMisfit(ms: seq<Measurement>, u: Vec, k: nat): real
    requires k <= |ms| && forall i | 0 <= i < |ms| :: ms[i].a < |u| && ms[i].b < |u|
  {
    if k == 0 then 0.0
    else
      var e := u[ms[k-1].b] - u[ms[k-1].a] - ms[k-1].diff;
      EdgeMisfit(ms, u, k - 1) + Cost(ms[k-1].weight, e)
  }

  /** Squared misfit of all pairs plus `mu` times the squared displacement. */
  function Energy(ms: seq<Measurement>, mu: real, u: Vec): real
    requires forall i | 0 <= i < |ms| :: ms[i].a < |u| && ms[i].b < |u|
  {
    EdgeMisfit(ms, u, |ms|) + Mul(mu, Dot(u, u, |u|))
  }

  lemma TermIsCost(w: real, e: real)
    ensures Term(e, w, e) == Cost(w, e)
  {
  }

  lemma ResidualAt(n: nat, ms: seq<Measurement>, x: Vec, k: nat)
    requires WellFormed(n, ms) && |x| == n - 1 && k < |ms|
    ensures GraphFit(n, ms).Residual(x)[k] == Potentials(x)[ms[k].b] - Potentials(x)[ms[k].a] - ms[k].diff
  {
    RowPredicts(n, ms[k], x);
  }

  lemma {:induction false} CostsAreDot(ms: seq<Measurement>, u: Vec, ws: Vec, r: Vec, k: nat)
    requires (forall i | 0 <= i < |ms| :: ms[i].a < |u| && ms[i].b < |u|) && k <= |ms| == |ws| == |r|
    requires forall i | 0 <= i < |ms| :: ws[i] == ms[i].weight && r[i] == u[ms[i].b] - u[ms[i].a] - ms[i].diff
    ensures Dot(r, Weighted(ws, r), k) == EdgeMisfit(ms, u, k)
  {
    if k > 0 {
      CostsAreDot(ms, u, ws, r, k - 1);
      DotTerm(ws, r, r, k - 1);
      TermIsCost(ws[k-1], r[k-1]);
    }
  }

  lemma MisfitIsEdgeMisfit(n: nat, ms: seq<Measurement>, x: Vec)
    requires WellFormed(n, ms) && |x| == n - 1
    ensures GraphFit(n, ms).Misfit(x) == EdgeMisfit(ms, Potentials(x), |ms|)
  {
    var f := GraphFit(n, ms);
    forall k | 0 <= k < |ms|
      ensures f.Residual(x)[k] == Potentials(x)[ms[k].b] - Potentials(x)[ms[k].a] - ms[k].diff
    {
      ResidualAt(n, ms, x, k);
    }
    CostsAreDot(ms, Potentials(x), f.ws, f.Residual(x), |ms|);
  }

  lemma PotentialNorm(x: Vec)
    ensures Dot(Potentials(x), Potentials(x), |x| + 1) == Dot(x, x, |x|)
  {
    DotConcat([0.0], x, [0.0], x, |x|);
    assert Dot([0.0], [0.0], 1) == 0.0;
  }

  lemma MisfitIsEnergy(n: nat, ms: seq<Measurement>, mu: real, x: Vec)
    requires WellFormed(n, ms) && |x| == n - 1
    ensures Ridged(GraphFit(n, ms), mu).Misfit(x) == Energy(ms, mu, Potentials(x))
  {
    var f := GraphFit(n, ms);
    RidgedMisfit(f, mu, x);
    MisfitIsEdgeMisfit(n, ms, x);
    PotentialNorm(x);
  }

  /** A solution of the assembled system minimises the energy over all potentials anchored at zero, and
      is the only minimiser when the matrix is positive definite. */
  lemma SolutionIsMinimal(n: nat, ms: seq<Measurement>, mu: real, a: Mat, b: Vec, x: Vec, z: Vec)
    requires WellFormed(n, ms) && mu >= 0.0 && Assembled(GraphFit(n, ms), mu, a, b)
    requires |x| == n - 1 && MatVec(a, x) == b && |z| == n && z[0] == 0.0
    ensures Energy(ms, mu, Potentials(x)) <= Energy(ms, mu, z)
    ensures PositiveDefinite(a, n - 1) && z != Potentials(x) ==> Energy(ms, mu, Potentials(x)) < Energy(ms, mu, z)
  {
    var f := GraphFit(n, ms);
    var r := Ridged(f, mu);
    assert z == Potentials(z[1..]);
    AssembledIsNormal(f, mu, a, b);
    MisfitIsEnergy(n, ms, mu, x);
    MisfitIsEnergy(n, ms, mu, z[1..]);
    assert Convex(r);
    SolutionMinimises(r, a, b, x, z[1..]);
  }

  // ----- assembling one measurement

  /** What one measurement adds to entry (i, j) of the matrix. */
  function Bump(m: Measurement, i: nat, j: nat): real {
    if i == j && (i + 1 == m.a || i + 1 == m.b) then m.weight
    else if (i + 1 == m.a && j + 1 == m.b) || (i + 1 == m.b && j + 1 == m.a) then -m.weight
    else 0.0
  }

  /** What one measurement adds to entry `i` of the right side. */
  function Push(m: Measurement, i: nat): real {
    if i + 1 == m.b then m.weight * m.diff else if i + 1 == m.a then -(m.weight * m.diff) else 0.0
  }

  lemma BumpIsProduct(m: Measurement, i: nat, j: nat)
    requires m.a != m.b
    ensures Bump(m, i, j) == Term(Sign(m, i), m.weight, Sign(m, j))
    ensures Push(m, i) == Term(Sign(m, i), m.weight, m.diff)
  {
    TimesSign(m.weight, Sign(m, j));
    TimesSign(m.weight * Sign(m, j), Sign(m, i));
    TimesSign(m.weight * m.diff, Sign(m, i));
  }

  lemma TimesSign(w: real, s: real)
    requires s == 1.0 || s == -1.0 || s == 0.0
    ensures s * w == if s == 1.0 then w else if s == -1.0 then -w else 0.0
    ensures w * s == if s == 1.0 then w else if s == -1.0 then -w else 0.0
  {
  }

  /** Entry (i, j) after the first `k` measurements. */
  function Entry(n: nat, ms: seq<Measurement>, i: nat, j: nat, k: nat): real
    requires k <= |ms|
  {
    if k == 0 then 0.0 else Entry(n, ms, i, j, k - 1) + Bump(ms[k-1], i, j)
  }

  function RhsEntry(ms: seq<Measurement>, i: nat, k: nat): real
    requires k <= |ms|
  {
    if k == 0 then 0.0 else RhsEntry(ms, i, k - 1) + Push(ms[k-1], i)
  }

  lemma {:induction false} EntryIsDot(n: nat, ms: seq<Measurement>, i: nat, j: nat, ws: Vec, p: Vec, q: Vec, k: nat)
    requires WellFormed(n, ms) && i < n - 1 && j < n - 1 && k <= |ms|
    requires ws == GraphFit(n, ms).ws && p == GraphFit(n, ms).Columns()[i] && q == GraphFit(n, ms).Columns()[j]
    ensures Entry(n, ms, i, j, k) == Dot(p, Weighted(ws, q), k)
  {
    if k > 0 {
      EntryIsDot(n, ms, i, j, ws, p, q, k - 1);
      BumpIsProduct(ms[k-1], i, j);
      ColumnEntry(n, ms, i, k - 1);
      ColumnEntry(n, ms, j, k - 1);
      DotTerm(ws, p, q, k - 1);
    }
  }

  lemma {:induction false} RhsIsDot(n: nat, ms: seq<Measurement>, i: nat, ws: Vec, p: Vec, ys: Vec, k: nat)
    requires WellFormed(n, ms) && i < n - 1 && k <= |ms|
    requires ws == GraphFit(n, ms).ws && p == GraphFit(n, ms).Columns()[i] && ys == GraphFit(n, ms).ys
    ensures RhsEntry(ms, i, k) == Dot(p, Weighted(ws, ys), k)
  {
    if k > 0 {
      RhsIsDot(n, ms, i, ws, p, ys, k - 1);
      BumpIsProduct(ms[k-1], i, i);
      ColumnEntry(n, ms, i, k - 1);
      DotTerm(ws, p, ys, k - 1);
    }
  }

  lemma ColumnEntry(n: nat, ms: seq<Measurement>, i: nat, k: nat)
    requires WellFormed(n, ms) && i < n - 1 && k < |ms|
    ensures GraphFit(n, ms).Columns()[i][k] == Sign(ms[k], i)
  {
    assert GraphFit(n, ms).Columns()[i][k] == GraphFit(n, ms).xs[k][i];
    assert Row(n, ms[k])[i] == Sign(ms[k], i);
  }

  /** Entrywise assembly, ridge included, is the assembled system. */
  lemma EntriesAssemble(n: nat, ms: seq<Measurement>, mu: real, a: Mat, b: Vec)
    requires WellFormed(n, ms) && Rows(a, n - 1, n - 1) && |b| == n - 1
    requires forall i, j | 0 <= i < n - 1 && 0 <= j < n - 1 ::
               a[i][j] == Entry(n, ms, i, j, |ms|) + if i == j then mu else 0.0
    requires forall i | 0 <= i < n - 1 :: b[i] == RhsEntry(ms, i, |ms|)
    ensures Assembled(GraphFit(n, ms), mu, a, b)
  {
    var f := GraphFit(n, ms);
    forall i, j | 0 <= i < n - 1 && 0 <= j < n - 1
      ensures Entry(n, ms, i, j, |ms|) == Dot(f.Columns()[i], Weighted(f.ws, f.Columns()[j]), |ms|)
    {
      EntryIsDot(n, ms, i, j, f.ws, f.Columns()[i], f.Columns()[j], |ms|);
    }
    forall i | 0 <= i < n - 1
      ensures b[i] == Dot(f.Columns()[i], Weighted(f.ws, f.ys), |ms|)
    {
      RhsIsDot(n, ms, i, f.ws, f.Columns()[i], f.ys, |ms|);
    }
  }
}
