/** The sorted edge and triangle events of a finite metric, and what processing them in order must give. */
module EventOrder {
  import opened Prelude
  import opened Graph
  import opened TriangleCount
  import opened Sorting

  type Matrix = seq<seq<real>>

  datatype Event = EdgeEvent(dist: real, i: nat, j: nat) | TriangleEvent(dist: real)

  /** By distance; at equal distance edges come before triangles. */
  predicate Before(a: Event, b: Event) {
    a.dist < b.dist || (a.dist == b.dist && (a.EdgeEvent? || b.TriangleEvent?))
  }

  lemma BeforeOrders()
    ensures Total(Before) && Transitive(Before)
  {
  }

  ghost predicate Distances(dist: Matrix, n: nat) {
    && |dist| == n && (forall i | 0 <= i < n :: |dist[i]| == n)
    && (forall i, j | 0 <= i < n && 0 <= j < n :: dist[i][j] >= 0.0 && dist[i][j] == dist[j][i])
  }

  function Longest(dist: Matrix, i: nat, j: nat, k: nat): (d: real)
    requires i < |dist| && j < |dist| && j < |dist[i]| && k < |dist[i]| && k < |dist[j]|
    ensures d >= dist[i][j] && d >= dist[j][k] && d >= dist[i][k]
    ensures d == dist[i][j] || d == dist[j][k] || d == dist[i][k]
  {
    Max(Max(dist[i][j], dist[j][k]), dist[i][k])
  }

  /** The triples i < j < k below `n` whose longest side is at least `d`. */
  ghost function TriplesFrom(dist: Matrix, n: nat, d: real): (t: set<Triple>)
    requires Distances(dist, n)
    ensures forall i: nat, j: nat, k: nat ::
              (i, j, k) in t <==> i < j && j < k && k < n && Longest(dist, i, j, k) >= d
  {
    set i: nat, j: nat, k: nat | i < n && j < n && k < n && i < j && j < k && Longest(dist, i, j, k) >= d :: (i, j, k)
  }

  /** Triangle events at distance `d` or later. */
  function LateTriangles(ev: seq<Event>, d: real): nat {
    if ev == [] then 0
    else LateTriangles(ev[1..], d) + if ev[0].TriangleEvent? && ev[0].dist >= d then 1 else 0
  }

  ghost predicate Occurs(ev: seq<Event>, i: nat, j: nat, d: real) {
    EdgeEvent(d, i, j) in ev
  }

  /** `ev` is every edge once and every triangle once, in filtration order. */
  ghost predicate Filtration(dist: Matrix, n: nat, ev: seq<Event>) {
    && Distances(dist, n)
    && Sorted(ev, Before)
    && (forall a | 0 <= a < |ev| :: ev[a].dist >= 0.0)
    && (forall a | 0 <= a < |ev| && ev[a].EdgeEvent? ::
          ev[a].i < ev[a].j < n && ev[a].dist == dist[ev[a].i][ev[a].j])
    && (forall a, b | 0 <= a < b < |ev| && ev[a].EdgeEvent? :: ev[a] != ev[b])
    && (forall i, j | 0 <= i < j < n :: Occurs(ev, i, j, dist[i][j]))
    && (forall d :: LateTriangles(ev, d) == TripleTotal(TriplesFrom(dist, n, d), n))
  }

  // ----- prefixes: the graph built so far

  ghost function EdgesOf(ev: seq<Event>, t: nat): set<Edge>
    requires t <= |ev|
  {
    if t == 0 then {}
    else if ev[t-1].EdgeEvent? then EdgesOf(ev, t - 1) + {(ev[t-1].i, ev[t-1].j)}
    else EdgesOf(ev, t - 1)
  }

  lemma {:induction false} InEdgesOf(ev: seq<Event>, t: nat, e: Edge)
    requires t <= |ev|
    ensures e in EdgesOf(ev, t) <==> exists a :: 0 <= a < t && ev[a].EdgeEvent? && (ev[a].i, ev[a].j) == e
  {
    if t > 0 {
      InEdgesOf(ev, t - 1, e);
      if ev[t-1].EdgeEvent? && (ev[t-1].i, ev[t-1].j) == e {
        assert 0 <= t - 1 < t;
      }
    }
  }

  lemma {:induction false} EdgesInGraph(dist: Matrix, n: nat, ev: seq<Event>, t: nat)
    requires Filtration(dist, n, ev) && t <= |ev|
    ensures InGraph(n, EdgesOf(ev, t))
  {
    if t > 0 {
      EdgesInGraph(dist, n, ev, t - 1);
    }
  }

  /** Event `t` is an edge between two components of the graph built so far. */
  ghost predicate Joins(ev: seq<Event>, t: nat)
    requires t < |ev|
  {
    ev[t].EdgeEvent? && !Connected(EdgesOf(ev, t), ev[t].i, ev[t].j)
  }

  /** Event `t` is an edge that closes a cycle. */
  ghost predicate Closes(ev: seq<Event>, t: nat)
    requires t < |ev|
  {
    ev[t].EdgeEvent? && Connected(EdgesOf(ev, t), ev[t].i, ev[t].j)
  }

  ghost function JoinCount(ev: seq<Event>, t: nat): nat
    requires t <= |ev|
  {
    if t == 0 then 0 else JoinCount(ev, t - 1) + if Joins(ev, t - 1) then 1 else 0
  }

  /** Each join lowers the number of components by one; nothing else changes it. */
  lemma {:induction false} JoinsAndComponents(dist: Matrix, n: nat, ev: seq<Event>, t: nat)
    requires Filtration(dist, n, ev) && t <= |ev|
    ensures JoinCount(ev, t) + Components(n, EdgesOf(ev, t)) == n
  {
    if t == 0 {
      NoEdges(n);
    } else {
      JoinsAndComponents(dist, n, ev, t - 1);
      EdgesInGraph(dist, n, ev, t - 1);
      if ev[t-1].EdgeEvent? {
        AddEdge(n, EdgesOf(ev, t - 1), ev[t-1].i, ev[t-1].j);
      }
    }
  }

  lemma AllEdges(dist: Matrix, n: nat, ev: seq<Event>, i: nat, j: nat)
    requires Filtration(dist, n, ev) && i < j < n
    ensures (i, j) in EdgesOf(ev, |ev|)
  {
    assert Occurs(ev, i, j, dist[i][j]);
    InEdgesOf(ev, |ev|, (i, j));
  }

  /** The complete graph is connected. */
  lemma FinallyConnected(dist: Matrix, n: nat, ev: seq<Event>)
    requires Filtration(dist, n, ev) && n > 0
    ensures Components(n, EdgesOf(ev, |ev|)) == 1
  {
    var es := EdgesOf(ev, |ev|);
    EdgesInGraph(dist, n, ev, |ev|);
    forall x: nat, y: nat | x < n && y < n
      ensures Connected(es, x, y)
    {
      if x == y {
        ConnectedSelf(es, x);
      } else {
        AllEdges(dist, n, ev, if x < y then x else y, if x < y then y else x);
        ConnectedEdge(es, x, y);
      }
    }
    OneComponent(n, es);
  }

  /** There are exactly n - 1 joins. */
  lemma JoinTotal(dist: Matrix, n: nat, ev: seq<Event>)
    requires Filtration(dist, n, ev) && n > 0
    ensures JoinCount(ev, |ev|) == n - 1
  {
    JoinsAndComponents(dist, n, ev, |ev|);
    FinallyConnected(dist, n, ev);
  }

  // ----- suffixes: what is still to come

  ghost function LaterEdges(ev: seq<Event>, p: nat): set<Edge>
    requires p <= |ev|
    decreases |ev| - p
  {
    if p == |ev| then {}
    else if ev[p].EdgeEvent? then LaterEdges(ev, p + 1) + {(ev[p].i, ev[p].j)}
    else LaterEdges(ev, p + 1)
  }

  ghost function CyclesFrom(ev: seq<Event>, p: nat): nat
    requires p <= |ev|
    decreases |ev| - p
  {
    if p == |ev| then 0 else CyclesFrom(ev, p + 1) + if Closes(ev, p) then 1 else 0
  }

  ghost function JoinsFrom(ev: seq<Event>, p: nat): nat
    requires p <= |ev|
    decreases |ev| - p
  {
    if p == |ev| then 0 else JoinsFrom(ev, p + 1) + if Joins(ev, p) then 1 else 0
  }

  ghost function TrianglesFrom(ev: seq<Event>, p: nat): nat
    requires p <= |ev|
    decreases |ev| - p
  {
    if p == |ev| then 0 else TrianglesFrom(ev, p + 1) + if ev[p].TriangleEvent? then 1 else 0
  }

  lemma {:induction false} InLaterEdges(ev: seq<Event>, p: nat, e: Edge)
    requires p <= |ev|
    ensures e in LaterEdges(ev, p) <==> exists a :: p <= a < |ev| && ev[a].EdgeEvent? && (ev[a].i, ev[a].j) == e
    decreases |ev| - p
  {
    if p < |ev| {
      InLaterEdges(ev, p + 1, e);
      if ev[p].EdgeEvent? && (ev[p].i, ev[p].j) == e {
        assert p <= p < |ev|;
      }
    }
  }

  /** No edge comes twice. */
  lemma EdgeFresh(dist: Matrix, n: nat, ev: seq<Event>, p: nat)
    requires Filtration(dist, n, ev) && p < |ev| && ev[p].EdgeEvent?
    ensures (ev[p].i, ev[p].j) !in LaterEdges(ev, p + 1)
  {
    InLaterEdges(ev, p + 1, (ev[p].i, ev[p].j));
  }

  lemma {:induction false} LaterTotal(dist: Matrix, n: nat, ev: seq<Event>, p: nat)
    requires Filtration(dist, n, ev) && p <= |ev|
    ensures EdgeTotal(LaterEdges(ev, p), n) == CyclesFrom(ev, p) + JoinsFrom(ev, p)
    decreases |ev| - p
  {
    if p == |ev| {
      EmptyTotals(n);
    } else {
      LaterTotal(dist, n, ev, p + 1);
      if ev[p].EdgeEvent? {
        EdgeFresh(dist, n, ev, p);
        AddToEdges(LaterEdges(ev, p + 1), (ev[p].i, ev[p].j), n);
      }
    }
  }

  lemma {:induction false} FullDegree(s: set<Edge>, v: nat, m: nat)
    requires m <= v && forall i: nat | i < v :: (i, v) in s
    ensures Degree(s, v, m) == m
  {
    if m > 0 {
      FullDegree(s, v, m - 1);
    }
  }

  lemma {:induction false} FullTotal(s: set<Edge>, m: nat)
    requires forall i: nat, j: nat | i < j && j < m :: (i, j) in s
    ensures 2 * EdgeTotal(s, m) == m * (m - 1)
  {
    if m > 0 {
      FullTotal(s, m - 1);
      FullDegree(s, m - 1, m - 1);
    }
  }

  lemma {:induction false} JoinsSplit(ev: seq<Event>, t: nat)
    requires t <= |ev|
    ensures JoinCount(ev, t) + JoinsFrom(ev, t) == JoinCount(ev, |ev|)
    decreases |ev| - t
  {
    if t < |ev| {
      JoinsSplit(ev, t + 1);
    }
  }

  lemma {:induction false} CyclesShrink(ev: seq<Event>, p: nat)
    requires p <= |ev|
    ensures CyclesFrom(ev, p) <= CyclesFrom(ev, 0)
  {
    if p > 0 {
      CyclesShrink(ev, p - 1);
    }
  }

  /** Exactly (n-1)(n-2)/2 edges close a cycle. */
  lemma CycleTotal(dist: Matrix, n: nat, ev: seq<Event>)
    requires Filtration(dist, n, ev) && n > 0
    ensures 2 * CyclesFrom(ev, 0) == (n - 1) * (n - 2)
  {
    LaterTotal(dist, n, ev, 0);
    JoinsSplit(ev, 0);
    JoinTotal(dist, n, ev);
    forall i: nat, j: nat | i < j && j < n
      ensures (i, j) in LaterEdges(ev, 0)
    {
      assert Occurs(ev, i, j, dist[i][j]);
      InLaterEdges(ev, 0, (i, j));
    }
    FullTotal(LaterEdges(ev, 0), n);
  }

  /** Triangles no earlier than an edge all come after it. */
  lemma {:induction false} LateAreLater(ev: seq<Event>, p: nat, d: real, q: nat)
    requires Sorted(ev, Before) && p < |ev| && ev[p].EdgeEvent? && ev[p].dist == d && q <= |ev|
    ensures LateTriangles(ev[q..], d) <= TrianglesFrom(ev, if q < p then p else q)
    decreases |ev| - q
  {
    if q < |ev| {
      LateAreLater(ev, p, d, q + 1);
      assert ev[q..][1..] == ev[q+1..];
      if q < p {
        assert Before(ev[q], ev[p]);
      }
    }
  }

  /** The sides of a touching triangle that lie in the suffix make the triangle late. */
  lemma SuffixCovered(dist: Matrix, n: nat, ev: seq<Event>, p: nat)
    requires Filtration(dist, n, ev) && p < |ev|
    ensures Covers(TriplesFrom(dist, n, ev[p].dist), LaterEdges(ev, p), n)
  {
    var s, d := LaterEdges(ev, p), ev[p].dist;
    forall i: nat, j: nat, k: nat | i < j && j < k && k < n && Touches(s, i, j, k)
      ensures (i, j, k) in TriplesFrom(dist, n, d)
    {
      if (i, j) in s {
        LaterDistance(dist, n, ev, p, i, j);
      } else if (j, k) in s {
        LaterDistance(dist, n, ev, p, j, k);
      } else {
        LaterDistance(dist, n, ev, p, i, k);
      }
    }
  }

  lemma LaterDistance(dist: Matrix, n: nat, ev: seq<Event>, p: nat, i: nat, j: nat)
    requires Filtration(dist, n, ev) && p < |ev| && (i, j) in LaterEdges(ev, p)
    ensures i < j < n && dist[i][j] >= ev[p].dist
  {
    InLaterEdges(ev, p, (i, j));
    var a :| p <= a < |ev| && ev[a].EdgeEvent? && (ev[a].i, ev[a].j) == (i, j);
    if p < a {
      assert Before(ev[p], ev[a]);
    }
  }

  /** In every suffix the triangles outnumber the edges that close a cycle. */
  lemma {:induction false} SuffixBalance(dist: Matrix, n: nat, ev: seq<Event>, p: nat)
    requires Filtration(dist, n, ev) && n >= 2 && p <= |ev|
    ensures CyclesFrom(ev, p) <= TrianglesFrom(ev, p)
    decreases |ev| - p
  {
    if p < |ev| {
      if ev[p].TriangleEvent? {
        SuffixBalance(dist, n, ev, p + 1);
      } else {
        var d := ev[p].dist;
        LaterTotal(dist, n, ev, p);
        CycleTotal(dist, n, ev);
        CyclesShrink(ev, p);
        SuffixCovered(dist, n, ev, p);
        TrianglesSuffice(TriplesFrom(dist, n, d), LaterEdges(ev, p), n, CyclesFrom(ev, p));
        LateAreLater(ev, p, d, 0);
        assert ev[0..] == ev;
      }
    }
  }
}
