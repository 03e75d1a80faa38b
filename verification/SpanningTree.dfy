/** The edges that join components form a minimum spanning tree (Kruskal). */
module SpanningTree {
  import opened Prelude
  import opened Graph
  import opened TriangleCount
  import opened Sorting
  import opened EventOrder

  // ----- the weight of a set of edges

  function Entry(dist: Matrix, s: set<Edge>, i: nat, j: nat): real
    requires i < |dist| && j < |dist[i]|
  {
    if (i, j) in s then dist[i][j] else 0.0
  }

  function Column(dist: Matrix, s: set<Edge>, j: nat, m: nat): real
    requires m <= |dist| && forall i | 0 <= i < |dist| :: j < |dist[i]|
  {
    if m == 0 then 0.0 else Column(dist, s, j, m - 1) + Entry(dist, s, m - 1, j)
  }

  /** The total length of the edges (i, j) of `s` with i < j < m. */
  function Weight(dist: Matrix, s: set<Edge>, m: nat): real
    requires m <= |dist| && forall i | 0 <= i < |dist| :: |dist[i]| == |dist|
  {
    if m == 0 then 0.0 else Weight(dist, s, m - 1) + Column(dist, s, m - 1, m - 1)
  }

  lemma {:induction false} AddColumn(dist: Matrix, s: set<Edge>, e: Edge, j: nat, m: nat)
    requires m <= |dist| && (forall i | 0 <= i < |dist| :: |dist[i]| == |dist|) && j < |dist|
    requires e !in s && e.0 < |dist| && e.1 < |dist|
    ensures Column(dist, s + {e}, j, m) == Column(dist, s, j, m) + if j == e.1 && e.0 < m then dist[e.0][e.1] else 0.0
  {
    if m > 0 {
      AddColumn(dist, s, e, j, m - 1);
    }
  }

  lemma {:induction false} AddWeight(dist: Matrix, s: set<Edge>, e: Edge, m: nat)
    requires m <= |dist| && (forall i | 0 <= i < |dist| :: |dist[i]| == |dist|)
    requires e !in s && e.0 < e.1 < |dist|
    ensures Weight(dist, s + {e}, m) == Weight(dist, s, m) + if e.1 < m then dist[e.0][e.1] else 0.0
  {
    if m > 0 {
      AddWeight(dist, s, e, m - 1);
      AddColumn(dist, s, e, m - 1, m - 1);
    }
  }

  lemma {:induction false} EmptyColumn(dist: Matrix, j: nat, m: nat)
    requires m <= |dist| && forall i | 0 <= i < |dist| :: j < |dist[i]|
    ensures Column(dist, {}, j, m) == 0.0
  {
    if m > 0 {
      EmptyColumn(dist, j, m - 1);
    }
  }

  lemma {:induction false} EmptyWeight(dist: Matrix, m: nat)
    requires m <= |dist| && forall i | 0 <= i < |dist| :: |dist[i]| == |dist|
    ensures Weight(dist, {}, m) == 0.0
  {
    if m > 0 {
      EmptyWeight(dist, m - 1);
      EmptyColumn(dist, m - 1, m - 1);
    }
  }

  // ----- the tree

  /** The edges that joined two components, from event `p` on. */
  ghost function TreeFrom(ev: seq<Event>, p: nat): set<Edge>
    requires p <= |ev|
    decreases |ev| - p
  {
    if p == |ev| then {}
    else if Joins(ev, p) then TreeFrom(ev, p + 1) + {(ev[p].i, ev[p].j)}
    else TreeFrom(ev, p + 1)
  }

  ghost function Tree(ev: seq<Event>): set<Edge> {
    TreeFrom(ev, 0)
  }

  /** The tree edges accepted before event `t`. */
  ghost function TreeUpTo(ev: seq<Event>, t: nat): set<Edge>
    requires t <= |ev|
  {
    if t == 0 then {}
    else if Joins(ev, t - 1) then TreeUpTo(ev, t - 1) + {(ev[t-1].i, ev[t-1].j)}
    else TreeUpTo(ev, t - 1)
  }

  lemma {:induction false} TreeSplit(ev: seq<Event>, t: nat)
    requires t <= |ev|
    ensures Tree(ev) == TreeUpTo(ev, t) + TreeFrom(ev, t)
  {
    if t > 0 {
      TreeSplit(ev, t - 1);
    }
  }

  lemma {:induction false} TreeWithinLater(ev: seq<Event>, p: nat)
    requires p <= |ev|
    ensures TreeFrom(ev, p) <= LaterEdges(ev, p)
    decreases |ev| - p
  {
    if p < |ev| {
      TreeWithinLater(ev, p + 1);
    }
  }

  /** One labelling represents both the tree so far and the graph so far. */
  lemma {:induction false} TreeLabelling(dist: Matrix, n: nat, ev: seq<Event>, t: nat) returns (lab: seq<nat>)
    requires Filtration(dist, n, ev) && t <= |ev|
    ensures InGraph(n, TreeUpTo(ev, t)) && InGraph(n, EdgesOf(ev, t))
    ensures Represents(n, lab, TreeUpTo(ev, t)) && Represents(n, lab, EdgesOf(ev, t))
  {
    if t == 0 {
      lab := seq(n, i => i);
      IdentityRepresents(n);
    } else {
      lab := TreeLabelling(dist, n, ev, t - 1);
      if ev[t-1].EdgeEvent? {
        var i, j := ev[t-1].i, ev[t-1].j;
        assert i < j < n;
        JoinRepresents(n, lab, EdgesOf(ev, t - 1), i, j, lab[i], lab[j]);
        LabelsAgree(n, lab, EdgesOf(ev, t - 1), i, j);
        if Joins(ev, t - 1) {
          JoinRepresents(n, lab, TreeUpTo(ev, t - 1), i, j, lab[i], lab[j]);
          lab := Join(lab, lab[i], lab[j]);
        } else {
          assert Join(lab, lab[i], lab[j]) == lab;
        }
      }
    }
  }

  lemma {:induction false} TreeSize(dist: Matrix, n: nat, ev: seq<Event>, p: nat)
    requires Filtration(dist, n, ev) && p <= |ev|
    ensures EdgeTotal(TreeFrom(ev, p), n) == JoinsFrom(ev, p)
    decreases |ev| - p
  {
    if p == |ev| {
      EmptyTotals(n);
    } else {
      TreeSize(dist, n, ev, p + 1);
      if Joins(ev, p) {
        EdgeFresh(dist, n, ev, p);
        TreeWithinLater(ev, p + 1);
        AddToEdges(TreeFrom(ev, p + 1), (ev[p].i, ev[p].j), n);
      }
    }
  }

  /** A set of edges i < j < n that connects all vertices. */
  ghost predicate Spanning(n: nat, s: set<Edge>) {
    (forall e <- s :: e.0 < e.1 < n) && Components(n, s) == 1
  }

  /** The joining edges are a spanning tree: they connect all n vertices with n - 1 edges. */
  lemma TreeSpans(dist: Matrix, n: nat, ev: seq<Event>)
    requires Filtration(dist, n, ev) && n > 0
    ensures Spanning(n, Tree(ev)) && EdgeTotal(Tree(ev), n) == n - 1
  {
    var lab := TreeLabelling(dist, n, ev, |ev|);
    TreeSplit(ev, |ev|);
    assert Tree(ev) == TreeUpTo(ev, |ev|);
    CountLabels(n, lab, TreeUpTo(ev, |ev|), n);
    CountLabels(n, lab, EdgesOf(ev, |ev|), n);
    FinallyConnected(dist, n, ev);
    TreeSize(dist, n, ev, 0);
    JoinsSplit(ev, 0);
    JoinTotal(dist, n, ev);
    TreeWithinLater(ev, 0);
    forall e | e in Tree(ev)
      ensures e.0 < e.1 < n
    {
      InLaterEdges(ev, 0, e);
    }
  }

  // ----- minimality

  ghost predicate Chosen(ev: seq<Event>, s: set<Edge>, p: nat)
    requires p < |ev|
  {
    ev[p].EdgeEvent? && (ev[p].i, ev[p].j) in s
  }

  ghost function ChosenFrom(ev: seq<Event>, s: set<Edge>, p: nat): nat
    requires p <= |ev|
    decreases |ev| - p
  {
    if p == |ev| then 0 else ChosenFrom(ev, s, p + 1) + if Chosen(ev, s, p) then 1 else 0
  }

  ghost function LengthFrom(ev: seq<Event>, s: set<Edge>, p: nat): real
    requires p <= |ev|
    decreases |ev| - p
  {
    if p == |ev| then 0.0 else LengthFrom(ev, s, p + 1) + if Chosen(ev, s, p) then ev[p].dist else 0.0
  }

  ghost function DeathsFrom(ev: seq<Event>, p: nat): real
    requires p <= |ev|
    decreases |ev| - p
  {
    if p == |ev| then 0.0 else DeathsFrom(ev, p + 1) + if Joins(ev, p) then ev[p].dist else 0.0
  }

  /** Adding the chosen edges of a suffix merges at most one component per edge. */
  lemma {:induction false} ChosenMerge(dist: Matrix, n: nat, ev: seq<Event>, s: set<Edge>, p: nat)
    requires Filtration(dist, n, ev) && p <= |ev|
    ensures Components(n, s * EdgesOf(ev, p)) <= Components(n, s * EdgesOf(ev, |ev|)) + ChosenFrom(ev, s, p)
    decreases |ev| - p
  {
    if p < |ev| {
      ChosenMerge(dist, n, ev, s, p + 1);
      ChosenStep(dist, n, ev, s, p);
    }
  }

  lemma ChosenStep(dist: Matrix, n: nat, ev: seq<Event>, s: set<Edge>, p: nat)
    requires Filtration(dist, n, ev) && p < |ev|
    ensures Components(n, s * EdgesOf(ev, p))
         <= Components(n, s * EdgesOf(ev, p + 1)) + if Chosen(ev, s, p) then 1 else 0
  {
    var es := EdgesOf(ev, p);
    EdgesInGraph(dist, n, ev, p);
    if Chosen(ev, s, p) {
      assert s * EdgesOf(ev, p + 1) == s * es + {(ev[p].i, ev[p].j)};
      AddEdge(n, s * es, ev[p].i, ev[p].j);
    } else {
      assert s * EdgesOf(ev, p + 1) == s * es;
    }
  }

  /** In every suffix a spanning set has at least as many edges as the tree. */
  lemma SuffixNeeds(dist: Matrix, n: nat, ev: seq<Event>, s: set<Edge>, p: nat)
    requires Filtration(dist, n, ev) && n > 0 && Spanning(n, s) && p <= |ev|
    ensures JoinsFrom(ev, p) <= ChosenFrom(ev, s, p)
  {
    ChosenMerge(dist, n, ev, s, p);
    assert s * EdgesOf(ev, |ev|) == s by {
      forall e | e in s
        ensures e in EdgesOf(ev, |ev|)
      {
        AllEdges(dist, n, ev, e.0, e.1);
      }
    }
    ComponentsMono(n, s * EdgesOf(ev, p), EdgesOf(ev, p));
    JoinsAndComponents(dist, n, ev, p);
    JoinsSplit(ev, p);
    JoinTotal(dist, n, ev);
  }

  /** One step of summation by parts, on plain numbers. */
  lemma PartsStep(d: real, next: real, lead: int, rest: real, c: bool, j: bool)
    requires d <= next && lead >= 0 && rest >= next * lead as real
    ensures rest + (if c then d else 0.0) - (if j then d else 0.0)
         >= d * (lead + (if c then 1 else 0) - (if j then 1 else 0)) as real
  {
    Scale(d, next, lead as real);
    if c && !j {
      OneMore(d, lead);
    } else if j && !c {
      OneMore(d, lead - 1);
    }
  }

  lemma OneMore(d: real, k: int)
    ensures d * (k + 1) as real == d * k as real + d
  {
    assert (k + 1) as real == k as real + 1.0;
  }

  lemma Scale(a: real, b: real, x: real)
    requires a <= b && x >= 0.0
    ensures a * x <= b * x
  {
  }

  /** The edges chosen minus the edges joined, and the difference in length, from event `p` on. */
  ghost function Lead(ev: seq<Event>, s: set<Edge>, p: nat): int
    requires p <= |ev|
  {
    ChosenFrom(ev, s, p) - JoinsFrom(ev, p)
  }

  ghost function Excess(ev: seq<Event>, s: set<Edge>, p: nat): real
    requires p <= |ev|
  {
    LengthFrom(ev, s, p) - DeathsFrom(ev, p)
  }

  lemma ExcessStep(ev: seq<Event>, s: set<Edge>, p: nat, next: real)
    requires p < |ev| && ev[p].dist <= next && Lead(ev, s, p + 1) >= 0
    requires Excess(ev, s, p + 1) >= next * Lead(ev, s, p + 1) as real
    ensures Excess(ev, s, p) >= ev[p].dist * Lead(ev, s, p) as real
  {
    PartsStep(ev[p].dist, next, Lead(ev, s, p + 1), Excess(ev, s, p + 1), Chosen(ev, s, p), Joins(ev, p));
  }

  lemma ExcessLast(ev: seq<Event>, s: set<Edge>)
    requires ev != []
    ensures Excess(ev, s, |ev| - 1) >= ev[|ev|-1].dist * Lead(ev, s, |ev| - 1) as real
  {
    var p := |ev| - 1;
    assert Excess(ev, s, p + 1) == 0.0 && Lead(ev, s, p + 1) == 0;
    ExcessStep(ev, s, p, ev[p].dist);
  }

  /** Summation by parts over the sorted events. */
  lemma {:induction false} SuffixCost(ev: seq<Event>, s: set<Edge>, p: nat)
    requires Sorted(ev, Before) && p < |ev|
    requires forall q | 0 <= q <= |ev| :: Lead(ev, s, q) >= 0
    ensures Excess(ev, s, p) >= ev[p].dist * Lead(ev, s, p) as real
    decreases |ev| - p
  {
    if p + 1 < |ev| {
      SuffixCost(ev, s, p + 1);
      assert Before(ev[p], ev[p+1]);
      assert Lead(ev, s, p + 1) >= 0;
      ExcessStep(ev, s, p, ev[p+1].dist);
    } else {
      ExcessLast(ev, s);
    }
  }

  /** The order of summation does not matter. */
  lemma {:induction false} LengthIsWeight(dist: Matrix, n: nat, ev: seq<Event>, s: set<Edge>, p: nat)
    requires Filtration(dist, n, ev) && p <= |ev|
    ensures LengthFrom(ev, s, p) == Weight(dist, s * LaterEdges(ev, p), n)
    decreases |ev| - p
  {
    if p == |ev| {
      assert s * {} == {};
      EmptyWeight(dist, n);
    } else {
      LengthIsWeight(dist, n, ev, s, p + 1);
      if Chosen(ev, s, p) {
        var e := (ev[p].i, ev[p].j);
        EdgeFresh(dist, n, ev, p);
        assert s * LaterEdges(ev, p) == s * LaterEdges(ev, p + 1) + {e};
        AddWeight(dist, s * LaterEdges(ev, p + 1), e, n);
      } else {
        assert s * LaterEdges(ev, p) == s * LaterEdges(ev, p + 1);
      }
    }
  }

  lemma {:induction false} DeathsAreWeight(dist: Matrix, n: nat, ev: seq<Event>, p: nat)
    requires Filtration(dist, n, ev) && p <= |ev|
    ensures DeathsFrom(ev, p) == Weight(dist, TreeFrom(ev, p), n)
    decreases |ev| - p
  {
    if p == |ev| {
      EmptyWeight(dist, n);
    } else {
      DeathsAreWeight(dist, n, ev, p + 1);
      if Joins(ev, p) {
        EdgeFresh(dist, n, ev, p);
        TreeWithinLater(ev, p + 1);
        AddWeight(dist, TreeFrom(ev, p + 1), (ev[p].i, ev[p].j), n);
      }
    }
  }

  /** No set of edges that connects all vertices is lighter than the tree. */
  lemma TreeIsMinimal(dist: Matrix, n: nat, ev: seq<Event>, s: set<Edge>)
    requires Filtration(dist, n, ev) && n > 0 && Spanning(n, s)
    ensures Weight(dist, Tree(ev), n) <= Weight(dist, s, n)
  {
    LengthIsWeight(dist, n, ev, s, 0);
    DeathsAreWeight(dist, n, ev, 0);
    forall e | e in s
      ensures e in LaterEdges(ev, 0)
    {
      assert Occurs(ev, e.0, e.1, dist[e.0][e.1]);
      InLaterEdges(ev, 0, e);
    }
    assert s * LaterEdges(ev, 0) == s;
    TreeNotLonger(dist, n, ev, s);
  }

  lemma TreeNotLonger(dist: Matrix, n: nat, ev: seq<Event>, s: set<Edge>)
    requires Filtration(dist, n, ev) && n > 0 && Spanning(n, s)
    ensures DeathsFrom(ev, 0) <= LengthFrom(ev, s, 0)
  {
    if |ev| > 0 {
      forall q | 0 <= q <= |ev|
        ensures Lead(ev, s, q) >= 0
      {
        SuffixNeeds(dist, n, ev, s, q);
      }
      SuffixCost(ev, s, 0);
      Scale(0.0, ev[0].dist, Lead(ev, s, 0) as real);
    }
  }
}
