/** What the persistence pass over sorted events computes, and the laws of its barcodes. */
module Persistence {
  import opened Prelude
  import opened Graph
  import opened Sorting
  import opened TriangleCount
  import opened EventOrder
  import opened SpanningTree

  type Pair = (real, real)

  // ----- dimension 0

  /** One bar per join, born at 0. */
  ghost function Pairs0(ev: seq<Event>, t: nat): seq<Pair>
    requires t <= |ev|
  {
    if t == 0 then []
    else if Joins(ev, t - 1) then Pairs0(ev, t - 1) + [(0.0, ev[t-1].dist)]
    else Pairs0(ev, t - 1)
  }

  function TotalPersistence(pairs: seq<Pair>): real {
    if pairs == [] then 0.0
    else TotalPersistence(pairs[..|pairs|-1]) + (pairs[|pairs|-1].1 - pairs[|pairs|-1].0)
  }

  lemma TotalAppend(pairs: seq<Pair>, p: Pair)
    ensures TotalPersistence(pairs + [p]) == TotalPersistence(pairs) + (p.1 - p.0)
  {
    assert (pairs + [p])[..|pairs|] == pairs;
  }

  /** No bar of the first `t` events dies after event `a`. */
  lemma {:induction false} DeadBefore(dist: Matrix, n: nat, ev: seq<Event>, t: nat, a: nat)
    requires Filtration(dist, n, ev) && t <= a < |ev|
    ensures forall k | 0 <= k < |Pairs0(ev, t)| :: Pairs0(ev, t)[k].1 <= ev[a].dist
  {
    if t > 0 {
      DeadBefore(dist, n, ev, t - 1, a);
      assert Before(ev[t-1], ev[a]);
    }
  }

  /** The bars of the first `t` events: how many, and in which order they die. */
  lemma {:induction false} Pairs0Shape(dist: Matrix, n: nat, ev: seq<Event>, t: nat)
    requires Filtration(dist, n, ev) && t <= |ev|
    ensures |Pairs0(ev, t)| == JoinCount(ev, t)
    ensures forall k | 0 <= k < |Pairs0(ev, t)| :: Pairs0(ev, t)[k].0 == 0.0 <= Pairs0(ev, t)[k].1
    ensures forall k, l | 0 <= k < l < |Pairs0(ev, t)| :: Pairs0(ev, t)[k].1 <= Pairs0(ev, t)[l].1
  {
    if t > 0 {
      Pairs0Shape(dist, n, ev, t - 1);
      DeadBefore(dist, n, ev, t - 1, t - 1);
    }
  }

  lemma {:induction false} TotalIsDeaths(ev: seq<Event>, t: nat)
    requires t <= |ev|
    ensures TotalPersistence(Pairs0(ev, t)) + DeathsFrom(ev, t) == DeathsFrom(ev, 0)
  {
    if t > 0 {
      TotalIsDeaths(ev, t - 1);
      if Joins(ev, t - 1) {
        TotalAppend(Pairs0(ev, t - 1), (0.0, ev[t-1].dist));
      }
    }
  }

  /** There are n - 1 bars, all born at 0, dying in order; together they are as long as a minimum
      spanning tree of the complete distance graph. */
  lemma BarcodeIsMinimumSpanningTree(dist: Matrix, n: nat, ev: seq<Event>)
    requires Filtration(dist, n, ev) && n > 0
    ensures |Pairs0(ev, |ev|)| == n - 1
    ensures forall k | 0 <= k < n - 1 :: Pairs0(ev, |ev|)[k].0 == 0.0
    ensures forall k, l | 0 <= k < l < n - 1 :: Pairs0(ev, |ev|)[k].1 <= Pairs0(ev, |ev|)[l].1
    ensures Spanning(n, Tree(ev)) && EdgeTotal(Tree(ev), n) == n - 1
    ensures TotalPersistence(Pairs0(ev, |ev|)) == Weight(dist, Tree(ev), n)
    ensures forall s | Spanning(n, s) :: Weight(dist, Tree(ev), n) <= Weight(dist, s, n)
  {
    Pairs0Shape(dist, n, ev, |ev|);
    JoinTotal(dist, n, ev);
    TreeSpans(dist, n, ev);
    TotalIsDeaths(ev, |ev|);
    DeathsAreWeight(dist, n, ev, 0);
    forall s | Spanning(n, s)
      ensures Weight(dist, Tree(ev), n) <= Weight(dist, s, n)
    {
      TreeIsMinimal(dist, n, ev, s);
    }
  }

  // ----- agreement with the threshold graph

  /** The edges no longer than `d`. */
  ghost function EdgesWithin(dist: Matrix, n: nat, d: real): (es: set<Edge>)
    requires Distances(dist, n)
    ensures forall i: nat, j: nat :: (i, j) in es <==> i < j && j < n && dist[i][j] <= d
  {
    set i: nat, j: nat | i < n && j < n && i < j && dist[i][j] <= d :: (i, j)
  }

  function DeathsWithin(pairs: seq<Pair>, d: real): nat {
    if pairs == [] then 0
    else DeathsWithin(pairs[..|pairs|-1], d) + if pairs[|pairs|-1].1 <= d then 1 else 0
  }

  lemma DeathsAppend(pairs: seq<Pair>, p: Pair, d: real)
    ensures DeathsWithin(pairs + [p], d) == DeathsWithin(pairs, d) + if p.1 <= d then 1 else 0
  {
    assert (pairs + [p])[..|pairs|] == pairs;
  }

  /** `q` events lie within distance `d`, and they come first. */
  ghost predicate Cut(ev: seq<Event>, d: real, q: nat) {
    && q <= |ev|
    && (forall a | 0 <= a < q :: ev[a].dist <= d)
    && (forall a | q <= a < |ev| :: ev[a].dist > d)
  }

  lemma FindCut(ev: seq<Event>, d: real) returns (q: nat)
    requires Sorted(ev, Before)
    ensures Cut(ev, d, q)
  {
    q := |ev|;
    while q > 0 && ev[q-1].dist > d
      invariant q <= |ev| && forall a | q <= a < |ev| :: ev[a].dist > d
    {
      q := q - 1;
    }
    forall a | 0 <= a < q
      ensures ev[a].dist <= d
    {
      if a < q - 1 {
        assert Before(ev[a], ev[q-1]);
      }
    }
  }

  lemma {:induction false} DeathsUpToCut(ev: seq<Event>, d: real, q: nat, t: nat)
    requires Cut(ev, d, q) && t <= |ev|
    ensures DeathsWithin(Pairs0(ev, t), d) == JoinCount(ev, if t < q then t else q)
  {
    if t > 0 {
      DeathsUpToCut(ev, d, q, t - 1);
      if Joins(ev, t - 1) {
        DeathsAppend(Pairs0(ev, t - 1), (0.0, ev[t-1].dist), d);
      }
    }
  }

  lemma CutGraph(dist: Matrix, n: nat, ev: seq<Event>, d: real, q: nat)
    requires Filtration(dist, n, ev) && Cut(ev, d, q)
    ensures EdgesOf(ev, q) == EdgesWithin(dist, n, d)
  {
    forall e: Edge
      ensures e in EdgesOf(ev, q) <==> e in EdgesWithin(dist, n, d)
    {
      InEdgesOf(ev, q, e);
      if e in EdgesWithin(dist, n, d) {
        assert Occurs(ev, e.0, e.1, dist[e.0][e.1]);
      }
    }
  }

  /** The barcode counts the components of every threshold graph: n minus the bars already dead. */
  lemma BarcodeCountsComponents(dist: Matrix, n: nat, ev: seq<Event>, d: real)
    requires Filtration(dist, n, ev)
    ensures DeathsWithin(Pairs0(ev, |ev|), d) + Components(n, EdgesWithin(dist, n, d)) == n
  {
    var q := FindCut(ev, d);
    DeathsUpToCut(ev, d, q, |ev|);
    CutGraph(dist, n, ev, d, q);
    JoinsAndComponents(dist, n, ev, q);
  }

  // ----- dimension 1

  /** The open cycles, as a stack, and the bars closed so far. */
  datatype Cycles = Cycles(open: seq<real>, closed: seq<Pair>)

  /** One event: a cycle opens, a triangle closes the youngest open one, or nothing happens. */
  function StackStep(c: Cycles, closes: bool, e: Event): Cycles {
    if closes then c.(open := c.open + [e.dist])
    else if e.TriangleEvent? && c.open != [] then
      Cycles(c.open[..|c.open|-1], c.closed + [(c.open[|c.open|-1], e.dist)])
    else c
  }

  ghost function Stack(ev: seq<Event>, t: nat): Cycles
    requires t <= |ev|
  {
    if t == 0 then Cycles([], []) else StackStep(Stack(ev, t - 1), Closes(ev, t - 1), ev[t-1])
  }

  /** The births of the cycles among the first `t` events. */
  ghost function Births(ev: seq<Event>, t: nat): multiset<real>
    requires t <= |ev|
  {
    if t == 0 then multiset{}
    else if Closes(ev, t - 1) then Births(ev, t - 1) + multiset{ev[t-1].dist}
    else Births(ev, t - 1)
  }

  function Starts(pairs: seq<Pair>): (s: seq<real>)
    ensures |s| == |pairs| && forall k | 0 <= k < |s| :: s[k] == pairs[k].0
  {
    seq(|pairs|, k requires 0 <= k < |pairs| => pairs[k].0)
  }

  /** Every cycle born so far is either open or closed, once. */
  lemma {:induction false} CyclesConserved(ev: seq<Event>, t: nat)
    requires t <= |ev|
    ensures multiset(Stack(ev, t).open) + multiset(Starts(Stack(ev, t).closed)) == Births(ev, t)
  {
    if t > 0 {
      CyclesConserved(ev, t - 1);
      StepConserves(Stack(ev, t - 1), Closes(ev, t - 1), ev[t-1]);
    }
  }

  lemma StepConserves(c: Cycles, closes: bool, e: Event)
    ensures multiset(StackStep(c, closes, e).open) + multiset(Starts(StackStep(c, closes, e).closed))
         == multiset(c.open) + multiset(Starts(c.closed)) + if closes then multiset{e.dist} else multiset{}
  {
    if !closes && e.TriangleEvent? && c.open != [] {
      CloseConserves(c.open, c.closed, e.dist);
    }
  }

  lemma CloseConserves(open: seq<real>, closed: seq<Pair>, d: real)
    requires open != []
    ensures multiset(open[..|open|-1]) + multiset(Starts(closed + [(open[|open|-1], d)]))
         == multiset(open) + multiset(Starts(closed))
  {
    var init, last := open[..|open|-1], open[|open|-1];
    assert open == init + [last];
    assert Starts(closed + [(last, d)]) == Starts(closed) + [last];
  }

  lemma {:induction false} CyclesCounted(ev: seq<Event>, t: nat)
    requires t <= |ev|
    ensures |Stack(ev, t).open| + |Stack(ev, t).closed| + CyclesFrom(ev, t) == CyclesFrom(ev, 0)
  {
    if t > 0 {
      CyclesCounted(ev, t - 1);
    }
  }

  /** Open cycles are no younger than what is still to come, and every closed bar is born before it dies. */
  lemma {:induction false} BarsOrdered(ev: seq<Event>, t: nat)
    requires Sorted(ev, Before) && t <= |ev|
    ensures forall k | 0 <= k < |Stack(ev, t).open| :: forall a | t <= a < |ev| :: Stack(ev, t).open[k] <= ev[a].dist
    ensures forall k | 0 <= k < |Stack(ev, t).closed| :: Stack(ev, t).closed[k].0 <= Stack(ev, t).closed[k].1
  {
    if t > 0 {
      BarsOrdered(ev, t - 1);
      forall a | t <= a < |ev|
        ensures ev[t-1].dist <= ev[a].dist
      {
        assert Before(ev[t-1], ev[a]);
      }
    }
  }

  /** Since the last triangle that found the stack empty, every event moved it by exactly one. */
  lemma {:induction false} StackSince(ev: seq<Event>, t: nat) returns (p: nat)
    requires t <= |ev|
    ensures p <= t
    ensures |Stack(ev, t).open| + TrianglesFrom(ev, p) + CyclesFrom(ev, t) == CyclesFrom(ev, p) + TrianglesFrom(ev, t)
  {
    p := 0;
    if t > 0 {
      p := StackSince(ev, t - 1);
      if ev[t-1].TriangleEvent? && Stack(ev, t - 1).open == [] {
        p := t;
      }
    }
  }

  /** Every cycle that is born is eventually closed: the stack ends empty, there are exactly
      (n-1)(n-2)/2 bars, their births are the cycle-closing edges, and no bar dies before it is born. */
  lemma EveryCycleCloses(dist: Matrix, n: nat, ev: seq<Event>)
    requires Filtration(dist, n, ev) && n >= 2
    ensures Stack(ev, |ev|).open == []
    ensures 2 * |Stack(ev, |ev|).closed| == (n - 1) * (n - 2)
    ensures multiset(Starts(Stack(ev, |ev|).closed)) == Births(ev, |ev|)
    ensures forall p <- Stack(ev, |ev|).closed :: p.0 <= p.1
  {
    var p := StackSince(ev, |ev|);
    SuffixBalance(dist, n, ev, p);
    CyclesCounted(ev, |ev|);
    CycleTotal(dist, n, ev);
    CyclesConserved(ev, |ev|);
    BarsOrdered(ev, |ev|);
  }

  // ----- the cycle rank of the threshold graphs

  /** The edges among the first `t` events that joined already connected points. */
  ghost function ClosesUpTo(ev: seq<Event>, t: nat): nat
    requires t <= |ev|
  {
    if t == 0 then 0 else ClosesUpTo(ev, t - 1) + if Closes(ev, t - 1) then 1 else 0
  }

  /** Every edge so far either joined two components or closed a cycle. */
  lemma {:induction false} EdgesSplit(dist: Matrix, n: nat, ev: seq<Event>, t: nat)
    requires Filtration(dist, n, ev) && t <= |ev|
    ensures EdgeTotal(EdgesOf(ev, t), n) == JoinCount(ev, t) + ClosesUpTo(ev, t)
  {
    if t == 0 {
      EmptyTotals(n);
    } else {
      EdgesSplit(dist, n, ev, t - 1);
      if ev[t-1].EdgeEvent? {
        EdgeNew(dist, n, ev, t - 1);
        AddToEdges(EdgesOf(ev, t - 1), (ev[t-1].i, ev[t-1].j), n);
      }
    }
  }

  lemma EdgeNew(dist: Matrix, n: nat, ev: seq<Event>, p: nat)
    requires Filtration(dist, n, ev) && p < |ev| && ev[p].EdgeEvent?
    ensures (ev[p].i, ev[p].j) !in EdgesOf(ev, p)
  {
    InEdgesOf(ev, p, (ev[p].i, ev[p].j));
  }

  /** How many of the values are at most `d`. */
  function Within(s: seq<real>, d: real): nat {
    if s == [] then 0 else Within(s[..|s|-1], d) + if s[|s|-1] <= d then 1 else 0
  }

  lemma WithinAppend(s: seq<real>, x: real, d: real)
    ensures Within(s + [x], d) == Within(s, d) + if x <= d then 1 else 0
  {
    assert (s + [x])[..|s|] == s;
  }

  /** The bars born by `d`. */
  function BornWithin(pairs: seq<Pair>, d: real): nat {
    Within(Starts(pairs), d)
  }

  /** The cycles born by `d` among the first `t` events are open or closed, once each. */
  lemma {:induction false} BornUpToCut(ev: seq<Event>, d: real, q: nat, t: nat)
    requires Cut(ev, d, q) && t <= |ev|
    ensures Within(Stack(ev, t).open, d) + BornWithin(Stack(ev, t).closed, d) == ClosesUpTo(ev, if t < q then t else q)
  {
    if t > 0 {
      BornUpToCut(ev, d, q, t - 1);
      StepBorn(Stack(ev, t - 1), Closes(ev, t - 1), ev[t-1], d);
    }
  }

  lemma StepBorn(c: Cycles, closes: bool, e: Event, d: real)
    ensures var next := StackStep(c, closes, e);
            Within(next.open, d) + BornWithin(next.closed, d)
            == Within(c.open, d) + BornWithin(c.closed, d) + if closes && e.dist <= d then 1 else 0
  {
    if closes {
      WithinAppend(c.open, e.dist, d);
    } else if e.TriangleEvent? && c.open != [] {
      var last := c.open[|c.open|-1];
      assert Starts(c.closed + [(last, e.dist)]) == Starts(c.closed) + [last];
      WithinAppend(Starts(c.closed), last, d);
    }
  }

  /** The barcode of dimension 1 counts the independent cycles of every threshold graph: edges and components
      exceed the points by the bars born by then, which are the edges that joined already connected points. */
  lemma BarcodeCountsCycles(dist: Matrix, n: nat, ev: seq<Event>, d: real, q: nat)
    requires Filtration(dist, n, ev) && n >= 2 && Cut(ev, d, q)
    ensures BornWithin(Stack(ev, |ev|).closed, d) == ClosesUpTo(ev, q)
    ensures EdgeTotal(EdgesWithin(dist, n, d), n) + Components(n, EdgesWithin(dist, n, d))
         == n + BornWithin(Stack(ev, |ev|).closed, d)
  {
    BornUpToCut(ev, d, q, |ev|);
    EveryCycleCloses(dist, n, ev);
    CutGraph(dist, n, ev, d, q);
    EdgesSplit(dist, n, ev, q);
    JoinsAndComponents(dist, n, ev, q);
  }
}
