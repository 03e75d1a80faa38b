/** Building the events of a distance matrix, and why sorting them gives the filtration. */
module EventList {
  import opened Prelude
  import opened Graph
  import opened TriangleCount
  import opened Sorting
  import opened EventOrder

  /** The events pushed so far: the edges in `es` once each and the triangles in `ts` once each. */
  ghost predicate Pushed(dist: Matrix, n: nat, ev: seq<Event>, es: set<Edge>, ts: set<Triple>) {
    && Distances(dist, n)
    && (forall a | 0 <= a < |ev| :: ev[a].dist >= 0.0)
    && (forall a | 0 <= a < |ev| && ev[a].EdgeEvent? ::
          && ev[a].i < ev[a].j < n && ev[a].dist == dist[ev[a].i][ev[a].j]
          && (ev[a].i, ev[a].j) in es)
    && (forall a, b | 0 <= a < b < |ev| && ev[a].EdgeEvent? :: ev[a] != ev[b])
    && (forall i, j | 0 <= i < j < n && (i, j) in es :: Occurs(ev, i, j, dist[i][j]))
    && (forall d :: LateTriangles(ev, d) == TripleTotal(ts * TriplesFrom(dist, n, d), n))
  }

  lemma {:induction false} LateAppend(ev: seq<Event>, e: Event, d: real)
    ensures LateTriangles(ev + [e], d) == LateTriangles(ev, d) + if e.TriangleEvent? && e.dist >= d then 1 else 0
  {
    if ev != [] {
      assert (ev + [e])[1..] == ev[1..] + [e];
      LateAppend(ev[1..], e, d);
    } else {
      assert ev + [e] == [e];
    }
  }

  lemma PushNothing(dist: Matrix, n: nat)
    requires Distances(dist, n)
    ensures Pushed(dist, n, [], {}, {})
  {
    forall d
      ensures TripleTotal({} * TriplesFrom(dist, n, d), n) == 0
    {
      assert {} * TriplesFrom(dist, n, d) == {};
      EmptyTotals(n);
    }
  }

  lemma PushEdge(dist: Matrix, n: nat, ev: seq<Event>, es: set<Edge>, ts: set<Triple>, i: nat, j: nat)
    requires Pushed(dist, n, ev, es, ts) && i < j < n && (i, j) !in es
    ensures Pushed(dist, n, ev + [EdgeEvent(dist[i][j], i, j)], es + {(i, j)}, ts)
  {
    var e := EdgeEvent(dist[i][j], i, j);
    var next := ev + [e];
    assert dist[i][j] >= 0.0 && dist[i][j] == dist[j][i];
    forall d
      ensures LateTriangles(next, d) == LateTriangles(ev, d)
    {
      LateAppend(ev, e, d);
    }
    forall x, y | 0 <= x < y < n && (x, y) in es + {(i, j)}
      ensures Occurs(next, x, y, dist[x][y])
    {
      if (x, y) in es {
        assert Occurs(ev, x, y, dist[x][y]);
      } else {
        assert next[|ev|] == e;
      }
    }
  }

  lemma PushTriangle(dist: Matrix, n: nat, ev: seq<Event>, es: set<Edge>, ts: set<Triple>, i: nat, j: nat, k: nat)
    requires Pushed(dist, n, ev, es, ts) && i < j < k < n && (i, j, k) !in ts
    ensures Pushed(dist, n, ev + [TriangleEvent(Longest(dist, i, j, k))], es, ts + {(i, j, k)})
  {
    var e := TriangleEvent(Longest(dist, i, j, k));
    var next, t := ev + [e], (i, j, k);
    forall d
      ensures LateTriangles(next, d) == TripleTotal((ts + {t}) * TriplesFrom(dist, n, d), n)
    {
      LateAppend(ev, e, d);
      var late := TriplesFrom(dist, n, d);
      if e.dist >= d {
        assert (ts + {t}) * late == ts * late + {t};
        AddTriple(ts * late, t, n);
      } else {
        assert (ts + {t}) * late == ts * late;
      }
    }
    forall x, y | 0 <= x < y < n && (x, y) in es
      ensures Occurs(next, x, y, dist[x][y])
    {
      assert Occurs(ev, x, y, dist[x][y]);
    }
  }

  // ----- sorting

  lemma {:induction false} LateInsert(e: Event, ev: seq<Event>, d: real)
    ensures LateTriangles(Insert(e, ev, Before), d)
         == LateTriangles(ev, d) + if e.TriangleEvent? && e.dist >= d then 1 else 0
  {
    if ev == [] || Before(e, ev[0]) {
      assert ([e] + ev)[1..] == ev;
    } else {
      LateInsert(e, ev[1..], d);
    }
  }

  lemma {:induction false} LateSort(ev: seq<Event>, d: real)
    ensures LateTriangles(SortBy(ev, Before), d) == LateTriangles(ev, d)
  {
    if ev != [] {
      LateSort(ev[1..], d);
      LateInsert(ev[0], SortBy(ev[1..], Before), d);
    }
  }

  lemma {:induction false} OccursOnce(ev: seq<Event>, e: Event)
    requires forall a, b | 0 <= a < b < |ev| && ev[a] == e :: ev[b] != e
    ensures multiset(ev)[e] <= 1
  {
    if ev != [] {
      assert ev == [ev[0]] + ev[1..];
      OccursOnce(ev[1..], e);
      assert ev[0] == e ==> e !in ev[1..];
    }
  }

  lemma TwiceCounts(ev: seq<Event>, a: nat, b: nat)
    requires a < b < |ev| && ev[a] == ev[b]
    ensures multiset(ev)[ev[a]] >= 2
  {
    assert ev == ev[..a] + [ev[a]] + ev[a+1..b] + [ev[b]] + ev[b+1..];
  }

  lemma SortKeepsDistinct(ev: seq<Event>, a: nat, b: nat)
    requires forall c, d | 0 <= c < d < |ev| && ev[c].EdgeEvent? :: ev[c] != ev[d]
    requires a < b < |ev| && SortBy(ev, Before)[a].EdgeEvent?
    ensures SortBy(ev, Before)[a] != SortBy(ev, Before)[b]
  {
    var r := SortBy(ev, Before);
    if r[a] == r[b] {
      TwiceCounts(r, a, b);
      OccursOnce(ev, r[a]);
    }
  }

  /** Once every edge and triangle is pushed, the sorted list is the filtration. */
  lemma SortedIsFiltration(dist: Matrix, n: nat, ev: seq<Event>, es: set<Edge>, ts: set<Triple>)
    requires Pushed(dist, n, ev, es, ts)
    requires forall i: nat, j: nat | i < j && j < n :: (i, j) in es
    requires forall i: nat, j: nat, k: nat | i < j && j < k && k < n :: (i, j, k) in ts
    ensures Filtration(dist, n, SortBy(ev, Before))
  {
    var r := SortBy(ev, Before);
    BeforeOrders();
    SortBySorted(ev, Before);
    forall e: Event
      ensures e in r <==> e in ev
    {
      InMultiset(ev, r, e);
    }
    forall a | 0 <= a < |r|
      ensures r[a].dist >= 0.0
      ensures r[a].EdgeEvent? ==> r[a].i < r[a].j < n && r[a].dist == dist[r[a].i][r[a].j]
    {
      assert r[a] in ev;
      var c :| 0 <= c < |ev| && ev[c] == r[a];
    }
    forall a, b | 0 <= a < b < |r| && r[a].EdgeEvent?
      ensures r[a] != r[b]
    {
      SortKeepsDistinct(ev, a, b);
    }
    forall i, j | 0 <= i < j < n
      ensures Occurs(r, i, j, dist[i][j])
    {
      assert Occurs(ev, i, j, dist[i][j]);
    }
    forall d
      ensures LateTriangles(r, d) == TripleTotal(TriplesFrom(dist, n, d), n)
    {
      LateSort(ev, d);
      assert ts * TriplesFrom(dist, n, d) == TriplesFrom(dist, n, d);
    }
  }

  // ----- the loops

  ghost function PairsUpTo(n: nat, i: nat, j: nat): (es: set<Edge>)
    ensures forall x: nat, y: nat :: (x, y) in es <==> x < y && y < n && (x < i || (x == i && y < j))
  {
    set x: nat, y: nat | x < n && y < n && x < y && (x < i || (x == i && y < j)) :: (x, y)
  }

  ghost function TriplesUpTo(n: nat, i: nat, j: nat, k: nat): (ts: set<Triple>)
    ensures forall x: nat, y: nat, z: nat :: (x, y, z) in ts <==>
              x < y && y < z && z < n && (x < i || (x == i && (y < j || (y == j && z < k))))
  {
    set x: nat, y: nat, z: nat | x < n && y < n && z < n && x < y && y < z
                                 && (x < i || (x == i && (y < j || (y == j && z < k)))) :: (x, y, z)
  }

  method PushEdges(dist: Matrix, n: nat) returns (ev: seq<Event>)
    requires Distances(dist, n)
    ensures Pushed(dist, n, ev, PairsUpTo(n, n, 0), {})
  {
    ev := [];
    ghost var es := {};
    PushNothing(dist, n);
    NoPairs(n);
    for i := 0 to n
      invariant es == PairsUpTo(n, i, 0) && Pushed(dist, n, ev, es, {})
    {
      RowOfPairs(n, i);
      for j := i + 1 to n
        invariant es == PairsUpTo(n, i, j) && Pushed(dist, n, ev, es, {})
      {
        OneMorePair(n, i, j);
        PushEdge(dist, n, ev, es, {}, i, j);
        ev := ev + [EdgeEvent(dist[i][j], i, j)];
        es := es + {(i, j)};
      }
    }
  }

  lemma NoPairs(n: nat)
    ensures PairsUpTo(n, 0, 0) == {}
  {
  }

  lemma RowOfPairs(n: nat, i: nat)
    requires i < n
    ensures PairsUpTo(n, i, 0) == PairsUpTo(n, i, i + 1)
    ensures PairsUpTo(n, i, n) == PairsUpTo(n, i + 1, 0)
  {
  }

  lemma OneMorePair(n: nat, i: nat, j: nat)
    requires i < j < n
    ensures PairsUpTo(n, i, j + 1) == PairsUpTo(n, i, j) + {(i, j)}
    ensures (i, j) !in PairsUpTo(n, i, j)
  {
  }

  /** The triangles over one edge (i, j). */
  method PushOver(dist: Matrix, n: nat, i: nat, j: nat, before: seq<Event>, ghost es: set<Edge>,
                  ghost over: set<Triple>)
    returns (ev: seq<Event>)
    requires i < j < n && over == TriplesUpTo(n, i, j, 0) && Pushed(dist, n, before, es, over)
    ensures Pushed(dist, n, ev, es, TriplesUpTo(n, i, j + 1, 0))
  {
    ev := before;
    ghost var ts := over;
    EdgeOfTriples(n, i, j);
    for k := j + 1 to n
      invariant ts == TriplesUpTo(n, i, j, k) && Pushed(dist, n, ev, es, ts)
    {
      OneMoreTriple(n, i, j, k);
      PushTriangle(dist, n, ev, es, ts, i, j, k);
      ev := ev + [TriangleEvent(Longest(dist, i, j, k))];
      ts := ts + {(i, j, k)};
    }
  }

  lemma EdgeOfTriples(n: nat, i: nat, j: nat)
    requires i < j < n
    ensures TriplesUpTo(n, i, j, 0) == TriplesUpTo(n, i, j, j + 1)
    ensures TriplesUpTo(n, i, j, n) == TriplesUpTo(n, i, j + 1, 0)
  {
  }

  lemma OneMoreTriple(n: nat, i: nat, j: nat, k: nat)
    requires i < j < k < n
    ensures TriplesUpTo(n, i, j, k + 1) == TriplesUpTo(n, i, j, k) + {(i, j, k)}
    ensures (i, j, k) !in TriplesUpTo(n, i, j, k)
  {
  }

  method PushTriangles(dist: Matrix, n: nat, before: seq<Event>, ghost es: set<Edge>) returns (ev: seq<Event>)
    requires Pushed(dist, n, before, es, {})
    ensures Pushed(dist, n, ev, es, TriplesUpTo(n, n, 0, 0))
  {
    ev := before;
    assert TriplesUpTo(n, 0, 0, 0) == {};
    for i := 0 to n
      invariant Pushed(dist, n, ev, es, TriplesUpTo(n, i, 0, 0))
    {
      ev := PushFrom(dist, n, i, ev, es);
    }
  }

  lemma RowOfTriples(n: nat, i: nat)
    requires i < n
    ensures TriplesUpTo(n, i, 0, 0) == TriplesUpTo(n, i, i + 1, 0)
    ensures TriplesUpTo(n, i, n, 0) == TriplesUpTo(n, i + 1, 0, 0)
  {
  }

  /** The triangles whose least corner is `i`. */
  method PushFrom(dist: Matrix, n: nat, i: nat, before: seq<Event>, ghost es: set<Edge>) returns (ev: seq<Event>)
    requires i < n && Pushed(dist, n, before, es, TriplesUpTo(n, i, 0, 0))
    ensures Pushed(dist, n, ev, es, TriplesUpTo(n, i + 1, 0, 0))
  {
    ev := before;
    ghost var ts := TriplesUpTo(n, i, i + 1, 0);
    RowOfTriples(n, i);
    for j := i + 1 to n
      invariant ts == TriplesUpTo(n, i, j, 0) && Pushed(dist, n, ev, es, ts)
    {
      ev := PushOver(dist, n, i, j, ev, es, ts);
      ts := TriplesUpTo(n, i, j + 1, 0);
    }
  }

  /** All edges, then all triangles, then the sort. */
  method SortedEvents(dist: Matrix, n: nat) returns (ev: seq<Event>)
    requires Distances(dist, n)
    ensures Filtration(dist, n, ev)
  {
    var edges := PushEdges(dist, n);
    var all := PushTriangles(dist, n, edges, PairsUpTo(n, n, 0));
    SortedIsFiltration(dist, n, all, PairsUpTo(n, n, 0), TriplesUpTo(n, n, 0, 0));
    ev := SortBy(all, Before);
  }
}
