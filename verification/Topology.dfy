/** `analyze_topology`: threshold components, Kruskal bars and stack-paired cycles of a point cloud. */
module Topology {
  import opened Prelude
  import opened Graph
  import opened Forest
  import opened Sorting
  import opened TriangleCount
  import opened EventOrder
  import EventList
  import opened SpanningTree
  import opened Persistence
  import Vectors
  import opened EuclideanDistance
  import opened CyclePairing

  datatype Report = Report(
    sampleCount: nat, featureDim: nat, betti0: nat, betti1: nat, meanLifetime: real, homotopyScore: real,
    pairs0: seq<Pair>, pairs1: seq<Pair>, total0: real, total1: real, maxLifetime: real)

  /** The pairs (i, j) with i < j whose distance has been written. */
  ghost predicate Written(sqrt: real -> real, points: seq<Point>, dist: Matrix, i: nat, j: nat)
    requires |points| == |dist| && i < |dist| && j < |dist[i]|
  {
    i < |points| && j < |points| && dist[i][j] == sqrt(SquaredDistance(points[i], points[j]))
  }

  /** Symmetric, nonnegative, zero on the diagonal and the Euclidean distance off it. */
  ghost predicate DistancesOf(sqrt: real -> real, points: seq<Point>, dist: Matrix) {
    && Distances(dist, |points|) && (forall i | 0 <= i < |points| :: dist[i][i] == 0.0)
    && (forall i, j | 0 <= i < j < |points| :: Written(sqrt, points, dist, i, j))
  }

  lemma EntryIs(sqrt: real -> real, points: seq<Point>, dist: Matrix, i: nat, j: nat)
    requires IsSqrt(sqrt) && SameDimension(points) && DistancesOf(sqrt, points, dist)
    requires i < |points| && j < |points|
    ensures dist[i][j] == sqrt(SquaredDistance(points[i], points[j]))
  {
    assert points[i] in points && points[j] in points;
    if i == j {
      NoDistance(points[i], points[i]);
      Vectors.RootZero(sqrt, 0.0);
    } else if i < j {
      assert Written(sqrt, points, dist, i, j);
    } else {
      assert Written(sqrt, points, dist, j, i);
      DistanceSymmetric(points[i], points[j]);
    }
  }

  /** The distances of points form a metric: the way over a third point is never shorter, and only equal points
      are at no distance. */
  lemma DistancesAreMetric(sqrt: real -> real, points: seq<Point>, dist: Matrix, i: nat, j: nat, k: nat)
    requires IsSqrt(sqrt) && SameDimension(points) && DistancesOf(sqrt, points, dist)
    requires i < |points| && j < |points| && k < |points|
    ensures dist[i][k] <= dist[i][j] + dist[j][k]
    ensures dist[i][j] == 0.0 <==> points[i] == points[j]
  {
    assert points[i] in points && points[j] in points && points[k] in points;
    EntryIs(sqrt, points, dist, i, j);
    EntryIs(sqrt, points, dist, j, k);
    EntryIs(sqrt, points, dist, i, k);
    TriangleInequality(sqrt, points[i], points[j], points[k]);
    NoDistance(points[i], points[j]);
    Vectors.RootZero(sqrt, SquaredDistance(points[i], points[j]));
  }

  method FillDistances(sqrt: real -> real, points: seq<Point>) returns (dist: Matrix)
    requires IsSqrt(sqrt)
    ensures DistancesOf(sqrt, points, dist)
  {
    var n := |points|;
    var zeros := seq(n, _ => 0.0);
    dist := seq(n, _ => zeros);
    for i := 0 to n
      invariant Distances(dist, n) && forall k | 0 <= k < n :: dist[k][k] == 0.0
      invariant forall k, l | 0 <= k < i && k < l < n :: Written(sqrt, points, dist, k, l)
    {
      for j := i + 1 to n
        invariant Distances(dist, n) && forall k | 0 <= k < n :: dist[k][k] == 0.0
        invariant forall k, l | 0 <= k < i && k < l < n :: Written(sqrt, points, dist, k, l)
        invariant forall l | i < l < j :: Written(sqrt, points, dist, i, l)
      {
        var d := sqrt(SquaredDistance(points[i], points[j]));
        WriteKeeps(dist, n, i, j, d);
        ghost var was := dist;
        dist := WriteBoth(dist, n, i, j, d);
        forall k, l | 0 <= k < n && 0 <= l < n && Written(sqrt, points, was, k, l) && k < l
          ensures Written(sqrt, points, dist, k, l)
        {
          assert (k == i && l == j) || dist[k][l] == was[k][l];
        }
      }
    }
  }

  function WriteBoth(dist: Matrix, n: nat, i: nat, j: nat, d: real): (r: Matrix)
    requires Shape(dist, n) && i < j < n
    ensures Shape(r, n)
    ensures forall k, l | 0 <= k < n && 0 <= l < n ::
              r[k][l] == if (k == i && l == j) || (k == j && l == i) then d else dist[k][l]
  {
    dist[i := dist[i][j := d]][j := dist[j][i := d]]
  }

  lemma WriteKeeps(dist: Matrix, n: nat, i: nat, j: nat, d: real)
    requires Distances(dist, n) && i < j < n && d >= 0.0
    ensures Distances(WriteBoth(dist, n, i, j, d), n)
  {
    var next := WriteBoth(dist, n, i, j, d);
    forall k, l | 0 <= k < n && 0 <= l < n
      ensures next[k][l] >= 0.0 && next[k][l] == next[l][k]
    {
      WrittenEntry(dist, n, i, j, d, k, l);
    }
  }

  lemma WrittenEntry(dist: Matrix, n: nat, i: nat, j: nat, d: real, k: nat, l: nat)
    requires Distances(dist, n) && i < j < n && d >= 0.0 && k < n && l < n
    ensures WriteBoth(dist, n, i, j, d)[k][l] >= 0.0
    ensures WriteBoth(dist, n, i, j, d)[k][l] == WriteBoth(dist, n, i, j, d)[l][k]
  {
    assert dist[k][l] >= 0.0 && dist[k][l] == dist[l][k];
  }

  predicate Shape(dist: Matrix, n: nat) {
    |dist| == n && forall i | 0 <= i < n :: |dist[i]| == n
  }

  /** The recursive `find` on a bare parent array. */
  method Find(parent: array<nat>, ghost roots: seq<nat>, ghost height: seq<nat>, ghost bound: nat, i: nat)
    returns (r: nat)
    requires IsForest(parent[..], roots, height, bound) && i < parent.Length
    modifies parent
    ensures IsForest(parent[..], roots, height, bound) && r == roots[i]
    decreases bound - height[i]
  {
    assert NodeOk(parent[..], roots, height, bound, i);
    if parent[i] == i {
      r := i;
    } else {
      assert NodeOk(parent[..], roots, height, bound, parent[i]);
      r := Find(parent, roots, height, bound, parent[i]);
      Compress(parent[..], roots, height, bound, i);
      ghost var was := parent[..];
      parent[i] := r;
      assert parent[..] == was[i := r];
      assert NodeOk(parent[..], roots, height, bound, i);
    }
  }

  // ----- the threshold pass

  /** The pairs already scanned that lie within the threshold. */
  ghost function ScannedWithin(dist: Matrix, n: nat, d: real, i: nat, j: nat): (es: set<Edge>)
    requires Distances(dist, n)
    ensures forall x: nat, y: nat :: (x, y) in es <==>
              x < y && y < n && (x < i || (x == i && y < j)) && dist[x][y] <= d
  {
    set x: nat, y: nat | x < n && y < n && x < y && (x < i || (x == i && y < j)) && dist[x][y] <= d :: (x, y)
  }

  /** The proof's view of a parent array: roots, heights and their bound. */
  datatype Track = Track(roots: seq<nat>, height: seq<nat>, bound: nat)

  /** The parent array holds the components of `es`. */
  ghost predicate Tracks(n: nat, es: set<Edge>, parent: seq<nat>, t: Track) {
    && |parent| == n && IsForest(parent, t.roots, t.height, t.bound)
    && InGraph(n, es) && Represents(n, t.roots, es)
  }

  /** The edges counted, and one lifetime for each edge of a spanning forest of the graph so far. */
  ghost predicate Counts(dist: Matrix, n: nat, d: real, es: set<Edge>, tally: Tally)
    requires Distances(dist, n)
  {
    && tally.edgeCount == EdgeTotal(es, n) && |tally.lifetimes| + Components(n, es) == n
    && exists forest {:trigger Skeleton(dist, n, d, es, tally.lifetimes, forest)} ::
         Skeleton(dist, n, d, es, tally.lifetimes, forest)
  }

  /** The lifetimes add up to the slack under the threshold of the edges of a spanning forest. */
  ghost predicate Skeleton(dist: Matrix, n: nat, d: real, es: set<Edge>, lifetimes: seq<real>, forest: set<Edge>)
    requires Distances(dist, n)
  {
    && SpanningForest(n, es, forest) && EdgeTotal(forest, n) == |lifetimes|
    && Total(lifetimes) == Slack(d, |lifetimes|, Weight(dist, forest, n))
    && (forall k | 0 <= k < |lifetimes| :: lifetimes[k] >= 0.0)
  }

  /** As many edges of the graph as points minus components, connecting what it connects. */
  ghost predicate SpanningForest(n: nat, es: set<Edge>, forest: set<Edge>) {
    forest <= es && Components(n, forest) == Components(n, es) && EdgeTotal(forest, n) + Components(n, es) == n
  }

  lemma TracksStart(n: nat, parent: seq<nat>, height: seq<nat>)
    requires |parent| == |height| == n
    requires forall x | 0 <= x < n :: parent[x] == x && height[x] == 0
    ensures Tracks(n, {}, parent, Track(parent, height, 0))
  {
    Singletons(parent, height);
    IdentityRepresents(n);
    assert parent == seq(n, i => i);
  }

  lemma CountsStart(dist: Matrix, n: nat, d: real)
    requires Distances(dist, n)
    ensures Counts(dist, n, d, {}, Tally(0, []))
  {
    NoEdges(n);
    EmptyTotals(n);
    EmptyWeight(dist, n);
    assert Skeleton(dist, n, d, {}, [], {});
  }

  /** The tally after one more edge. */
  function Counted(tally: Tally, joined: bool, lifetime: real): Tally {
    Tally(tally.edgeCount + 1, if joined then tally.lifetimes + [lifetime] else tally.lifetimes)
  }

  lemma CountsStep(dist: Matrix, n: nat, d: real, es: set<Edge>, i: nat, j: nat, tally: Tally)
    requires Distances(dist, n) && InGraph(n, es) && Counts(dist, n, d, es, tally)
    requires i < j < n && (i, j) !in es && dist[i][j] <= d
    ensures Counts(dist, n, d, es + {(i, j)}, Counted(tally, !Connected(es, i, j), d - dist[i][j]))
  {
    AddEdge(n, es, i, j);
    AddToEdges(es, (i, j), n);
    var forest :| Skeleton(dist, n, d, es, tally.lifetimes, forest);
    if Connected(es, i, j) {
      assert Skeleton(dist, n, d, es + {(i, j)}, tally.lifetimes, forest);
    } else {
      GrowSkeleton(dist, n, d, es, i, j, tally.lifetimes, forest);
    }
  }

  lemma GrowSkeleton(dist: Matrix, n: nat, d: real, es: set<Edge>, i: nat, j: nat, lifetimes: seq<real>,
                     forest: set<Edge>)
    requires Distances(dist, n) && InGraph(n, es) && Skeleton(dist, n, d, es, lifetimes, forest)
    requires i < j < n && (i, j) !in es && dist[i][j] <= d && !Connected(es, i, j)
    ensures Skeleton(dist, n, d, es + {(i, j)}, lifetimes + [d - dist[i][j]], forest + {(i, j)})
  {
    if Connected(forest, i, j) {
      ConnectedMono(forest, es, i, j);
    }
    AddEdge(n, es, i, j);
    AddEdge(n, forest, i, j);
    AddToEdges(forest, (i, j), n);
    AddWeight(dist, forest, (i, j), n);
    TotalAppend(lifetimes, d - dist[i][j]);
    MoreSlack(d, |lifetimes|, Weight(dist, forest, n), dist[i][j]);
  }

  lemma MoreSlack(d: real, k: nat, weight: real, edge: real)
    ensures Slack(d, k + 1, weight + edge) == Slack(d, k, weight) + (d - edge)
  {
    OneMore(d, k);
  }

  function Total(s: seq<real>): real {
    if s == [] then 0.0 else Total(s[..|s|-1]) + s[|s|-1]
  }

  lemma TotalAppend(s: seq<real>, x: real)
    ensures Total(s + [x]) == Total(s) + x
  {
    assert (s + [x])[..|s|] == s;
  }

  /** Find both ends of an edge and hang the first root under the second when they differ. */
  method JoinEnds(parent: array<nat>, ghost es: set<Edge>, ghost t: Track, i: nat, j: nat)
    returns (joined: bool, ghost t': Track)
    requires Tracks(parent.Length, es, parent[..], t) && i < parent.Length && j < parent.Length
    modifies parent
    ensures Tracks(parent.Length, es + {(i, j)}, parent[..], t')
    ensures joined <==> !Connected(es, i, j)
  {
    ghost var roots := t.roots;
    var ri := Find(parent, roots, t.height, t.bound, i);
    var rj := Find(parent, roots, t.height, t.bound, j);
    LabelsAgree(parent.Length, roots, es, i, j);
    JoinRepresents(parent.Length, roots, es, i, j, roots[i], roots[j]);
    t' := t.(roots := Join(roots, ri, rj));
    joined := ri != rj;
    assert NodeOk(parent[..], roots, t.height, t.bound, i);
    assert NodeOk(parent[..], roots, t.height, t.bound, j);
    if joined {
      ghost var was := parent[..];
      Link(was, roots, t.height, t.bound, ri, rj);
      parent[ri] := rj;
      assert parent[..] == was[ri := rj];
      t' := Track(t'.roots, Raised(t.height, ri, rj), Higher(t.bound));
    } else {
      assert t'.roots == roots;
    }
  }

  /** The tallies of the threshold pass. */
  datatype Tally = Tally(edgeCount: nat, lifetimes: seq<real>)

  ghost predicate Scanning(dist: Matrix, n: nat, d: real, i: nat, j: nat, parent: seq<nat>, t: Track, tally: Tally)
    requires Distances(dist, n)
  {
    && Tracks(n, ScannedWithin(dist, n, d, i, j), parent, t)
    && Counts(dist, n, d, ScannedWithin(dist, n, d, i, j), tally)
  }

  lemma ScanStep(dist: Matrix, n: nat, d: real, i: nat, j: nat)
    requires Distances(dist, n) && i < j < n
    ensures ScannedWithin(dist, n, d, i, j + 1)
         == ScannedWithin(dist, n, d, i, j) + if dist[i][j] <= d then {(i, j)} else {}
  {
  }

  /** Count one more edge. */
  method CountEdge(dist: Matrix, n: nat, d: real, ghost es: set<Edge>, i: nat, j: nat, parent: array<nat>,
                   ghost t: Track, tally: Tally)
    returns (tally': Tally, ghost t': Track)
    requires Distances(dist, n) && parent.Length == n && i < j < n && (i, j) !in es && dist[i][j] <= d
    requires Tracks(n, es, parent[..], t) && Counts(dist, n, d, es, tally)
    modifies parent
    ensures Tracks(n, es + {(i, j)}, parent[..], t')
    ensures Counts(dist, n, d, es + {(i, j)}, tally')
  {
    CountsStep(dist, n, d, es, i, j, tally);
    var joined;
    joined, t' := JoinEnds(parent, es, t, i, j);
    var lifetimes := tally.lifetimes;
    if joined {
      lifetimes := lifetimes + [d - dist[i][j]];
    }
    tally' := Tally(tally.edgeCount + 1, lifetimes);
  }

  method ScanPair(dist: Matrix, n: nat, d: real, i: nat, j: nat, parent: array<nat>, ghost t: Track, tally: Tally)
    returns (tally': Tally, ghost t': Track)
    requires Distances(dist, n) && parent.Length == n && i < j < n
    requires Scanning(dist, n, d, i, j, parent[..], t, tally)
    modifies parent
    ensures Scanning(dist, n, d, i, j + 1, parent[..], t', tally')
  {
    ghost var es, next := ScannedWithin(dist, n, d, i, j), ScannedWithin(dist, n, d, i, j + 1);
    ScanStep(dist, n, d, i, j);
    tally', t' := tally, t;
    if dist[i][j] <= d {
      assert next == es + {(i, j)} && (i, j) !in es;
      tally', t' := CountEdge(dist, n, d, es, i, j, parent, t, tally);
    } else {
      assert next == es;
    }
  }

  method ThresholdPass(dist: Matrix, n: nat, d: real, parent: array<nat>)
    returns (tally: Tally, ghost t: Track)
    requires Distances(dist, n) && parent.Length == n
    requires forall x | 0 <= x < n :: parent[x] == x
    modifies parent
    ensures Tracks(n, EdgesWithin(dist, n, d), parent[..], t)
    ensures Counts(dist, n, d, EdgesWithin(dist, n, d), tally)
  {
    tally := Tally(0, []);
    t := Track(parent[..], seq(n, _ => 0), 0);
    TracksStart(n, t.roots, t.height);
    CountsStart(dist, n, d);
    assert ScannedWithin(dist, n, d, 0, 1) == {};
    for i := 0 to n
      invariant Scanning(dist, n, d, i, i + 1, parent[..], t, tally)
    {
      tally, t := ScanRow(dist, n, d, i, parent, t, tally);
    }
    assert ScannedWithin(dist, n, d, n, n + 1) == EdgesWithin(dist, n, d);
  }

  lemma RowScanned(dist: Matrix, n: nat, d: real, i: nat)
    requires Distances(dist, n) && i < n
    ensures ScannedWithin(dist, n, d, i, n) == ScannedWithin(dist, n, d, i + 1, i + 2)
  {
  }

  /** The inner loop: every later partner of point `i`. */
  method ScanRow(dist: Matrix, n: nat, d: real, i: nat, parent: array<nat>, ghost t: Track, tally: Tally)
    returns (tally': Tally, ghost t': Track)
    requires Distances(dist, n) && parent.Length == n && i < n
    requires Scanning(dist, n, d, i, i + 1, parent[..], t, tally)
    modifies parent
    ensures Scanning(dist, n, d, i + 1, i + 2, parent[..], t', tally')
  {
    tally', t' := tally, t;
    for j := i + 1 to n
      invariant Scanning(dist, n, d, i, j, parent[..], t', tally')
    {
      tally', t' := ScanPair(dist, n, d, i, j, parent, t', tally');
    }
    RowScanned(dist, n, d, i);
  }

  /** The number of distinct roots. */
  method CountRoots(n: nat, parent: array<nat>, ghost es: set<Edge>, ghost t: Track) returns (count: nat)
    requires parent.Length == n && Tracks(n, es, parent[..], t)
    modifies parent
    ensures count == Components(n, es)
  {
    var seen: set<nat> := {};
    for i := 0 to n
      invariant IsForest(parent[..], t.roots, t.height, t.bound)
      invariant seen == LabelSet(t.roots, i)
    {
      var r := Find(parent, t.roots, t.height, t.bound, i);
      seen := seen + {r};
    }
    CountLabels(n, t.roots, es, n);
    count := |seen|;
  }

  /** The reported first Betti number. */
  function BettiOne(edgeCount: nat, n: nat, betti0: nat): nat {
    if edgeCount >= n then edgeCount - n + betti0 else 0
  }

  /** On every filtration and at every threshold: the reported number is the number of threshold edges that joined
      already connected points exactly when there are at least as many edges as points, or no edge closes a cycle. */
  lemma BettiOneExact(dist: Matrix, n: nat, ev: seq<Event>, d: real, q: nat)
    requires Filtration(dist, n, ev) && n >= 2 && Cut(ev, d, q)
    ensures var es := EdgesWithin(dist, n, d);
            BettiOne(EdgeTotal(es, n), n, Components(n, es)) == ClosesUpTo(ev, q)
            <==> EdgeTotal(es, n) >= n || EdgeTotal(es, n) + Components(n, es) == n
    ensures ClosesUpTo(ev, q) == BornWithin(Stack(ev, |ev|).closed, d)
  {
    BarcodeCountsCycles(dist, n, ev, d, q);
  }

  /** In terms of the barcode: the bars born within the threshold if they are at least as many as the components,
      and otherwise 0. */
  lemma BettiOneFromBars(dist: Matrix, n: nat, ev: seq<Event>, d: real)
    requires Filtration(dist, n, ev) && n >= 2
    ensures var es := EdgesWithin(dist, n, d);
            var born := BornWithin(Stack(ev, |ev|).closed, d);
            BettiOne(EdgeTotal(es, n), n, Components(n, es)) == if born >= Components(n, es) then born else 0
  {
    var q := FindCut(ev, d);
    BarcodeCountsCycles(dist, n, ev, d, q);
  }

  // ----- the persistence pass

  method PersistencePass(dist: Matrix, n: nat, ev: seq<Event>, parent: array<nat>)
    returns (pairs0: seq<Pair>, pairs1: seq<Pair>, active: seq<real>)
    requires Filtration(dist, n, ev) && parent.Length == n
    requires forall x | 0 <= x < n :: parent[x] == x
    modifies parent
    ensures pairs0 == Pairs0(ev, |ev|)
    ensures Cycles(active, pairs1) == Stack(ev, |ev|)
  {
    pairs0, pairs1, active := [], [], [];
    ghost var t := Track(parent[..], seq(n, _ => 0), 0);
    TracksStart(n, t.roots, t.height);
    for a := 0 to |ev|
      invariant Tracks(n, EdgesOf(ev, a), parent[..], t)
      invariant pairs0 == Pairs0(ev, a)
      invariant Cycles(active, pairs1) == Stack(ev, a)
    {
      pairs0, pairs1, active, t := PersistenceStep(dist, n, ev, parent, a, pairs0, pairs1, active, t);
    }
  }

  /** One event: join, open a cycle, or close the youngest one. */
  method PersistenceStep(ghost dist: Matrix, n: nat, ev: seq<Event>, parent: array<nat>, a: nat, before0: seq<Pair>,
                         before1: seq<Pair>, open: seq<real>, ghost track: Track)
    returns (pairs0: seq<Pair>, pairs1: seq<Pair>, active: seq<real>, ghost t: Track)
    requires Filtration(dist, n, ev) && parent.Length == n && a < |ev|
    requires Tracks(n, EdgesOf(ev, a), parent[..], track) && before0 == Pairs0(ev, a)
    requires Cycles(open, before1) == Stack(ev, a)
    modifies parent
    ensures Tracks(n, EdgesOf(ev, a + 1), parent[..], t) && pairs0 == Pairs0(ev, a + 1)
    ensures Cycles(active, pairs1) == Stack(ev, a + 1)
  {
    pairs0, pairs1, active, t := before0, before1, open, track;
    match ev[a]
    case EdgeEvent(d, i, j) =>
      var joined;
      joined, t := JoinEnds(parent, EdgesOf(ev, a), t, i, j);
      if joined {
        pairs0 := pairs0 + [(0.0, d)];
      } else {
        active := active + [d];
      }
    case TriangleEvent(d) =>
      if active != [] {
        pairs1 := pairs1 + [(active[|active|-1], d)];
        active := active[..|active|-1];
      }
  }

  /** The length of the longest bar, or 0 when no bar has positive length. */
  ghost predicate IsLongest(longest: real, pairs0: seq<Pair>, pairs1: seq<Pair>) {
    && longest >= 0.0
    && (forall p | p in pairs0 || p in pairs1 :: p.1 - p.0 <= longest)
    && (longest == 0.0 || exists p | p in pairs0 || p in pairs1 :: longest == p.1 - p.0)
  }

  method LongestBar(pairs0: seq<Pair>, pairs1: seq<Pair>) returns (longest: real)
    ensures IsLongest(longest, pairs0, pairs1)
  {
    longest := 0.0;
    var all := pairs0 + pairs1;
    for k := 0 to |all|
      invariant longest >= 0.0
      invariant forall l | 0 <= l < k :: all[l].1 - all[l].0 <= longest
      invariant longest == 0.0 || exists l :: 0 <= l < k && longest == all[l].1 - all[l].0
    {
      if all[k].1 - all[k].0 > longest {
        longest := all[k].1 - all[k].0;
      }
    }
    forall p | p in pairs0 || p in pairs1
      ensures p.1 - p.0 <= longest
    {
      assert p in all;
      var l :| 0 <= l < |all| && all[l] == p;
    }
    if longest != 0.0 {
      var l :| 0 <= l < |all| && longest == all[l].1 - all[l].0;
      assert all[l] in all;
    }
  }

  predicate SameDimension(points: seq<Point>) {
    points != [] && forall p <- points :: |p| == |points[0]|
  }

  /** The report in terms of the distances of the points. */
  ghost predicate Reports(sqrt: real -> real, points: seq<Point>, threshold: real, r: Report)
    requires points != []
  {
    var n := |points|;
    && r.sampleCount == n && r.featureDim == |points[0]|
    && (n == 1 ==> r == Report(1, |points[0]|, 1, 0, 1.0, 1.0, [], [], 0.0, 0.0, 1.0))
    && (n >= 2 ==> exists dist, ev :: ReportsFrom(sqrt, points, threshold, r, dist, ev))
  }

  /** The report read off the distances and their sorted events. */
  ghost predicate ReportsFrom(sqrt: real -> real, points: seq<Point>, threshold: real, r: Report, dist: Matrix,
                              ev: seq<Event>)
  {
    && DistancesOf(sqrt, points, dist) && Filtration(dist, |points|, ev)
    && ReportsThreshold(dist, |points|, threshold, r)
    && r.pairs0 == Pairs0(ev, |ev|) && r.pairs1 == Stack(ev, |ev|).closed
    && r.total0 == TotalPersistence(r.pairs0) && r.total1 == TotalPersistence(r.pairs1)
    && IsLongest(r.maxLifetime, r.pairs0, r.pairs1)
  }

  ghost predicate ReportsThreshold(dist: Matrix, n: nat, threshold: real, r: Report)
    requires Distances(dist, n)
  {
    var es := EdgesWithin(dist, n, threshold);
    && r.betti0 == Components(n, es) && r.betti0 > 0
    && r.betti1 == BettiOne(EdgeTotal(es, n), n, r.betti0)
    && r.homotopyScore == 1.0 / r.betti0 as real
    && IsMeanLifetime(dist, n, threshold, r.meanLifetime)
  }

  /** The mean slack under the threshold of the edges of a spanning forest of the threshold graph; 0 without edges. */
  ghost predicate IsMeanLifetime(dist: Matrix, n: nat, d: real, mean: real)
    requires Distances(dist, n)
  {
    exists forest {:trigger IsMeanSlack(dist, n, d, forest, mean)} :: IsMeanSlack(dist, n, d, forest, mean)
  }

  ghost predicate IsMeanSlack(dist: Matrix, n: nat, d: real, forest: set<Edge>, mean: real)
    requires Distances(dist, n)
  {
    && SpanningForest(n, EdgesWithin(dist, n, d), forest) && mean >= 0.0
    && IsMeanOf(mean, Slack(d, EdgeTotal(forest, n), Weight(dist, forest, n)), EdgeTotal(forest, n))
  }

  /** `mean` times `k` is `total`; nothing has mean 0. */
  predicate IsMeanOf(mean: real, total: real, k: nat) {
    if k == 0 then mean == 0.0 else mean * k as real == total
  }

  /** How much shorter than `d` the `k` edges of this weight are in all. */
  function Slack(d: real, k: nat, weight: real): real {
    d * k as real - weight
  }

  /** The mean of the lifetimes. */
  function Mean(lifetimes: seq<real>): real {
    if lifetimes == [] then 0.0 else Total(lifetimes) / |lifetimes| as real
  }

  lemma {:induction false} TotalNonneg(s: seq<real>)
    requires forall k | 0 <= k < |s| :: s[k] >= 0.0
    ensures Total(s) >= 0.0
  {
    if s != [] {
      TotalNonneg(s[..|s|-1]);
    }
  }

  lemma MeanOf(lifetimes: seq<real>)
    requires forall k | 0 <= k < |lifetimes| :: lifetimes[k] >= 0.0
    ensures Mean(lifetimes) >= 0.0
    ensures IsMeanOf(Mean(lifetimes), Total(lifetimes), |lifetimes|)
  {
    TotalNonneg(lifetimes);
    if lifetimes != [] {
      MeanTimes(Total(lifetimes), |lifetimes|);
    }
  }

  lemma MeanIsSlack(dist: Matrix, n: nat, d: real, tally: Tally, mean: real)
    requires Distances(dist, n) && Counts(dist, n, d, EdgesWithin(dist, n, d), tally)
    requires mean == Mean(tally.lifetimes)
    ensures IsMeanLifetime(dist, n, d, mean)
  {
    var es := EdgesWithin(dist, n, d);
    var forest :| Skeleton(dist, n, d, es, tally.lifetimes, forest);
    MeanOf(tally.lifetimes);
    assert IsMeanSlack(dist, n, d, forest, mean);
  }

  lemma MeanTimes(total: real, k: nat)
    requires k > 0 && total >= 0.0
    ensures total / k as real >= 0.0 && total / k as real * k as real == total
  {
  }

  lemma SomeComponent(n: nat, es: set<Edge>)
    requires n > 0
    ensures Components(n, es) > 0
  {
    assert 0 in Leaders(n, es);
  }

  lemma UnitFraction(k: nat)
    requires k > 0
    ensures 0.0 <= 1.0 / k as real <= 1.0
  {
  }

  method ThresholdReport(dist: Matrix, n: nat, threshold: real)
    returns (betti0: nat, tally: Tally, homotopyScore: real, meanLifetime: real)
    requires Distances(dist, n) && n > 0
    ensures betti0 == Components(n, EdgesWithin(dist, n, threshold)) && betti0 > 0
    ensures tally.edgeCount == EdgeTotal(EdgesWithin(dist, n, threshold), n)
    ensures homotopyScore == 1.0 / betti0 as real
    ensures |tally.lifetimes| + betti0 == n && IsMeanLifetime(dist, n, threshold, meanLifetime)
  {
    var parent := new nat[n](i => i);
    ghost var t;
    tally, t := ThresholdPass(dist, n, threshold, parent);
    betti0 := CountRoots(n, parent, EdgesWithin(dist, n, threshold), t);
    SomeComponent(n, EdgesWithin(dist, n, threshold));
    meanLifetime := Mean(tally.lifetimes);
    MeanIsSlack(dist, n, threshold, tally, meanLifetime);
    UnitFraction(betti0);
    homotopyScore := Clamp(1.0 / betti0 as real, 0.0, 1.0);
  }

  method AnalyzeTopology(sqrt: real -> real, points: seq<Point>, threshold: real) returns (r: Result<Report>)
    requires IsSqrt(sqrt)
    ensures r.Ok? <==> SameDimension(points)
    ensures r.Ok? ==> Reports(sqrt, points, threshold, r.value)
  {
    if points == [] {
      return Err("topology_empty_points");
    }
    if !SameDimension(points) {
      return Err("topology_dimension_mismatch");
    }
    var n, dim := |points|, |points[0]|;
    if n == 1 {
      return Ok(Report(1, dim, 1, 0, 1.0, 1.0, [], [], 0.0, 0.0, 1.0));
    }
    var dist := FillDistances(sqrt, points);
    var betti0, tally, homotopy, mean := ThresholdReport(dist, n, threshold);
    var ev := EventList.SortedEvents(dist, n);
    var parent := new nat[n](i => i);
    var pairs0, pairs1, _ := PersistencePass(dist, n, ev, parent);
    var longest := LongestBar(pairs0, pairs1);
    var report := Report(n, dim, betti0, BettiOne(tally.edgeCount, n, betti0), mean, homotopy, pairs0, pairs1,
                         TotalPersistence(pairs0), TotalPersistence(pairs1), longest);
    assert ReportsFrom(sqrt, points, threshold, report, dist, ev);
    r := Ok(report);
  }

  /** Whatever the points, the report is a barcode with the promised laws: `n - 1` bars in dimension 0 born at 0, dying
      in order and as long as a minimum spanning tree; every cycle closed in dimension 1, the youngest first, so that
      bars never cross; and Betti numbers that agree with the bars alive at the threshold: the first one only if the
      cycles born by then are at least as many as the components. */
  lemma ReportLaws(sqrt: real -> real, points: seq<Point>, threshold: real, r: Report)
    requires |points| >= 2 && Reports(sqrt, points, threshold, r)
    ensures |r.pairs0| == |points| - 1
    ensures forall k | 0 <= k < |r.pairs0| :: r.pairs0[k].0 == 0.0
    ensures forall k, l | 0 <= k < l < |r.pairs0| :: r.pairs0[k].1 <= r.pairs0[l].1
    ensures 2 * |r.pairs1| == (|points| - 1) * (|points| - 2)
    ensures forall p | p in r.pairs1 :: p.0 <= p.1
    ensures NeverCross(r.pairs1)
    ensures r.betti0 + DeathsWithin(r.pairs0, threshold) == |points|
    ensures r.betti1 == if BornWithin(r.pairs1, threshold) >= r.betti0 then BornWithin(r.pairs1, threshold) else 0
    ensures exists dist, ev, tree ::
              && DistancesOf(sqrt, points, dist) && Filtration(dist, |points|, ev)
              && PairsYoungest(ev, r.pairs1) && r.total1 == DeathTotal(ev, |ev|) - BirthTotal(ev, |ev|)
              && IsMinimumSpanningTree(dist, |points|, tree)
              && r.total0 == Weight(dist, tree, |points|)
  {
    var dist: Matrix, ev: seq<Event> :| ReportsFrom(sqrt, points, threshold, r, dist, ev);
    ComponentLaws(sqrt, points, threshold, r, dist, ev);
    CycleLaws(sqrt, points, threshold, r, dist, ev);
    PairingLaws(dist, |points|, ev, r.pairs1);
    assert IsMinimumSpanningTree(dist, |points|, Tree(ev));
  }

  lemma ComponentLaws(sqrt: real -> real, points: seq<Point>, threshold: real, r: Report, dist: Matrix, ev: seq<Event>)
    requires |points| >= 2 && ReportsFrom(sqrt, points, threshold, r, dist, ev)
    ensures |r.pairs0| == |points| - 1
    ensures forall k | 0 <= k < |r.pairs0| :: r.pairs0[k].0 == 0.0
    ensures forall k, l | 0 <= k < l < |r.pairs0| :: r.pairs0[k].1 <= r.pairs0[l].1
    ensures r.betti0 + DeathsWithin(r.pairs0, threshold) == |points|
    ensures IsMinimumSpanningTree(dist, |points|, Tree(ev)) && r.total0 == Weight(dist, Tree(ev), |points|)
  {
    BarcodeIsMinimumSpanningTree(dist, |points|, ev);
    BarcodeCountsComponents(dist, |points|, ev, threshold);
  }

  lemma CycleLaws(sqrt: real -> real, points: seq<Point>, threshold: real, r: Report, dist: Matrix, ev: seq<Event>)
    requires |points| >= 2 && ReportsFrom(sqrt, points, threshold, r, dist, ev)
    ensures 2 * |r.pairs1| == (|points| - 1) * (|points| - 2)
    ensures forall p | p in r.pairs1 :: p.0 <= p.1
    ensures r.betti1 == if BornWithin(r.pairs1, threshold) >= r.betti0 then BornWithin(r.pairs1, threshold) else 0
    ensures r.total1 == DeathTotal(ev, |ev|) - BirthTotal(ev, |ev|)
  {
    EveryCycleCloses(dist, |points|, ev);
    BettiOneFromBars(dist, |points|, ev, threshold);
    TotalOfBars(dist, |points|, ev);
  }

  lemma PairingLaws(dist: Matrix, n: nat, ev: seq<Event>, pairs: seq<Pair>)
    requires Filtration(dist, n, ev) && pairs == Stack(ev, |ev|).closed
    ensures NeverCross(pairs) && PairsYoungest(ev, pairs)
  {
    BarcodePairsYoungest(ev, pairs);
    BarsNeverCross(ev, |ev|);
  }

  /** A spanning tree no heavier than any set of edges that connects all points. */
  ghost predicate IsMinimumSpanningTree(dist: Matrix, n: nat, tree: set<Edge>)
    requires Distances(dist, n)
  {
    && Spanning(n, tree) && EdgeTotal(tree, n) == n - 1
    && (forall s | Spanning(n, s) :: Weight(dist, tree, n) <= Weight(dist, s, n))
  }

  // ----- a cycle that is not reported

  /** Three points close together and one far from them. */
  const POINTS: seq<Point> := [[0.0], [1.0], [2.0], [100.0]]

  lemma RootOfSquare(sqrt: real -> real, x: real, y: real)
    requires IsSqrt(sqrt) && x >= 0.0 && y == x * x
    ensures sqrt(y) == x
  {
    SquareNonneg(x);
    SameRoot(sqrt(y), x);
  }

  lemma SquareNonneg(x: real)
    ensures x * x >= 0.0
  {
  }

  lemma SameRoot(r: real, x: real)
    requires r >= 0.0 && x >= 0.0 && r * r == x * x
    ensures r == x
  {
    assert (r - x) * (r + x) == r * r - x * x;
    if r != x {
      NonzeroProduct(r - x, r + x);
    }
  }

  lemma NonzeroProduct(a: real, b: real)
    requires a != 0.0 && b != 0.0
    ensures a * b != 0.0
  {
  }

  lemma OnTheLine(sqrt: real -> real, points: seq<Point>, dist: Matrix, i: nat, j: nat, x: real, y: real)
    requires IsSqrt(sqrt) && DistancesOf(sqrt, points, dist) && i < j < |points|
    requires points[i] == [x] && points[j] == [y] && x <= y
    ensures dist[i][j] == y - x
  {
    assert Written(sqrt, points, dist, i, j);
    assert SquaredDistance([x], [y]) == (x - y) * (x - y) by {
      assert [x][1..] == [] && [y][1..] == [];
    }
    assert (x - y) * (x - y) == (y - x) * (y - x);
    RootOfSquare(sqrt, y - x, (x - y) * (x - y));
  }

  /** Within distance 2 they form a triangle and an isolated point. */
  lemma TriangleGraph(sqrt: real -> real, dist: Matrix)
    requires IsSqrt(sqrt) && DistancesOf(sqrt, POINTS, dist)
    ensures EdgesWithin(dist, 4, 2.0) == {(0, 1), (0, 2), (1, 2)}
  {
    OnTheLine(sqrt, POINTS, dist, 0, 1, 0.0, 1.0);
    OnTheLine(sqrt, POINTS, dist, 0, 2, 0.0, 2.0);
    OnTheLine(sqrt, POINTS, dist, 1, 2, 1.0, 2.0);
    OnTheLine(sqrt, POINTS, dist, 0, 3, 0.0, 100.0);
    OnTheLine(sqrt, POINTS, dist, 1, 3, 1.0, 100.0);
    OnTheLine(sqrt, POINTS, dist, 2, 3, 2.0, 100.0);
    forall x: nat, y: nat
      ensures (x, y) in EdgesWithin(dist, 4, 2.0) <==> (x, y) in {(0, 1), (0, 2), (1, 2)}
    {
      if x < y && y < 4 {
        assert y == 1 || y == 2 || y == 3;
      }
    }
  }

  lemma TriangleLabels(es: set<Edge>, lab: seq<nat>)
    requires es == {(0, 1), (0, 2), (1, 2)} && lab == [0, 0, 0, 1]
    ensures Represents(4, lab, es)
  {
    forall x, y | 0 <= x < 4 && 0 <= y < 4 && lab[x] == lab[y]
      ensures Connected(es, x, y)
    {
      if x == y {
        ConnectedSelf(es, x);
      } else {
        assert x < 3 && y < 3;
        ConnectedEdge(es, x, y);
      }
    }
  }

  lemma FourLabels(lab: seq<nat>)
    requires lab == [0, 0, 0, 1]
    ensures LabelSet(lab, 4) == {0, 1}
  {
    assert LabelSet(lab, 1) == {0};
    assert LabelSet(lab, 2) == {0};
    assert LabelSet(lab, 3) == {0};
  }

  lemma TriangleComponents(es: set<Edge>)
    requires es == {(0, 1), (0, 2), (1, 2)}
    ensures Components(4, es) == 2 && EdgeTotal(es, 4) == 3
  {
    UnrollFour({}, es);
    var lab := [0, 0, 0, 1];
    TriangleLabels(es, lab);
    FourLabels(lab);
    CountLabels(4, lab, es, 4);
  }

  /** The report of these points has a cycle born within the threshold in its own barcode, yet its first Betti
      number is 0. */
  lemma BettiOneMissesCycle(sqrt: real -> real, r: Report)
    requires IsSqrt(sqrt) && Reports(sqrt, POINTS, 2.0, r)
    ensures r.betti0 == 2 && BornWithin(r.pairs1, 2.0) == 1 && r.betti1 == 0
  {
    var dist: Matrix, ev: seq<Event> :| ReportsFrom(sqrt, POINTS, 2.0, r, dist, ev);
    TriangleGraph(sqrt, dist);
    TriangleMissed(dist, ev, 2.0, r);
  }

  lemma TriangleMissed(dist: Matrix, ev: seq<Event>, d: real, r: Report)
    requires Filtration(dist, 4, ev) && ReportsThreshold(dist, 4, d, r) && r.pairs1 == Stack(ev, |ev|).closed
    requires EdgesWithin(dist, 4, d) == {(0, 1), (0, 2), (1, 2)}
    ensures r.betti0 == 2 && BornWithin(r.pairs1, d) == 1 && r.betti1 == 0
  {
    TriangleComponents(EdgesWithin(dist, 4, d));
    var q := FindCut(ev, d);
    BarcodeCountsCycles(dist, 4, ev, d, q);
  }
}
