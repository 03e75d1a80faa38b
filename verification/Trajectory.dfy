/** `reconstruct_trajectory`: checkpoint potentials from reliability-weighted deltas. */
module Trajectory {
  import opened Prelude
  import opened Vectors
  import opened LeastSquares
  import opened RidgeFit
  import opened Graph
  import opened MeasurementGraph
  import opened Inversion
  import opened EdgeResiduals
  import Text

  datatype Observation = Observation(fromCheckpoint: string, toCheckpoint: string, delta: Vec, reliability: real)

  /** The characters of Unicode property White_Space, which trimming removes. */
  predicate IsSpace(c: char) {
    var v := c as int;
    || 0x09 <= v <= 0x0D || v == 0x20 || v == 0x85 || v == 0xA0 || v == 0x1680 || 0x2000 <= v <= 0x200A
    || v == 0x2028 || v == 0x2029 || v == 0x202F || v == 0x205F || v == 0x3000
  }

  /** Nothing is left of `s` after trimming. */
  predicate Blank(s: string) {
    forall c <- s :: IsSpace(c)
  }

  predicate Accepted(obs: seq<Observation>, ridge: real) {
    && obs != [] && ridge > 0.0
    && |obs[0].delta| > 0
    && (forall k | 0 <= k < |obs| :: AcceptedOne(obs[k], |obs[0].delta|))
  }

  predicate AcceptedOne(o: Observation, dim: nat) {
    && |o.delta| == dim
    && !Blank(o.fromCheckpoint) && !Blank(o.toCheckpoint) && o.fromCheckpoint != o.toCheckpoint
    && 0.0 < o.reliability <= 1.0
  }

  // ----- the ordered set of checkpoints

  /** Insert into an ordered set. */
  function InsertUnique(s: seq<string>, x: string): (r: seq<string>)
    ensures forall y :: y in r <==> y in s || y == x
    ensures r != [] && (r[0] == x || (s != [] && r[0] == s[0]))
  {
    if s == [] then [x]
    else
      assert s == [s[0]] + s[1..];
      if x == s[0] then s
      else if Text.Le(x, s[0]) then [x] + s
      else [s[0]] + InsertUnique(s[1..], x)
  }

  /** Strictly ascending: each name is below, and different from, the next. */
  predicate Strict(s: seq<string>) {
    forall i | 0 <= i < |s| - 1 :: Text.Le(s[i], s[i+1]) && s[i] != s[i+1]
  }

  lemma {:induction false} InsertStrict(s: seq<string>, x: string)
    requires Strict(s)
    ensures Strict(InsertUnique(s, x))
  {
    if s != [] && x != s[0] && !Text.Le(x, s[0]) {
      var t := InsertUnique(s[1..], x);
      assert Strict(s[1..]) by {
        forall i | 0 <= i < |s[1..]| - 1
          ensures Text.Le(s[1..][i], s[1..][i+1]) && s[1..][i] != s[1..][i+1]
        {
          assert Text.Le(s[i+1], s[i+2]);
        }
      }
      InsertStrict(s[1..], x);
      Text.LeTotal(x, s[0]);
      var r := [s[0]] + t;
      forall i | 0 <= i < |r| - 1
        ensures Text.Le(r[i], r[i+1]) && r[i] != r[i+1]
      {
        if i == 0 {
          if t[0] != x {
            assert Text.Le(s[0], s[1]);
          }
        } else {
          assert Text.Le(t[i-1], t[i]);
        }
      }
    }
  }

  lemma {:induction false} StrictBelow(s: seq<string>, i: nat, j: nat)
    requires Strict(s) && i < j < |s|
    ensures Text.Le(s[i], s[j]) && s[i] != s[j]
  {
    assert Text.Le(s[j-1], s[j]) && s[j-1] != s[j];
    if i < j - 1 {
      StrictBelow(s, i, j - 1);
      Text.LeTransitive(s[i], s[j-1], s[j]);
      if s[i] == s[j] {
        Text.LeAntisymmetric(s[j-1], s[j]);
      }
    }
  }

  function IndexOf(s: seq<string>, x: string): (i: nat)
    requires x in s
    ensures i < |s| && s[i] == x
  {
    if s[0] == x then 0 else 1 + IndexOf(s[1..], x)
  }

  /** The checkpoints named by the first `k` observations. */
  ghost predicate Named(obs: seq<Observation>, k: nat, x: string)
    requires k <= |obs|
  {
    exists i :: 0 <= i < k && (obs[i].fromCheckpoint == x || obs[i].toCheckpoint == x)
  }

  ghost predicate IsOrder(obs: seq<Observation>, order: seq<string>, k: nat)
    requires k <= |obs|
  {
    Strict(order) && forall x :: x in order <==> Named(obs, k, x)
  }

  method CheckpointOrder(obs: seq<Observation>) returns (order: seq<string>)
    ensures IsOrder(obs, order, |obs|)
  {
    order := [];
    for k := 0 to |obs|
      invariant IsOrder(obs, order, k)
    {
      var o := obs[k];
      InsertStrict(order, o.fromCheckpoint);
      InsertStrict(InsertUnique(order, o.fromCheckpoint), o.toCheckpoint);
      ghost var before := order;
      order := InsertUnique(InsertUnique(order, o.fromCheckpoint), o.toCheckpoint);
      forall x
        ensures x in order <==> Named(obs, k + 1, x)
      {
        NamedStep(obs, k, x);
      }
    }
  }

  lemma NamedStep(obs: seq<Observation>, k: nat, x: string)
    requires k < |obs|
    ensures Named(obs, k + 1, x) <==> Named(obs, k, x) || obs[k].fromCheckpoint == x || obs[k].toCheckpoint == x
  {
    if obs[k].fromCheckpoint == x || obs[k].toCheckpoint == x {
      assert 0 <= k < k + 1;
    }
  }

  // ----- the measurements of one coordinate

  ghost predicate Indexed(obs: seq<Observation>, order: seq<string>) {
    && |order| >= 2
    && (forall k | 0 <= k < |obs| :: obs[k].fromCheckpoint in order && obs[k].toCheckpoint in order)
  }

  /** The observations as measurements of coordinate `p`. */
  function Coordinate(obs: seq<Observation>, order: seq<string>, p: nat): (ms: seq<Measurement>)
    requires forall k | 0 <= k < |obs| :: obs[k].fromCheckpoint in order && obs[k].toCheckpoint in order
    requires forall k | 0 <= k < |obs| :: p < |obs[k].delta|
    ensures |ms| == |obs|
    ensures forall k | 0 <= k < |obs| ::
              ms[k] == Measurement(IndexOf(order, obs[k].fromCheckpoint), IndexOf(order, obs[k].toCheckpoint),
                                   obs[k].delta[p], obs[k].reliability)
  {
    seq(|obs|, k requires 0 <= k < |obs| =>
      Measurement(IndexOf(order, obs[k].fromCheckpoint), IndexOf(order, obs[k].toCheckpoint),
                  obs[k].delta[p], obs[k].reliability))
  }

  lemma OrderIndexes(obs: seq<Observation>, order: seq<string>, ridge: real)
    requires Accepted(obs, ridge) && IsOrder(obs, order, |obs|)
    ensures Indexed(obs, order)
  {
    forall k | 0 <= k < |obs|
      ensures obs[k].fromCheckpoint in order && obs[k].toCheckpoint in order
    {
      assert Named(obs, |obs|, obs[k].fromCheckpoint);
      assert Named(obs, |obs|, obs[k].toCheckpoint);
    }
    assert AcceptedOne(obs[0], |obs[0].delta|);
    assert obs[0].fromCheckpoint in order && obs[0].toCheckpoint in order;
  }

  lemma CoordinateWellFormed(obs: seq<Observation>, order: seq<string>, ridge: real, p: nat)
    requires Accepted(obs, ridge) && Indexed(obs, order) && p < |obs[0].delta|
    ensures forall k | 0 <= k < |obs| :: p < |obs[k].delta|
    ensures WellFormed(|order|, Coordinate(obs, order, p))
  {
    forall k | 0 <= k < |obs|
      ensures p < |obs[k].delta| && obs[k].reliability > 0.0
      ensures IndexOf(order, obs[k].fromCheckpoint) != IndexOf(order, obs[k].toCheckpoint)
    {
      assert AcceptedOne(obs[k], |obs[0].delta|);
    }
  }

  // ----- depth-first search

  /** `next[x]` lists the neighbours of `x`. */
  ghost predicate IsAdjacency(n: nat, es: set<Edge>, next: seq<seq<nat>>) {
    && |next| == n
    && (forall x | 0 <= x < n :: forall y: nat :: y in next[x] <==> y < n && Adjacent(es, x, y))
  }

  method BuildAdjacency(n: nat, ms: seq<Measurement>) returns (next: seq<seq<nat>>)
    requires WellFormed(n, ms)
    ensures IsAdjacency(n, EdgesOf(ms, |ms|), next)
  {
    next := seq(n, _ => []);
    for k := 0 to |ms|
      invariant IsAdjacency(n, EdgesOf(ms, k), next)
    {
      var from, to := ms[k].a, ms[k].b;
      next := next[from := next[from] + [to]];
      next := next[to := next[to] + [from]];
    }
  }

  /** Marked vertices are reachable. A marked vertex that is neither on the stack nor being expanded has
      all its neighbours marked; `busy` is the vertex being expanded, or n when there is none. */
  ghost predicate Searching(n: nat, es: set<Edge>, next: seq<seq<nat>>, visited: seq<bool>, stack: seq<nat>,
      busy: nat) {
    && IsAdjacency(n, es, next) && |visited| == n && n > 0 && visited[0]
    && (forall x: nat | x < n && visited[x] :: Connected(es, 0, x))
    && (forall x <- stack :: x < n && visited[x])
    && (forall x | 0 <= x < n && visited[x] && x !in stack && x != busy :: Explored(next, visited, x))
  }

  ghost predicate Explored(next: seq<seq<nat>>, visited: seq<bool>, x: nat)
    requires x < |next|
  {
    forall y <- next[x] :: y < |visited| && visited[y]
  }

  ghost function Unvisited(visited: seq<bool>, k: nat): set<nat>
    requires k <= |visited|
  {
    if k == 0 then {} else Unvisited(visited, k - 1) + if visited[k-1] then {} else {k - 1}
  }

  lemma {:induction false} VisitShrinks(visited: seq<bool>, x: nat, k: nat)
    requires k <= |visited| && x < |visited| && !visited[x]
    ensures Unvisited(visited[x := true], k) == Unvisited(visited, k) - {x}
    ensures x < k <==> x in Unvisited(visited, k)
    ensures forall y <- Unvisited(visited, k) :: y < k
  {
    if k > 0 {
      VisitShrinks(visited, x, k - 1);
    }
  }

  lemma MarkKeepsSearching(n: nat, es: set<Edge>, next: seq<seq<nat>>, visited: seq<bool>, stack: seq<nat>,
                           busy: nat, y: nat)
    requires Searching(n, es, next, visited, stack, busy) && busy < n && visited[busy]
    requires y in next[busy] && !visited[y]
    ensures Searching(n, es, next, visited[y := true], stack + [y], busy)
  {
    ConnectedEdge(es, busy, y);
    ConnectedTrans(es, 0, busy, y);
    var marked := visited[y := true];
    forall x | 0 <= x < n && marked[x] && x !in stack + [y] && x != busy
      ensures Explored(next, marked, x)
    {
      assert y in stack + [y];
      assert x !in stack && visited[x];
      assert Explored(next, visited, x);
    }
  }

  /** Mark and push the unmarked neighbours of a vertex that was just popped. */
  method Expand(n: nat, ghost es: set<Edge>, next: seq<seq<nat>>, visited: array<bool>, before: seq<nat>, node: nat)
    returns (stack: seq<nat>)
    requires visited.Length == n && node < n && visited[node]
    requires Searching(n, es, next, visited[..], before, node)
    modifies visited
    ensures Searching(n, es, next, visited[..], stack, n)
    ensures Unvisited(visited[..], n) < old(Unvisited(visited[..], n))
         || (visited[..] == old(visited[..]) && stack == before)
  {
    stack := before;
    ghost var start := visited[..];
    for i := 0 to |next[node]|
      invariant visited[node] && Searching(n, es, next, visited[..], stack, node)
      invariant forall l | 0 <= l < i :: next[node][l] < n && visited[next[node][l]]
      invariant Unvisited(visited[..], n) < Unvisited(start, n) || (visited[..] == start && stack == before)
    {
      var y := next[node][i];
      assert y in next[node];
      if !visited[y] {
        MarkKeepsSearching(n, es, next, visited[..], stack, node, y);
        VisitShrinks(visited[..], y, n);
        ghost var was := visited[..];
        visited[y] := true;
        assert visited[..] == was[y := true];
        stack := stack + [y];
      }
    }
    assert Explored(next, visited[..], node);
  }

  /** Marked vertices stay marked along paths once the stack is empty. */
  lemma {:induction false} PathVisited(n: nat, es: set<Edge>, next: seq<seq<nat>>, visited: seq<bool>, p: seq<nat>)
    requires InGraph(n, es) && Searching(n, es, next, visited, [], n)
    requires IsPath(es, p) && p[0] < n && visited[p[0]]
    ensures p[|p|-1] < n && visited[p[|p|-1]]
    decreases |p|
  {
    if |p| > 1 {
      assert Adjacent(es, p[0], p[1]);
      assert Explored(next, visited, p[0]);
      assert p[1] in next[p[0]];
      assert IsPath(es, p[1..]) by {
        forall i | 0 <= i < |p[1..]| - 1
          ensures Adjacent(es, p[1..][i], p[1..][i+1])
        {
          assert Adjacent(es, p[i+1], p[i+2]);
        }
      }
      PathVisited(n, es, next, visited, p[1..]);
    }
  }

  /** The vertices reachable from vertex 0, with an explicit stack. */
  method Search(n: nat, ghost es: set<Edge>, next: seq<seq<nat>>) returns (visited: array<bool>)
    requires n > 0 && InGraph(n, es) && IsAdjacency(n, es, next)
    ensures fresh(visited) && visited.Length == n
    ensures forall v: nat | v < n :: visited[v] <==> Connected(es, 0, v)
  {
    visited := new bool[n](_ => false);
    var stack := [0];
    visited[0] := true;
    ConnectedSelf(es, 0);
    while stack != []
      invariant Searching(n, es, next, visited[..], stack, n)
      decreases Unvisited(visited[..], n), |stack|
    {
      var node := stack[|stack|-1];
      assert stack == stack[..|stack|-1] + [node];
      assert node in stack && visited[..][node];
      assert Searching(n, es, next, visited[..], stack[..|stack|-1], node);
      stack := Expand(n, es, next, visited, stack[..|stack|-1], node);
    }
    forall v: nat | v < n && Connected(es, 0, v)
      ensures visited[v]
    {
      var p :| PathBetween(es, p, 0, v);
      PathVisited(n, es, next, visited[..], p);
    }
  }

  lemma MeasuredInGraph(n: nat, ms: seq<Measurement>, k: nat)
    requires WellFormed(n, ms) && k <= |ms|
    ensures InGraph(n, EdgesOf(ms, k))
  {
    forall e | e in EdgesOf(ms, k)
      ensures e.0 < n && e.1 < n
    {
      InEdgesOf(ms, k, e);
    }
  }

  /** Every checkpoint is connected to the first exactly when the graph is connected. */
  lemma AnchoredIsConnected(n: nat, ms: seq<Measurement>)
    requires WellFormed(n, ms)
    ensures Anchored(n, ms) <==> Components(n, EdgesOf(ms, |ms|)) == 1
  {
    var es := EdgesOf(ms, |ms|);
    MeasuredInGraph(n, ms, |ms|);
    OneComponent(n, es);
    if Anchored(n, ms) {
      forall x: nat, y: nat | x < n && y < n
        ensures Connected(es, x, y)
      {
        assert Connected(es, 0, x) && Connected(es, 0, y);
        ConnectedSym(es, 0, x);
        ConnectedTrans(es, x, 0, y);
      }
    }
  }

  method IsAnchored(n: nat, ms: seq<Measurement>) returns (ok: bool)
    requires WellFormed(n, ms)
    ensures ok <==> Components(n, EdgesOf(ms, |ms|)) == 1
    ensures ok <==> Anchored(n, ms)
  {
    MeasuredInGraph(n, ms, |ms|);
    AnchoredIsConnected(n, ms);
    var next := BuildAdjacency(n, ms);
    var visited := Search(n, EdgesOf(ms, |ms|), next);
    ok := true;
    for v := 0 to n
      invariant ok <==> forall w | 0 <= w < v :: visited[w]
    {
      if !visited[v] {
        ok := false;
      }
    }
  }

  // ----- the weighted Laplacian and its right sides

  /** The accumulators hold the first `k` observations: one matrix, and one right side per coordinate. */
  ghost predicate Accumulated(n: nat, dim: nat, mss: seq<seq<Measurement>>, m: nat, lap: array2<real>,
                              rhs: array2<real>, k: nat)
    reads lap, rhs
  {
    && n >= 1 && k <= m && |mss| == dim && dim > 0 && (forall p | 0 <= p < dim :: |mss[p]| == m)
    && lap.Length0 == lap.Length1 == rhs.Length0 == n - 1 && rhs.Length1 == dim
    && (forall i, j | 0 <= i < n - 1 && 0 <= j < n - 1 :: lap[i, j] == Entry(n, mss[0], i, j, k))
    && (forall i, p | 0 <= i < n - 1 && 0 <= p < dim :: rhs[i, p] == RhsEntry(mss[p], i, k))
  }

  lemma {:induction false} SameEntry(n: nat, ms: seq<Measurement>, ns: seq<Measurement>, i: nat, j: nat, k: nat)
    requires k <= |ms| == |ns|
    requires forall l | 0 <= l < |ms| :: ms[l].a == ns[l].a && ms[l].b == ns[l].b && ms[l].weight == ns[l].weight
    ensures Entry(n, ms, i, j, k) == Entry(n, ns, i, j, k)
    ensures EdgesOf(ms, k) == EdgesOf(ns, k)
  {
    if k > 0 {
      SameEntry(n, ms, ns, i, j, k - 1);
    }
  }

  /** Add one observation from node `i` to node `j`; node 0 is the anchor and has no row. */
  method AddObservation(n: nat, dim: nat, o: Observation, i: nat, j: nat, lap: array2<real>, rhs: array2<real>)
    requires n >= 1 && i < n && j < n && i != j && |o.delta| == dim && lap != rhs
    requires lap.Length0 == lap.Length1 == rhs.Length0 == n - 1 && rhs.Length1 == dim
    modifies lap, rhs
    ensures forall r, c | 0 <= r < n - 1 && 0 <= c < n - 1 ::
              lap[r, c] == old(lap[r, c]) + Bump(Measurement(i, j, 0.0, o.reliability), r, c)
    ensures forall r, p | 0 <= r < n - 1 && 0 <= p < dim ::
              rhs[r, p] == old(rhs[r, p]) + Push(Measurement(i, j, o.delta[p], o.reliability), r)
  {
    if i > 0 {
      AddSource(n, dim, o, i, lap, rhs);
    }
    if j > 0 {
      AddTarget(n, dim, o, j, lap, rhs);
    }
    if i > 0 && j > 0 {
      lap[i-1, j-1] := lap[i-1, j-1] - o.reliability;
      lap[j-1, i-1] := lap[j-1, i-1] - o.reliability;
    }
  }

  /** The row of the node an observation leaves. */
  method AddSource(n: nat, dim: nat, o: Observation, i: nat, lap: array2<real>, rhs: array2<real>)
    requires 1 <= i < n && |o.delta| == dim && lap != rhs
    requires lap.Length0 == lap.Length1 == rhs.Length0 == n - 1 && rhs.Length1 == dim
    modifies lap, rhs
    ensures forall r, c | 0 <= r < n - 1 && 0 <= c < n - 1 ::
              lap[r, c] == old(lap[r, c]) + if r == c == i - 1 then o.reliability else 0.0
    ensures forall r, p | 0 <= r < n - 1 && 0 <= p < dim ::
              rhs[r, p] == old(rhs[r, p]) - if r == i - 1 then o.reliability * o.delta[p] else 0.0
  {
    lap[i-1, i-1] := lap[i-1, i-1] + o.reliability;
    for p := 0 to dim
      invariant forall r, c | 0 <= r < n - 1 && 0 <= c < n - 1 ::
                  lap[r, c] == old(lap[r, c]) + if r == c == i - 1 then o.reliability else 0.0
      invariant forall r, q | 0 <= r < n - 1 && 0 <= q < dim ::
                  rhs[r, q] == old(rhs[r, q]) - if r == i - 1 && q < p then o.reliability * o.delta[q] else 0.0
    {
      rhs[i-1, p] := rhs[i-1, p] - o.reliability * o.delta[p];
    }
  }

  /** The row of the node an observation leads to. */
  method AddTarget(n: nat, dim: nat, o: Observation, j: nat, lap: array2<real>, rhs: array2<real>)
    requires 1 <= j < n && |o.delta| == dim && lap != rhs
    requires lap.Length0 == lap.Length1 == rhs.Length0 == n - 1 && rhs.Length1 == dim
    modifies lap, rhs
    ensures forall r, c | 0 <= r < n - 1 && 0 <= c < n - 1 ::
              lap[r, c] == old(lap[r, c]) + if r == c == j - 1 then o.reliability else 0.0
    ensures forall r, p | 0 <= r < n - 1 && 0 <= p < dim ::
              rhs[r, p] == old(rhs[r, p]) + if r == j - 1 then o.reliability * o.delta[p] else 0.0
  {
    lap[j-1, j-1] := lap[j-1, j-1] + o.reliability;
    for p := 0 to dim
      invariant forall r, c | 0 <= r < n - 1 && 0 <= c < n - 1 ::
                  lap[r, c] == old(lap[r, c]) + if r == c == j - 1 then o.reliability else 0.0
      invariant forall r, q | 0 <= r < n - 1 && 0 <= q < dim ::
                  rhs[r, q] == old(rhs[r, q]) + if r == j - 1 && q < p then o.reliability * o.delta[q] else 0.0
    {
      rhs[j-1, p] := rhs[j-1, p] + o.reliability * o.delta[p];
    }
  }

  /** All coordinates of the observations. */
  ghost function Coordinates(obs: seq<Observation>, order: seq<string>, dim: nat): (mss: seq<seq<Measurement>>)
    requires Indexed(obs, order) && forall k | 0 <= k < |obs| :: |obs[k].delta| == dim
    ensures |mss| == dim && forall p | 0 <= p < dim :: mss[p] == Coordinate(obs, order, p)
  {
    seq(dim, p requires 0 <= p < dim => Coordinate(obs, order, p))
  }

  lemma BumpSkipsDiff(m: Measurement, d: real, i: nat, j: nat)
    ensures Bump(m, i, j) == Bump(m.(diff := d), i, j)
  {
  }

  method AccumulateOne(obs: seq<Observation>, order: seq<string>, dim: nat, lap: array2<real>, rhs: array2<real>,
      k: nat)
    requires Indexed(obs, order) && k < |obs| && forall l | 0 <= l < |obs| :: |obs[l].delta| == dim
    requires IndexOf(order, obs[k].fromCheckpoint) != IndexOf(order, obs[k].toCheckpoint) && lap != rhs
    requires Accumulated(|order|, dim, Coordinates(obs, order, dim), |obs|, lap, rhs, k)
    modifies lap, rhs
    ensures Accumulated(|order|, dim, Coordinates(obs, order, dim), |obs|, lap, rhs, k + 1)
  {
    var o := obs[k];
    ghost var mss := Coordinates(obs, order, dim);
    var i, j := IndexOf(order, o.fromCheckpoint), IndexOf(order, o.toCheckpoint);
    AddObservation(|order|, dim, o, i, j, lap, rhs);
    forall r, c | 0 <= r < |order| - 1 && 0 <= c < |order| - 1
      ensures lap[r, c] == Entry(|order|, mss[0], r, c, k + 1)
    {
      BumpSkipsDiff(mss[0][k], 0.0, r, c);
    }
  }

  /** The grounded Laplacian with the ridge on its diagonal, and the right sides. */
  method AssembleLaplacian(obs: seq<Observation>, order: seq<string>, dim: nat, ridge: real)
    returns (lap: array2<real>, rhs: array2<real>)
    requires Accepted(obs, ridge) && Indexed(obs, order) && dim == |obs[0].delta|
    requires forall l | 0 <= l < |obs| :: |obs[l].delta| == dim
    ensures lap.Length0 == lap.Length1 == rhs.Length0 == |order| - 1 && rhs.Length1 == dim
    ensures forall i, j | 0 <= i < |order| - 1 && 0 <= j < |order| - 1 ::
              lap[i, j] == Entry(|order|, Coordinate(obs, order, 0), i, j, |obs|) + if i == j then ridge else 0.0
    ensures forall i, p | 0 <= i < |order| - 1 && 0 <= p < dim ::
              rhs[i, p] == RhsEntry(Coordinate(obs, order, p), i, |obs|)
  {
    lap := new real[|order|-1, |order|-1]((_, _) => 0.0);
    rhs := new real[|order|-1, dim]((_, _) => 0.0);
    AccumulateAll(obs, order, dim, lap, rhs);
    AddRidge(lap, ridge);
  }

  /** Add every observation in turn to accumulators that start at zero. */
  method AccumulateAll(obs: seq<Observation>, order: seq<string>, dim: nat, lap: array2<real>, rhs: array2<real>)
    requires Indexed(obs, order) && forall l | 0 <= l < |obs| :: |obs[l].delta| == dim
    requires forall l | 0 <= l < |obs| :: AcceptedOne(obs[l], dim)
    requires Accumulated(|order|, dim, Coordinates(obs, order, dim), |obs|, lap, rhs, 0) && lap != rhs
    modifies lap, rhs
    ensures Accumulated(|order|, dim, Coordinates(obs, order, dim), |obs|, lap, rhs, |obs|)
  {
    for k := 0 to |obs|
      invariant Accumulated(|order|, dim, Coordinates(obs, order, dim), |obs|, lap, rhs, k)
    {
      AccumulateOne(obs, order, dim, lap, rhs, k);
    }
  }

  /** Add the ridge to the diagonal. */
  method AddRidge(lap: array2<real>, ridge: real)
    requires lap.Length0 == lap.Length1
    modifies lap
    ensures forall i, j | 0 <= i < lap.Length0 && 0 <= j < lap.Length0 ::
              lap[i, j] == old(lap[i, j]) + if i == j then ridge else 0.0
  {
    for i := 0 to lap.Length0
      invariant forall p, q | 0 <= p < lap.Length0 && 0 <= q < lap.Length0 ::
                  lap[p, q] == old(lap[p, q]) + if p == q && p < i then ridge else 0.0
    {
      lap[i, i] := lap[i, i] + ridge;
    }
  }

  // ----- the potentials

  datatype Reconstruction = Reconstruction(order: seq<string>, potentials: Mat, residuals: Vec, cycleRms: real,
                                           maxResidual: real)

  /** Coordinate `p` of every potential. */
  ghost function Column(potentials: Mat, p: nat): (u: Vec)
    requires forall v | 0 <= v < |potentials| :: p < |potentials[v]|
    ensures |u| == |potentials| && forall v | 0 <= v < |u| :: u[v] == potentials[v][p]
  {
    seq(|potentials|, v requires 0 <= v < |potentials| => potentials[v][p])
  }

  /** Every coordinate of the potentials is the unique minimiser of its misfit plus ridge. */
  ghost predicate Reconstructs(obs: seq<Observation>, order: seq<string>, ridge: real, potentials: Mat) {
    && obs != [] && Rows(potentials, |order|, |obs[0].delta|)
    && (forall p | 0 <= p < |obs[0].delta| :: Minimises(obs, order, ridge, p, Column(potentials, p)))
  }

  ghost predicate Minimises(obs: seq<Observation>, order: seq<string>, ridge: real, p: nat, u: Vec) {
    && Indexed(obs, order) && (forall k | 0 <= k < |obs| :: p < |obs[k].delta|)
    && WellFormed(|order|, Coordinate(obs, order, p))
    && IsInversion(|order|, Coordinate(obs, order, p), ridge, u)
  }

  function ColumnOf(m: array2<real>, p: nat): (b: Vec)
    requires p < m.Length1
    reads m
    ensures |b| == m.Length0 && forall i | 0 <= i < m.Length0 :: b[i] == m[i, p]
  {
    seq(m.Length0, i requires 0 <= i < m.Length0 reads m => m[i, p])
  }

  /** The solution for one coordinate is the unique minimiser of that coordinate's energy. */
  lemma CoordinateMinimal(obs: seq<Observation>, order: seq<string>, ridge: real, p: nat, a: Mat, b: Vec, x: Vec)
    requires Accepted(obs, ridge) && Indexed(obs, order) && p < |obs[0].delta|
    requires forall k | 0 <= k < |obs| :: |obs[k].delta| == |obs[0].delta|
    requires Rows(a, |order| - 1, |order| - 1) && |b| == |x| == |order| - 1 && MatVec(a, x) == b
    requires forall i, j | 0 <= i < |order| - 1 && 0 <= j < |order| - 1 ::
               a[i][j] == Entry(|order|, Coordinate(obs, order, 0), i, j, |obs|) + if i == j then ridge else 0.0
    requires forall i | 0 <= i < |order| - 1 :: b[i] == RhsEntry(Coordinate(obs, order, p), i, |obs|)
    ensures Minimises(obs, order, ridge, p, Potentials(x))
  {
    var n, ms := |order|, Coordinate(obs, order, p);
    CoordinateWellFormed(obs, order, ridge, p);
    forall i, j | 0 <= i < n - 1 && 0 <= j < n - 1
      ensures a[i][j] == Entry(n, ms, i, j, |ms|) + if i == j then ridge else 0.0
    {
      SameEntry(n, Coordinate(obs, order, 0), ms, i, j, |ms|);
    }
    EntriesAssemble(n, ms, ridge, a, b);
    AssembledFacts(n, ms, ridge, a, b);
    InversionIsMinimal(n, ms, ridge, a, b, x);
  }

  /** The assembled accumulators. */
  ghost predicate IsLaplacian(obs: seq<Observation>, order: seq<string>, ridge: real, a: Mat, bs: seq<Vec>) {
    && Accepted(obs, ridge) && Indexed(obs, order)
    && (forall k | 0 <= k < |obs| :: |obs[k].delta| == |obs[0].delta|)
    && Rows(a, |order| - 1, |order| - 1) && Rows(bs, |obs[0].delta|, |order| - 1)
    && (forall i, j | 0 <= i < |order| - 1 && 0 <= j < |order| - 1 ::
          a[i][j] == Entry(|order|, Coordinate(obs, order, 0), i, j, |obs|) + if i == j then ridge else 0.0)
    && (forall p, i | 0 <= p < |obs[0].delta| && 0 <= i < |order| - 1 ::
          bs[p][i] == RhsEntry(Coordinate(obs, order, p), i, |obs|))
  }

  /** The solver gave up, with this code, on one coordinate of the assembled system. */
  ghost predicate SolverRefuses(solve: Solver, obs: seq<Observation>, order: seq<string>, ridge: real, code: string) {
    exists a, bs, p: nat {:trigger RefusedAt(solve, obs, order, ridge, a, bs, p, code)} ::
      RefusedAt(solve, obs, order, ridge, a, bs, p, code)
  }

  ghost predicate RefusedAt(solve: Solver, obs: seq<Observation>, order: seq<string>, ridge: real, a: Mat, bs: seq<Vec>,
                            p: nat, code: string) {
    IsLaplacian(obs, order, ridge, a, bs) && p < |bs| && solve(a, bs[p]) == Err(code)
  }

  lemma SolutionMinimal(obs: seq<Observation>, order: seq<string>, ridge: real, a: Mat, bs: seq<Vec>, p: nat, x: Vec)
    requires IsLaplacian(obs, order, ridge, a, bs) && p < |obs[0].delta|
    requires |x| == |order| - 1 && MatVec(a, x) == bs[p]
    ensures Minimises(obs, order, ridge, p, Potentials(x))
  {
    CoordinateMinimal(obs, order, ridge, p, a, bs[p], x);
  }

  /** Write the potentials of one coordinate; the anchor stays at zero. */
  method StoreColumn(before: Mat, n: nat, dim: nat, p: nat, x: Vec) returns (after: Mat)
    requires n >= 1 && Rows(before, n, dim) && p < dim && |x| == n - 1 && Column(before, p) == Zeros(n)
    ensures Rows(after, n, dim) && Column(after, p) == Potentials(x)
    ensures forall q | 0 <= q < dim && q != p :: Column(after, q) == Column(before, q)
  {
    after := WriteColumn(before, n, dim, p, x);
    ColumnIsPotentials(before, after, n, dim, p, x);
    OtherColumns(before, after, n, dim, p);
  }

  /** Solve one coordinate and write its potentials. */
  method SolveCoordinate(solve: Solver, obs: seq<Observation>, order: seq<string>, ridge: real,
                         a: Mat, bs: seq<Vec>, before: Mat, p: nat)
    returns (r: Result<Mat>)
    requires SolvesExactly(solve) && IsLaplacian(obs, order, ridge, a, bs) && p < |obs[0].delta|
    requires Rows(before, |order|, |obs[0].delta|) && Column(before, p) == Zeros(|order|)
    ensures r.Ok? ==> Rows(r.value, |order|, |obs[0].delta|)
    ensures r.Ok? ==> Minimises(obs, order, ridge, p, Column(r.value, p))
    ensures r.Ok? ==> forall q | 0 <= q < |obs[0].delta| && q != p :: Column(r.value, q) == Column(before, q)
    ensures r.Err? ==> solve(a, bs[p]) == Err(r.code)
  {
    var x := solve(a, bs[p]);
    if x.Err? {
      return Err(x.code);
    }
    SolutionMinimal(obs, order, ridge, a, bs, p, x.value);
    var after := StoreColumn(before, |order|, |obs[0].delta|, p, x.value);
    r := Ok(after);
  }

  lemma OtherColumns(before: Mat, after: Mat, n: nat, dim: nat, p: nat)
    requires Rows(before, n, dim) && Rows(after, n, dim)
    requires forall v, q | 0 <= v < n && 0 <= q < dim && q != p :: after[v][q] == before[v][q]
    ensures forall q | 0 <= q < dim && q != p :: Column(after, q) == Column(before, q)
  {
  }

  method SolveCoordinates(solve: Solver, obs: seq<Observation>, order: seq<string>, ridge: real, a: Mat, bs: seq<Vec>)
    returns (r: Result<Mat>)
    requires SolvesExactly(solve) && IsLaplacian(obs, order, ridge, a, bs)
    ensures r.Ok? ==> Reconstructs(obs, order, ridge, r.value)
    ensures r.Err? ==> SolverRefuses(solve, obs, order, ridge, r.code)
  {
    var n, dim := |order|, |obs[0].delta|;
    var potentials := seq(n, _ => Zeros(dim));
    for p := 0 to dim
      invariant Rows(potentials, n, dim)
      invariant forall q | p <= q < dim :: Column(potentials, q) == Zeros(n)
      invariant forall q | 0 <= q < p :: Minimises(obs, order, ridge, q, Column(potentials, q))
    {
      var next := SolveCoordinate(solve, obs, order, ridge, a, bs, potentials, p);
      if next.Err? {
        assert RefusedAt(solve, obs, order, ridge, a, bs, p, next.code);
        return Err(next.code);
      }
      potentials := next.value;
    }
    r := Ok(potentials);
  }

  lemma ColumnIsPotentials(before: Mat, after: Mat, n: nat, dim: nat, p: nat, x: Vec)
    requires n >= 1 && Rows(before, n, dim) && Rows(after, n, dim) && p < dim && |x| == n - 1
    requires Column(before, p) == Zeros(n)
    requires forall v, q | 0 <= v < n && 0 <= q < dim ::
               after[v][q] == if q == p && v > 0 then x[v-1] else before[v][q]
    ensures Column(after, p) == Potentials(x)
  {
    forall v | 0 <= v < n
      ensures Column(after, p)[v] == Potentials(x)[v]
    {
      assert Column(before, p)[v] == 0.0;
    }
  }

  method WriteColumn(before: Mat, n: nat, dim: nat, p: nat, x: Vec) returns (after: Mat)
    requires n >= 1 && Rows(before, n, dim) && p < dim && |x| == n - 1
    ensures Rows(after, n, dim)
    ensures forall v, q | 0 <= v < n && 0 <= q < dim ::
              after[v][q] == if q == p && v > 0 then x[v-1] else before[v][q]
  {
    after := before;
    for node := 1 to n
      invariant Rows(after, n, dim)
      invariant forall v, q | 0 <= v < n && 0 <= q < dim ::
                  after[v][q] == if q == p && 0 < v < node then x[v-1] else before[v][q]
    {
      after := after[node := after[node][p := x[node-1]]];
    }
  }

  /** The checkpoints named by the observations form a connected graph. */
  ghost predicate ConnectedTrajectory(obs: seq<Observation>, order: seq<string>)
    requires Indexed(obs, order) && forall k | 0 <= k < |obs| :: 0 < |obs[k].delta|
  {
    Components(|order|, EdgesOf(Coordinate(obs, order, 0), |obs|)) == 1
  }

  /** The entry checks, in order; the empty string when all pass. */
  function EntryError(obs: seq<Observation>, ridge: real): (code: string)
    ensures code == "" <==> Accepted(obs, ridge)
  {
    if obs == [] then "sbas_no_edges"
    else if ridge <= 0.0 then "sbas_ridge_invalid"
    else if |obs[0].delta| == 0 || exists o <- obs :: |o.delta| != |obs[0].delta| then "sbas_dimension_mismatch"
    else if exists o <- obs :: Blank(o.fromCheckpoint) || Blank(o.toCheckpoint) || o.fromCheckpoint == o.toCheckpoint
      then "sbas_checkpoint_edge_invalid"
    else if exists o <- obs :: o.reliability <= 0.0 || o.reliability > 1.0 then "sbas_reliability_invalid"
    else
      assert forall k | 0 <= k < |obs| :: obs[k] in obs && AcceptedOne(obs[k], |obs[0].delta|);
      ""
  }

  // ----- the residuals

  /** Potentials and observations of one dimension. */
  ghost predicate Placed(obs: seq<Observation>, order: seq<string>, potentials: Mat) {
    && obs != [] && Indexed(obs, order) && Rows(potentials, |order|, |obs[0].delta|)
    && (forall k | 0 <= k < |obs| :: |obs[k].delta| == |obs[0].delta|)
  }

  function ResidualsOf(sqrt: real -> real, obs: seq<Observation>, order: seq<string>, potentials: Mat): (rs: Vec)
    requires IsSqrt(sqrt) && Placed(obs, order, potentials)
    ensures |rs| == |obs| && forall k | 0 <= k < |obs| :: rs[k] == ResidualAt(sqrt, obs[k], order, potentials)
  {
    seq(|obs|, k requires 0 <= k < |obs| => ResidualAt(sqrt, obs[k], order, potentials))
  }

  /** The relative residual of one observation. */
  function ResidualAt(sqrt: real -> real, o: Observation, order: seq<string>, potentials: Mat): real
    requires IsSqrt(sqrt) && o.fromCheckpoint in order && o.toCheckpoint in order
    requires Rows(potentials, |order|, |o.delta|)
  {
    EdgeResidual(sqrt, potentials[IndexOf(order, o.fromCheckpoint)], potentials[IndexOf(order, o.toCheckpoint)],
      o.delta)
  }

  function Reliabilities(obs: seq<Observation>): (ws: Vec)
    ensures |ws| == |obs| && forall k | 0 <= k < |obs| :: ws[k] == obs[k].reliability
  {
    seq(|obs|, k requires 0 <= k < |obs| => obs[k].reliability)
  }

  /** One residual for each observation, their weighted root mean square, and the largest. */
  ghost predicate Measures(sqrt: real -> real, obs: seq<Observation>, r: Reconstruction)
    requires IsSqrt(sqrt) && Placed(obs, r.order, r.potentials)
  {
    && r.residuals == ResidualsOf(sqrt, obs, r.order, r.potentials)
    && r.cycleRms == sqrt(MeanSquare(r.residuals, Reliabilities(obs)))
    && r.maxResidual == Largest(r.residuals, |r.residuals|)
  }

  /** The accumulators hold the first `k` residuals. */
  predicate Summed(rs: Vec, ws: Vec, k: nat, norms: Vec, sq: real, weightSum: real, maxr: real) {
    && k <= |rs| == |ws| && norms == rs[..k] && sq == Squares(rs, ws, k)
    && weightSum == Total(ws, k) && maxr == Largest(rs, k)
  }

  lemma SummedMore(rs: Vec, ws: Vec, k: nat, norms: Vec, sq: real, weightSum: real, maxr: real, w: real, r: real)
    requires Summed(rs, ws, k, norms, sq, weightSum, maxr) && k < |rs| && w == ws[k] && r == rs[k]
    ensures Summed(rs, ws, k + 1, norms + [r], sq + w * r * r, weightSum + w, Max(maxr, r))
  {
    assert r * (w * r) == w * r * r;
  }

  method MeasureResiduals(sqrt: real -> real, obs: seq<Observation>, order: seq<string>, potentials: Mat)
    returns (r: Reconstruction)
    requires IsSqrt(sqrt) && Placed(obs, order, potentials)
    ensures r.order == order && r.potentials == potentials && Measures(sqrt, obs, r)
  {
    ghost var rs, ws := ResidualsOf(sqrt, obs, order, potentials), Reliabilities(obs);
    var norms: Vec, sq, weightSum, maxr := [], 0.0, 0.0, 0.0;
    for k := 0 to |obs|
      invariant Summed(rs, ws, k, norms, sq, weightSum, maxr)
    {
      var residual, w := ResidualAt(sqrt, obs[k], order, potentials), obs[k].reliability;
      SummedMore(rs, ws, k, norms, sq, weightSum, maxr, w, residual);
      sq := sq + w * residual * residual;
      weightSum := weightSum + w;
      maxr := Max(maxr, residual);
      norms := norms + [residual];
    }
    r := Reconstruction(order, potentials, norms, sqrt(Share(sq, weightSum)), maxr);
  }

  /** The step the potentials take along observation `k`, in coordinate `p`. */
  function StepOf(o: Observation, order: seq<string>, potentials: Mat, p: nat): real
    requires o.fromCheckpoint in order && o.toCheckpoint in order && p < |o.delta|
    requires Rows(potentials, |order|, |o.delta|)
  {
    potentials[IndexOf(order, o.toCheckpoint)][p] - potentials[IndexOf(order, o.fromCheckpoint)][p]
  }

  ghost predicate ReproducedAt(obs: seq<Observation>, order: seq<string>, potentials: Mat, k: nat, p: nat)
    requires Placed(obs, order, potentials) && k < |obs| && p < |obs[0].delta|
  {
    StepOf(obs[k], order, potentials, p) == obs[k].delta[p]
  }

  ghost predicate AllReproduced(obs: seq<Observation>, order: seq<string>, potentials: Mat, k: nat)
    requires Placed(obs, order, potentials) && k < |obs|
  {
    forall p {:trigger ReproducedAt(obs, order, potentials, k, p)} | 0 <= p < |obs[0].delta| ::
      ReproducedAt(obs, order, potentials, k, p)
  }

  /** The potentials reproduce every observation. */
  ghost predicate Reproduces(obs: seq<Observation>, order: seq<string>, potentials: Mat)
    requires Placed(obs, order, potentials)
  {
    forall k {:trigger AllReproduced(obs, order, potentials, k)} | 0 <= k < |obs| ::
      AllReproduced(obs, order, potentials, k)
  }

  ghost predicate UnchangedAt(obs: seq<Observation>, k: nat, p: nat)
    requires k < |obs| && p < |obs[k].delta|
  {
    obs[k].delta[p] == 0.0
  }

  /** No observation reports any change. */
  ghost predicate NoChange(obs: seq<Observation>) {
    forall k, p {:trigger UnchangedAt(obs, k, p)} | 0 <= k < |obs| && 0 <= p < |obs[k].delta| :: UnchangedAt(obs, k, p)
  }

  /** One residual vanishes exactly when its observation is reproduced. */
  lemma OneZero(sqrt: real -> real, obs: seq<Observation>, order: seq<string>, potentials: Mat, k: nat, r: real)
    requires IsSqrt(sqrt) && Placed(obs, order, potentials) && k < |obs|
    requires r == ResidualAt(sqrt, obs[k], order, potentials)
    ensures r >= 0.0 && (r == 0.0 <==> AllReproduced(obs, order, potentials, k))
  {
    var from, to := IndexOf(order, obs[k].fromCheckpoint), IndexOf(order, obs[k].toCheckpoint);
    ResidualZero(sqrt, potentials[from], potentials[to], obs[k].delta);
    if AllReproduced(obs, order, potentials, k) {
      forall p | 0 <= p < |obs[k].delta|
        ensures potentials[to][p] - potentials[from][p] == obs[k].delta[p]
      {
        assert ReproducedAt(obs, order, potentials, k, p);
      }
    }
  }

  /** The largest residual vanishes exactly when every observation is reproduced. */
  lemma LargestZero(sqrt: real -> real, obs: seq<Observation>, order: seq<string>, potentials: Mat, rs: Vec)
    requires IsSqrt(sqrt) && Placed(obs, order, potentials) && rs == ResidualsOf(sqrt, obs, order, potentials)
    ensures forall k | 0 <= k < |rs| :: rs[k] >= 0.0
    ensures Largest(rs, |rs|) == 0.0 <==> Reproduces(obs, order, potentials)
  {
    forall k | 0 <= k < |obs|
      ensures rs[k] >= 0.0 && (rs[k] == 0.0 <==> AllReproduced(obs, order, potentials, k))
    {
      OneZero(sqrt, obs, order, potentials, k, rs[k]);
    }
    if Largest(rs, |rs|) == 0.0 {
      forall k | 0 <= k < |obs|
        ensures AllReproduced(obs, order, potentials, k)
      {
        assert rs[k] <= 0.0;
      }
    }
  }

  /** The best potentials of a positive ridge reproduce the observations exactly when nothing changed. */
  lemma ReproducesIffNoChange(obs: seq<Observation>, order: seq<string>, ridge: real, potentials: Mat)
    requires Accepted(obs, ridge) && Placed(obs, order, potentials) && Reconstructs(obs, order, ridge, potentials)
    ensures Reproduces(obs, order, potentials) <==> NoChange(obs)
  {
    if Reproduces(obs, order, potentials) {
      forall k, p | 0 <= k < |obs| && 0 <= p < |obs[k].delta|
        ensures UnchangedAt(obs, k, p)
      {
        forall l | 0 <= l < |obs|
          ensures StepOf(obs[l], order, potentials, p) == obs[l].delta[p]
        {
          assert AllReproduced(obs, order, potentials, l) && ReproducedAt(obs, order, potentials, l, p);
        }
        CoordinateExact(obs, order, ridge, potentials, p);
      }
    }
    if NoChange(obs) {
      forall k | 0 <= k < |obs|
        ensures AllReproduced(obs, order, potentials, k)
      {
        AllUnchanged(obs, order, ridge, potentials, k);
      }
    }
  }

  lemma AllUnchanged(obs: seq<Observation>, order: seq<string>, ridge: real, potentials: Mat, k: nat)
    requires Accepted(obs, ridge) && Placed(obs, order, potentials) && Reconstructs(obs, order, ridge, potentials)
    requires NoChange(obs) && k < |obs|
    ensures AllReproduced(obs, order, potentials, k)
  {
    forall p | 0 <= p < |obs[0].delta|
      ensures ReproducedAt(obs, order, potentials, k, p)
    {
      forall l | 0 <= l < |obs|
        ensures obs[l].delta[p] == 0.0
      {
        assert UnchangedAt(obs, l, p);
      }
      CoordinateExact(obs, order, ridge, potentials, p);
    }
  }

  /** One coordinate is reproduced by all observations exactly when none of them changes it. */
  lemma CoordinateExact(obs: seq<Observation>, order: seq<string>, ridge: real, potentials: Mat, p: nat)
    requires Accepted(obs, ridge) && Placed(obs, order, potentials) && Reconstructs(obs, order, ridge, potentials)
    requires p < |obs[0].delta|
    ensures (forall k | 0 <= k < |obs| :: StepOf(obs[k], order, potentials, p) == obs[k].delta[p])
       <==> (forall k | 0 <= k < |obs| :: obs[k].delta[p] == 0.0)
  {
    var ms, u := Coordinate(obs, order, p), Column(potentials, p);
    assert Minimises(obs, order, ridge, p, u);
    ExactIffZero(|order|, ms, ridge, u);
    assert forall k | 0 <= k < |obs| :: u[ms[k].b] - u[ms[k].a] == StepOf(obs[k], order, potentials, p);
    assert forall k | 0 <= k < |obs| :: ms[k].diff == obs[k].delta[p];
  }

  /** The weighted root mean square never exceeds the largest residual, and either is zero exactly when no
      observation reports any change: the ridge keeps even consistent observations from being reproduced. */
  lemma ResidualLaws(sqrt: real -> real, obs: seq<Observation>, ridge: real, r: Reconstruction)
    requires IsSqrt(sqrt) && Accepted(obs, ridge) && Placed(obs, r.order, r.potentials)
    requires Reconstructs(obs, r.order, ridge, r.potentials) && Measures(sqrt, obs, r)
    ensures 0.0 <= r.cycleRms <= r.maxResidual
    ensures r.cycleRms == 0.0 <==> NoChange(obs)
    ensures r.maxResidual == 0.0 <==> NoChange(obs)
  {
    var ws := Reliabilities(obs);
    LargestZero(sqrt, obs, r.order, r.potentials, r.residuals);
    ReproducesIffNoChange(obs, r.order, ridge, r.potentials);
    forall k | 0 <= k < |obs|
      ensures ws[k] > 0.0
    {
      assert AcceptedOne(obs[k], |obs[0].delta|);
    }
    RootMeanBelow(sqrt, r.residuals, ws, MeanSquare(r.residuals, ws), r.maxResidual);
  }

  // ----- the whole reconstruction

  method ReconstructTrajectory(solve: Solver, sqrt: real -> real, obs: seq<Observation>, ridge: real)
    returns (r: Result<Reconstruction>, ghost order: seq<string>)
    requires SolvesExactly(solve) && IsSqrt(sqrt)
    ensures !Accepted(obs, ridge) ==> r == Err(EntryError(obs, ridge))
    ensures Accepted(obs, ridge) ==>
              && IsOrder(obs, order, |obs|) && Indexed(obs, order) && (forall k | 0 <= k < |obs| :: 0 < |obs[k].delta|)
              && (!ConnectedTrajectory(obs, order) ==> r == Err("sbas_checkpoint_graph_disconnected"))
              && (ConnectedTrajectory(obs, order) && r.Err? ==> SolverRefuses(solve, obs, order, ridge, r.code))
    ensures r.Ok? ==> r.value.order == order && Reconstructs(obs, order, ridge, r.value.potentials)
    ensures r.Ok? ==> Placed(obs, order, r.value.potentials) && Measures(sqrt, obs, r.value)
  {
    order := [];
    var code := EntryError(obs, ridge);
    if code != "" {
      return Err(code), [];
    }
    var checkpoints := CheckpointOrder(obs);
    order := checkpoints;
    OrderIndexes(obs, order, ridge);
    CoordinateWellFormed(obs, order, ridge, 0);
    var ok := IsAnchored(|checkpoints|, Coordinate(obs, checkpoints, 0));
    if !ok {
      return Err("sbas_checkpoint_graph_disconnected"), order;
    }
    var potentials := Invert(solve, obs, checkpoints, ridge);
    if potentials.Err? {
      return Err(potentials.code), order;
    }
    SameDimension(obs, ridge);
    var measured := MeasureResiduals(sqrt, obs, checkpoints, potentials.value);
    r := Ok(measured);
  }

  lemma SameDimension(obs: seq<Observation>, ridge: real)
    requires Accepted(obs, ridge)
    ensures forall k | 0 <= k < |obs| :: |obs[k].delta| == |obs[0].delta|
  {
    forall k | 0 <= k < |obs|
      ensures |obs[k].delta| == |obs[0].delta|
    {
      assert AcceptedOne(obs[k], |obs[0].delta|);
    }
  }

  /** Assemble the Laplacian and solve every coordinate. */
  method Invert(solve: Solver, obs: seq<Observation>, order: seq<string>, ridge: real) returns (r: Result<Mat>)
    requires SolvesExactly(solve) && Accepted(obs, ridge) && Indexed(obs, order)
    ensures r.Ok? ==> Reconstructs(obs, order, ridge, r.value)
    ensures r.Err? ==> SolverRefuses(solve, obs, order, ridge, r.code)
  {
    SameDimension(obs, ridge);
    var lap, rhs := AssembleLaplacian(obs, order, |obs[0].delta|, ridge);
    var bs := seq(rhs.Length1, p requires 0 <= p < rhs.Length1 reads rhs => ColumnOf(rhs, p));
    r := SolveCoordinates(solve, obs, order, ridge, AsMat(lap), bs);
  }
}
