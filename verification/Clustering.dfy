/** The rank-balanced union-find of `persistent.rs` and the components of a similarity threshold. */
module Clustering {
  import opened Prelude
  import opened Graph
  import opened Forest
  import opened Sorting

  const MAX_RANK: nat := 255

  /** Union by rank with path compression. The rank saturates like the source's `u8`. */
  class UnionFind {
    const parent: array<nat>
    const rank: array<nat>
    ghost var roots: seq<nat>
    ghost var height: seq<nat>
    ghost var bound: nat

    ghost predicate Valid()
      reads this, parent, rank
    {
      && parent != rank && parent.Length == rank.Length
      && (forall x | 0 <= x < rank.Length :: rank[x] <= MAX_RANK)
      && IsForest(parent[..], roots, height, bound)
    }

    constructor (n: nat)
      ensures Valid() && fresh(parent) && fresh(rank) && parent.Length == n
      ensures Represents(n, roots, {})
    {
      parent := new nat[n](i => i);
      rank := new nat[n](_ => 0);
      roots := seq(n, i => i);
      height := seq(n, _ => 0);
      bound := 0;
      new;
      IdentityRepresents(n);
      assert parent[..] == roots;
      Singletons(parent[..], height);
    }

    /** Returns the root of `x`; no vertex changes its root. */
    method Find(x: nat) returns (r: nat)
      requires Valid() && x < parent.Length
      modifies parent
      ensures Valid() && r == roots[x]
      decreases bound - height[x]
    {
      assert NodeOk(parent[..], roots, height, bound, x);
      if parent[x] != x {
        assert NodeOk(parent[..], roots, height, bound, parent[x]);
        var root := Find(parent[x]);
        Compress(parent[..], roots, height, bound, x);
        ghost var was := parent[..];
        parent[x] := root;
        assert parent[..] == was[x := root];
      }
      assert NodeOk(parent[..], roots, height, bound, x);
      r := parent[x];
    }

    /** Joins the trees of `a` and `b`. */
    method Union(a: nat, b: nat)
      requires Valid() && a < parent.Length && b < parent.Length
      modifies this, parent, rank
      ensures Valid()
      ensures roots == Join(old(roots), old(roots)[a], old(roots)[b])
           || roots == Join(old(roots), old(roots)[b], old(roots)[a])
    {
      var ra := Find(a);
      var rb := Find(b);
      assert NodeOk(parent[..], roots, height, bound, a);
      assert NodeOk(parent[..], roots, height, bound, b);
      if ra == rb {
        assert Join(roots, ra, rb) == roots;
        return;
      }
      if rank[ra] < rank[rb] {
        ra, rb := rb, ra;
      }
      ghost var was := parent[..];
      Link(was, roots, height, bound, rb, ra);
      parent[rb] := ra;
      assert parent[..] == was[rb := ra];
      roots, height, bound := Join(roots, rb, ra), Raised(height, rb, ra), Higher(bound);
      if rank[ra] == rank[rb] {
        rank[ra] := if rank[ra] < MAX_RANK then rank[ra] + 1 else MAX_RANK;
      }
    }
  }

  type Matrix = seq<seq<real>>

  predicate Square(scores: Matrix) {
    forall i | 0 <= i < |scores| :: |scores[i]| == |scores|
  }

  /** The pairs scanned so far whose score reaches the threshold: rows before `i`, and row `i` up to `j`. */
  ghost function Scanned(scores: Matrix, threshold: real, i: nat, j: nat): (es: set<Edge>)
    requires Square(scores) && i <= |scores|
    ensures forall x: nat, y: nat :: (x, y) in es <==>
              x < |scores| && y < x && (x < i || (x == i && y < j)) && scores[x][y] >= threshold
  {
    set x: nat, y: nat | x < |scores| && y < x && (x < i || (x == i && y < j)) && scores[x][y] >= threshold :: (x, y)
  }

  /** The graph of all pairs whose score reaches the threshold. */
  ghost function ThresholdGraph(scores: Matrix, threshold: real): set<Edge>
    requires Square(scores)
  {
    Scanned(scores, threshold, |scores|, 0)
  }

  /** The vertices below `k` with root `r`, ascending. */
  function ClassOf(roots: seq<nat>, r: nat, k: nat): seq<nat>
    requires k <= |roots|
  {
    if k == 0 then []
    else if roots[k-1] == r then ClassOf(roots, r, k - 1) + [k - 1]
    else ClassOf(roots, r, k - 1)
  }

  predicate Ascending(s: seq<nat>) {
    forall i, j | 0 <= i < j < |s| :: s[i] < s[j]
  }

  lemma {:induction false} ClassMembers(roots: seq<nat>, r: nat, k: nat)
    requires k <= |roots|
    ensures Ascending(ClassOf(roots, r, k))
    ensures forall x: nat :: x in ClassOf(roots, r, k) <==> x < k && roots[x] == r
  {
    if k > 0 {
      ClassMembers(roots, r, k - 1);
      var before := ClassOf(roots, r, k - 1);
      forall i | 0 <= i < |before|
        ensures before[i] < k - 1
      {
        assert before[i] in before;
      }
    }
  }

  /** The values of an ordered map, by ascending key below `k`. */
  function ValuesInOrder(m: map<nat, seq<nat>>, k: nat): seq<seq<nat>> {
    if k == 0 then []
    else if k - 1 in m then ValuesInOrder(m, k - 1) + [m[k-1]]
    else ValuesInOrder(m, k - 1)
  }

  /** The order in which components are listed: by first vertex, then by size. */
  predicate FirstLe(a: seq<nat>, b: seq<nat>) {
    a == [] || (b != [] && (a[0] < b[0] || (a[0] == b[0] && |a| <= |b|)))
  }

  lemma FirstLeOrders()
    ensures Total(FirstLe) && Transitive(FirstLe)
  {
  }

  /** The components of a graph, each ascending, listed by their least vertex. */
  ghost predicate IsComponentList(n: nat, es: set<Edge>, cs: seq<seq<nat>>) {
    && (forall k | 0 <= k < |cs| :: IsComponent(n, es, cs[k]))
    && (forall x: nat | x < n :: Listed(cs, x))
    && (forall k, l | 0 <= k < l < |cs| :: cs[k] != [] && cs[l] != [] && cs[k][0] < cs[l][0])
  }

  ghost predicate IsComponent(n: nat, es: set<Edge>, c: seq<nat>) {
    && c != [] && Ascending(c)
    && (forall x <- c :: x < n)
    && (forall x <- c :: forall y: nat | y < n :: y in c <==> Connected(es, x, y))
  }

  ghost predicate Listed(cs: seq<seq<nat>>, x: nat) {
    exists k :: 0 <= k < |cs| && x in cs[k]
  }

  // ----- from roots to the component list

  /** The keys and classes gathered after the first `k` vertices. */
  ghost predicate Groups(roots: seq<nat>, grouped: map<nat, seq<nat>>, k: nat)
    requires k <= |roots|
  {
    forall r :: (r in grouped <==> ClassOf(roots, r, k) != []) && (r in grouped ==> grouped[r] == ClassOf(roots, r, k))
  }

  lemma {:induction false} ValuesMembers(m: map<nat, seq<nat>>, k: nat, v: seq<nat>)
    ensures v in ValuesInOrder(m, k) <==> exists r: nat :: r < k && r in m && m[r] == v
  {
    if k > 0 {
      ValuesMembers(m, k - 1, v);
    }
  }

  /** Distinct keys hold different values, so no value is listed twice. */
  lemma {:induction false} ValuesOnce(m: map<nat, seq<nat>>, k: nat, v: seq<nat>)
    requires forall r: nat, s: nat | r in m && s in m && r != s :: m[r] != m[s]
    ensures multiset(ValuesInOrder(m, k))[v] <= 1
  {
    if k > 0 {
      ValuesOnce(m, k - 1, v);
      if k - 1 in m {
        var rest := ValuesInOrder(m, k - 1);
        ValuesMembers(m, k - 1, m[k-1]);
        assert m[k-1] !in multiset(rest);
      }
    }
  }

  lemma DistinctClasses(roots: seq<nat>, grouped: map<nat, seq<nat>>, n: nat)
    requires |roots| == n && Groups(roots, grouped, n)
    ensures forall r: nat, s: nat | r in grouped && s in grouped && r != s :: grouped[r] != grouped[s]
  {
    forall r: nat, s: nat | r in grouped && s in grouped && r != s
      ensures grouped[r] != grouped[s]
    {
      ClassMembers(roots, r, n);
      ClassMembers(roots, s, n);
      assert grouped[r][0] in grouped[r];
    }
  }

  /** A class of equal roots is a component. */
  lemma ClassIsComponent(n: nat, roots: seq<nat>, es: set<Edge>, r: nat)
    requires InGraph(n, es) && Represents(n, roots, es)
    requires ClassOf(roots, r, n) != []
    ensures IsComponent(n, es, ClassOf(roots, r, n))
  {
    var c := ClassOf(roots, r, n);
    ClassMembers(roots, r, n);
    forall x: nat, y: nat | x in c && y < n
      ensures y in c <==> Connected(es, x, y)
    {
      LabelsAgree(n, roots, es, x, y);
    }
  }

  /** A value occurring once in a list is not at two positions. */
  lemma OncePosition<T>(s: seq<T>, i: nat, j: nat)
    requires i < j < |s| && multiset(s)[s[i]] <= 1
    ensures s[i] != s[j]
  {
    assert s == s[..i] + [s[i]] + s[i+1..j] + [s[j]] + s[j+1..];
  }

  /** Sorting the classes by first vertex lists the components. */
  lemma SortedComponents(n: nat, roots: seq<nat>, es: set<Edge>, grouped: map<nat, seq<nat>>, cs: seq<seq<nat>>)
    requires InGraph(n, es) && Represents(n, roots, es) && (forall x | 0 <= x < n :: roots[x] < n)
    requires Groups(roots, grouped, n)
    requires cs == SortBy(ValuesInOrder(grouped, n), FirstLe)
    ensures IsComponentList(n, es, cs)
  {
    var vals := ValuesInOrder(grouped, n);
    forall k | 0 <= k < |cs|
      ensures IsComponent(n, es, cs[k])
    {
      InMultiset(cs, vals, cs[k]);
      ValuesMembers(grouped, n, cs[k]);
      var r: nat :| r < n && r in grouped && grouped[r] == cs[k];
      ClassIsComponent(n, roots, es, r);
    }
    forall x: nat | x < n
      ensures Listed(cs, x)
    {
      var c := ClassOf(roots, roots[x], n);
      ClassMembers(roots, roots[x], n);
      assert x in c;
      ValuesMembers(grouped, n, c);
      InMultiset(cs, vals, c);
    }
    forall k, l | 0 <= k < l < |cs|
      ensures cs[k] != [] && cs[l] != [] && cs[k][0] < cs[l][0]
    {
      FirstVerticesDiffer(n, roots, es, grouped, cs, k, l);
    }
  }

  lemma FirstVerticesDiffer(n: nat, roots: seq<nat>, es: set<Edge>, grouped: map<nat, seq<nat>>, cs: seq<seq<nat>>,
                            k: nat, l: nat)
    requires InGraph(n, es) && Represents(n, roots, es) && Groups(roots, grouped, n)
    requires cs == SortBy(ValuesInOrder(grouped, n), FirstLe) && k < l < |cs|
    ensures cs[k] != [] && cs[l] != [] && cs[k][0] < cs[l][0]
  {
    FirstLeOrders();
    SortBySorted(ValuesInOrder(grouped, n), FirstLe);
    assert FirstLe(cs[k], cs[l]);
    DistinctClasses(roots, grouped, n);
    ValuesOnce(grouped, n, cs[k]);
    OncePosition(cs, k, l);
    var r := KeyOf(roots, grouped, n, cs, k);
    var s := KeyOf(roots, grouped, n, cs, l);
    ClassMembers(roots, r, n);
    ClassMembers(roots, s, n);
    assert cs[k][0] in cs[k] && cs[l][0] in cs[l];
  }

  lemma KeyOf(roots: seq<nat>, grouped: map<nat, seq<nat>>, n: nat, cs: seq<seq<nat>>, k: nat) returns (r: nat)
    requires |roots| == n && Groups(roots, grouped, n)
    requires cs == SortBy(ValuesInOrder(grouped, n), FirstLe) && k < |cs|
    ensures cs[k] == ClassOf(roots, r, n) && cs[k] != []
  {
    InMultiset(cs, ValuesInOrder(grouped, n), cs[k]);
    ValuesMembers(grouped, n, cs[k]);
    r :| r < n && r in grouped && grouped[r] == cs[k];
  }

  method GroupByRoot(uf: UnionFind, n: nat) returns (grouped: map<nat, seq<nat>>)
    requires uf.Valid() && uf.parent.Length == n
    modifies uf.parent
    ensures uf.Valid() && Groups(uf.roots, grouped, n)
  {
    grouped := map[];
    for i := 0 to n
      invariant uf.Valid() && |uf.roots| == n && Groups(uf.roots, grouped, i)
    {
      var root := uf.Find(i);
      grouped := grouped[root := (if root in grouped then grouped[root] else []) + [i]];
    }
  }

  lemma ScanNext(scores: Matrix, threshold: real, i: nat, j: nat)
    requires Square(scores) && j < i < |scores|
    ensures scores[i][j] >= threshold ==>
              Scanned(scores, threshold, i, j + 1) == Scanned(scores, threshold, i, j) + {(i, j)}
    ensures scores[i][j] < threshold ==> Scanned(scores, threshold, i, j + 1) == Scanned(scores, threshold, i, j)
    ensures InGraph(|scores|, Scanned(scores, threshold, i, j))
  {
  }

  lemma ScanRow(scores: Matrix, threshold: real, i: nat)
    requires Square(scores) && i < |scores|
    ensures Scanned(scores, threshold, i + 1, 0) == Scanned(scores, threshold, i, i)
  {
  }

  /** Joining the two ends of an edge keeps the classes the components of the graph. */
  method JoinPair(n: nat, uf: UnionFind, ghost es: set<Edge>, i: nat, j: nat)
    requires uf.Valid() && uf.parent.Length == n && i < n && j < n
    requires InGraph(n, es) && Represents(n, uf.roots, es)
    modifies uf, uf.parent, uf.rank
    ensures uf.Valid() && Represents(n, uf.roots, es + {(i, j)})
  {
    ghost var was := uf.roots;
    uf.Union(i, j);
    JoinRepresents(n, was, es, i, j, was[i], was[j]);
    JoinRepresents(n, was, es, i, j, was[j], was[i]);
  }

  method JoinPairs(scores: Matrix, threshold: real, uf: UnionFind)
    requires Square(scores) && uf.Valid() && uf.parent.Length == |scores|
    requires Represents(|scores|, uf.roots, {})
    modifies uf, uf.parent, uf.rank
    ensures uf.Valid() && Represents(|scores|, uf.roots, ThresholdGraph(scores, threshold))
  {
    assert Scanned(scores, threshold, 0, 0) == {};
    for i := 0 to |scores|
      invariant uf.Valid() && Represents(|scores|, uf.roots, Scanned(scores, threshold, i, 0))
    {
      for j := 0 to i
        invariant uf.Valid() && Represents(|scores|, uf.roots, Scanned(scores, threshold, i, j))
      {
        ScanNext(scores, threshold, i, j);
        if scores[i][j] >= threshold {
          JoinPair(|scores|, uf, Scanned(scores, threshold, i, j), i, j);
        }
      }
      ScanRow(scores, threshold, i);
    }
  }

  /** `components_at_threshold`: exactly the components of the threshold graph. */
  method ComponentsAtThreshold(scores: Matrix, threshold: real) returns (components: seq<seq<nat>>)
    requires Square(scores)
    ensures IsComponentList(|scores|, ThresholdGraph(scores, threshold), components)
  {
    var n := |scores|;
    var uf := new UnionFind(n);
    JoinPairs(scores, threshold, uf);
    var grouped := GroupByRoot(uf, n);
    components := SortBy(ValuesInOrder(grouped, n), FirstLe);
    forall x | 0 <= x < n
      ensures uf.roots[x] < n
    {
      assert NodeOk(uf.parent[..], uf.roots, uf.height, uf.bound, x);
    }
    SortedComponents(n, uf.roots, ThresholdGraph(scores, threshold), grouped, components);
  }

  /** The first vertices of the first `k` lists. */
  ghost function Heads(cs: seq<seq<nat>>, k: nat): set<nat>
    requires k <= |cs| && forall l | 0 <= l < |cs| :: cs[l] != []
  {
    if k == 0 then {} else Heads(cs, k - 1) + {cs[k-1][0]}
  }

  lemma {:induction false} InHeads(cs: seq<seq<nat>>, k: nat, h: nat)
    requires k <= |cs| && forall l | 0 <= l < |cs| :: cs[l] != []
    ensures h in Heads(cs, k) <==> exists l :: 0 <= l < k && cs[l][0] == h
  {
    if k > 0 {
      InHeads(cs, k - 1, h);
      if cs[k-1][0] == h {
        assert 0 <= k - 1 < k && cs[k-1][0] == h;
      }
    }
  }

  lemma {:induction false} HeadsSize(cs: seq<seq<nat>>, k: nat)
    requires k <= |cs| && forall l | 0 <= l < |cs| :: cs[l] != []
    requires forall i, l | 0 <= i < l < |cs| :: cs[i][0] < cs[l][0]
    ensures |Heads(cs, k)| == k
  {
    if k > 0 {
      HeadsSize(cs, k - 1);
      InHeads(cs, k - 1, cs[k-1][0]);
    }
  }

  lemma HeadLeads(n: nat, es: set<Edge>, c: seq<nat>)
    requires IsComponent(n, es, c)
    ensures Leads(es, c[0])
    ensures forall x <- c :: Leads(es, x) ==> x == c[0]
  {
    assert c[0] in c;
    forall y: nat | y < c[0]
      ensures !Connected(es, y, c[0])
    {
      if Connected(es, y, c[0]) {
        ConnectedSym(es, y, c[0]);
      }
    }
    forall x | x in c && Leads(es, x)
      ensures x == c[0]
    {
      assert Connected(es, c[0], x);
      var i :| 0 <= i < |c| && c[i] == x;
    }
  }

  /** There are as many lists as components. */
  lemma ComponentListSize(n: nat, es: set<Edge>, cs: seq<seq<nat>>)
    requires InGraph(n, es) && IsComponentList(n, es, cs)
    ensures |cs| == Components(n, es)
  {
    forall l | 0 <= l < |cs|
      ensures cs[l] != []
    {
      assert IsComponent(n, es, cs[l]);
    }
    HeadsSize(cs, |cs|);
    forall x: nat
      ensures x in Heads(cs, |cs|) <==> x in Leaders(n, es)
    {
      HeadIsLeader(n, es, cs, x);
    }
    assert Heads(cs, |cs|) == Leaders(n, es);
  }

  lemma HeadIsLeader(n: nat, es: set<Edge>, cs: seq<seq<nat>>, x: nat)
    requires InGraph(n, es) && IsComponentList(n, es, cs)
    requires forall l | 0 <= l < |cs| :: cs[l] != []
    ensures x in Heads(cs, |cs|) <==> x in Leaders(n, es)
  {
    InHeads(cs, |cs|, x);
    if x in Heads(cs, |cs|) {
      var l :| 0 <= l < |cs| && cs[l][0] == x;
      assert IsComponent(n, es, cs[l]) && x in cs[l];
      HeadLeads(n, es, cs[l]);
    }
    if x in Leaders(n, es) {
      assert Listed(cs, x);
      var k :| 0 <= k < |cs| && x in cs[k];
      assert IsComponent(n, es, cs[k]);
      HeadLeads(n, es, cs[k]);
    }
  }

  /** Raising the threshold refines the components. */
  lemma HigherThresholdRefines(scores: Matrix, low: real, high: real, cs: seq<seq<nat>>, ds: seq<seq<nat>>, l: nat)
    requires Square(scores) && low <= high
    requires IsComponentList(|scores|, ThresholdGraph(scores, low), cs)
    requires IsComponentList(|scores|, ThresholdGraph(scores, high), ds)
    requires l < |ds|
    ensures exists k :: 0 <= k < |cs| && forall x <- ds[l] :: x in cs[k]
  {
    var n, es, fs := |scores|, ThresholdGraph(scores, high), ThresholdGraph(scores, low);
    assert IsComponent(n, es, ds[l]);
    var x := ds[l][0];
    assert x in ds[l];
    assert Listed(cs, x);
    var k :| 0 <= k < |cs| && x in cs[k];
    assert IsComponent(n, fs, cs[k]);
    forall y | y in ds[l]
      ensures y in cs[k]
    {
      assert Connected(es, x, y);
      ConnectedMono(es, fs, x, y);
    }
  }
}
