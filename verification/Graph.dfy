/** Undirected graphs on 0..n-1: paths, connectivity, and the number of connected components. */
module Graph {
  import opened Prelude

  type Edge = (nat, nat)

  ghost predicate InGraph(n: nat, es: set<Edge>) {
    forall e <- es :: e.0 < n && e.1 < n
  }

  ghost predicate Adjacent(es: set<Edge>, x: nat, y: nat) {
    (x, y) in es || (y, x) in es
  }

  /** Consecutive vertices of `p` are joined by an edge. */
  ghost predicate IsPath(es: set<Edge>, p: seq<nat>) {
    p != [] && forall i | 0 <= i < |p| - 1 :: Adjacent(es, p[i], p[i+1])
  }

  ghost predicate PathBetween(es: set<Edge>, p: seq<nat>, x: nat, y: nat) {
    IsPath(es, p) && p[0] == x && p[|p|-1] == y
  }

  ghost predicate Connected(es: set<Edge>, x: nat, y: nat) {
    exists p :: PathBetween(es, p, x, y)
  }

  lemma ConnectedSelf(es: set<Edge>, x: nat)
    ensures Connected(es, x, x)
  {
    assert PathBetween(es, [x], x, x);
  }

  lemma ConnectedEdge(es: set<Edge>, x: nat, y: nat)
    requires Adjacent(es, x, y)
    ensures Connected(es, x, y)
  {
    assert PathBetween(es, [x, y], x, y);
  }

  lemma ConnectedTrans(es: set<Edge>, x: nat, y: nat, z: nat)
    requires Connected(es, x, y) && Connected(es, y, z)
    ensures Connected(es, x, z)
  {
    var p :| PathBetween(es, p, x, y);
    var q :| PathBetween(es, q, y, z);
    var r := p + q[1..];
    forall i | 0 <= i < |r| - 1
      ensures Adjacent(es, r[i], r[i+1])
    {
      if i < |p| - 1 {
        assert r[i] == p[i] && r[i+1] == p[i+1];
      } else {
        assert r[i] == q[i+1-|p|] && r[i+1] == q[i+2-|p|];
      }
    }
    assert PathBetween(es, r, x, z);
  }

  lemma ConnectedSym(es: set<Edge>, x: nat, y: nat)
    requires Connected(es, x, y)
    ensures Connected(es, y, x)
  {
    var p :| PathBetween(es, p, x, y);
    var r := seq(|p|, i requires 0 <= i < |p| => p[|p|-1-i]);
    forall i | 0 <= i < |r| - 1
      ensures Adjacent(es, r[i], r[i+1])
    {
      assert Adjacent(es, p[|p|-2-i], p[|p|-1-i]);
    }
    assert PathBetween(es, r, y, x);
  }

  lemma ConnectedMono(es: set<Edge>, fs: set<Edge>, x: nat, y: nat)
    requires es <= fs && Connected(es, x, y)
    ensures Connected(fs, x, y)
  {
    var p :| PathBetween(es, p, x, y);
    assert PathBetween(fs, p, x, y);
  }

  /** `lab` gives two vertices the same label exactly when they are connected. */
  ghost predicate Represents(n: nat, lab: seq<nat>, es: set<Edge>) {
    && |lab| == n
    && (forall x, y | 0 <= x < n && 0 <= y < n && lab[x] == lab[y] :: Connected(es, x, y))
    && (forall x, y | 0 <= x < n && 0 <= y < n && Adjacent(es, x, y) :: lab[x] == lab[y])
  }

  /** Labels agree along paths. */
  lemma {:induction false} PathKeepsLabel(n: nat, lab: seq<nat>, es: set<Edge>, p: seq<nat>)
    requires InGraph(n, es) && Represents(n, lab, es)
    requires IsPath(es, p) && p[0] < n
    ensures p[|p|-1] < n && lab[p[|p|-1]] == lab[p[0]]
    decreases |p|
  {
    if |p| > 1 {
      assert Adjacent(es, p[0], p[1]);
      assert IsPath(es, p[1..]) by {
        forall i | 0 <= i < |p[1..]| - 1
          ensures Adjacent(es, p[1..][i], p[1..][i+1])
        {
          assert Adjacent(es, p[i+1], p[i+2]);
        }
      }
      PathKeepsLabel(n, lab, es, p[1..]);
    }
  }

  lemma LabelsAgree(n: nat, lab: seq<nat>, es: set<Edge>, x: nat, y: nat)
    requires InGraph(n, es) && Represents(n, lab, es) && x < n && y < n
    ensures lab[x] == lab[y] <==> Connected(es, x, y)
  {
    if Connected(es, x, y) {
      var p :| PathBetween(es, p, x, y);
      PathKeepsLabel(n, lab, es, p);
    }
  }

  /** Give every vertex labelled `from` the label `to`. */
  function Join(lab: seq<nat>, from: nat, to: nat): (r: seq<nat>)
    ensures |r| == |lab|
    ensures forall x | 0 <= x < |lab| :: r[x] == if lab[x] == from then to else lab[x]
  {
    seq(|lab|, x requires 0 <= x < |lab| => if lab[x] == from then to else lab[x])
  }

  /** Adding an edge joins the labels of its ends. */
  lemma JoinRepresents(n: nat, lab: seq<nat>, es: set<Edge>, a: nat, b: nat, from: nat, to: nat)
    requires InGraph(n, es) && Represents(n, lab, es) && a < n && b < n
    requires (from == lab[a] && to == lab[b]) || (from == lab[b] && to == lab[a])
    ensures Represents(n, Join(lab, from, to), es + {(a, b)})
  {
    var fs, next := es + {(a, b)}, Join(lab, from, to);
    forall x, y | 0 <= x < n && 0 <= y < n && next[x] == next[y]
      ensures Connected(fs, x, y)
    {
      JoinConnects(n, lab, es, a, b, from, to, x, y);
    }
  }

  lemma JoinConnects(n: nat, lab: seq<nat>, es: set<Edge>, a: nat, b: nat, from: nat, to: nat, x: nat, y: nat)
    requires InGraph(n, es) && Represents(n, lab, es) && a < n && b < n && x < n && y < n
    requires (from == lab[a] && to == lab[b]) || (from == lab[b] && to == lab[a])
    requires Join(lab, from, to)[x] == Join(lab, from, to)[y]
    ensures Connected(es + {(a, b)}, x, y)
  {
    var fs := es + {(a, b)};
    if lab[x] == lab[y] {
      ConnectedMono(es, fs, x, y);
    } else if lab[x] == lab[a] {
      ConnectedMono(es, fs, x, a);
      ConnectedEdge(fs, a, b);
      ConnectedMono(es, fs, b, y);
      ConnectedTrans(fs, x, a, b);
      ConnectedTrans(fs, x, b, y);
    } else {
      ConnectedMono(es, fs, x, b);
      ConnectedEdge(fs, b, a);
      ConnectedMono(es, fs, a, y);
      ConnectedTrans(fs, x, b, a);
      ConnectedTrans(fs, x, a, y);
    }
  }

  /** The labels 0..n-1 represent the graph without edges. */
  lemma IdentityRepresents(n: nat)
    ensures Represents(n, seq(n, i => i), {})
  {
    forall x: nat
      ensures Connected({}, x, x)
    {
      ConnectedSelf({}, x);
    }
  }

  /** Every graph has a labelling. */
  lemma {:induction false} Labelling(n: nat, es: set<Edge>) returns (lab: seq<nat>)
    requires InGraph(n, es)
    ensures Represents(n, lab, es)
  {
    if es == {} {
      lab := seq(n, i => i);
      IdentityRepresents(n);
    } else {
      var e :| e in es;
      lab := Labelling(n, es - {e});
      JoinRepresents(n, lab, es - {e}, e.0, e.1, lab[e.0], lab[e.1]);
      lab := Join(lab, lab[e.0], lab[e.1]);
      assert es - {e} + {(e.0, e.1)} == es;
    }
  }

  // ----- counting components

  /** `x` is the least vertex of its component. */
  ghost predicate Leads(es: set<Edge>, x: nat) {
    forall y: nat | y < x :: !Connected(es, y, x)
  }

  ghost function Leaders(n: nat, es: set<Edge>): (s: set<nat>)
    ensures forall x: nat :: x in s <==> x < n && Leads(es, x)
  {
    set x | x in Interval(0, n) && Leads(es, x)
  }

  /** The number of connected components. */
  ghost function Components(n: nat, es: set<Edge>): nat {
    |Leaders(n, es)|
  }

  lemma ComponentsMono(n: nat, es: set<Edge>, fs: set<Edge>)
    requires es <= fs
    ensures Components(n, fs) <= Components(n, es)
  {
    forall x | x in Leaders(n, fs)
      ensures x in Leaders(n, es)
    {
      forall y: nat | y < x
        ensures !Connected(es, y, x)
      {
        if Connected(es, y, x) {
          ConnectedMono(es, fs, y, x);
        }
      }
    }
    SubsetSize(Leaders(n, fs), Leaders(n, es));
  }

  /** The labels of the first `k` vertices. */
  function LabelSet(lab: seq<nat>, k: nat): set<nat>
    requires k <= |lab|
  {
    if k == 0 then {} else LabelSet(lab, k - 1) + {lab[k-1]}
  }

  lemma {:induction false} LabelUser(lab: seq<nat>, k: nat, l: nat)
    requires k <= |lab|
    ensures l in LabelSet(lab, k) <==> exists x :: 0 <= x < k && lab[x] == l
  {
    if k > 0 {
      LabelUser(lab, k - 1, l);
      if lab[k-1] == l {
        assert 0 <= k - 1 < k && lab[k-1] == l;
      }
    }
  }

  lemma LeadersStep(es: set<Edge>, x: nat)
    ensures |Leaders(x + 1, es)| == |Leaders(x, es)| + if Leads(es, x) then 1 else 0
  {
    LeadersMore(es, x);
  }

  lemma LeadersMore(es: set<Edge>, x: nat)
    ensures Leads(es, x) ==> Leaders(x + 1, es) == Leaders(x, es) + {x}
    ensures !Leads(es, x) ==> Leaders(x + 1, es) == Leaders(x, es)
    ensures x !in Leaders(x, es)
  {
  }

  lemma LabelsStep(lab: seq<nat>, k: nat)
    requires k < |lab|
    ensures |LabelSet(lab, k + 1)| == |LabelSet(lab, k)| + if lab[k] in LabelSet(lab, k) then 0 else 1
  {
    if lab[k] in LabelSet(lab, k) {
      assert LabelSet(lab, k + 1) == LabelSet(lab, k);
    }
  }

  /** A vertex leads exactly when its label is new. */
  lemma NewLabelLeads(n: nat, lab: seq<nat>, es: set<Edge>, x: nat)
    requires InGraph(n, es) && Represents(n, lab, es) && x < n
    ensures Leads(es, x) <==> lab[x] !in LabelSet(lab, x)
  {
    LabelUser(lab, x, lab[x]);
    forall y: nat | y < x
      ensures lab[y] == lab[x] <==> Connected(es, y, x)
    {
      LabelsAgree(n, lab, es, y, x);
    }
  }

  /** If vertices lead exactly when their label is new, there are as many leaders as labels. */
  lemma {:induction false} CountNew(lab: seq<nat>, es: set<Edge>, k: nat)
    requires k <= |lab| && forall x: nat {:trigger LeadsIffNew(lab, es, x)} | x < k :: LeadsIffNew(lab, es, x)
    ensures |LabelSet(lab, k)| == |Leaders(k, es)|
  {
    if k == 0 {
      assert Leaders(0, es) == {};
    } else {
      CountNew(lab, es, k - 1);
      CountOneMore(lab, es, k - 1);
    }
  }

  lemma CountOneMore(lab: seq<nat>, es: set<Edge>, k: nat)
    requires k < |lab| && LeadsIffNew(lab, es, k) && |LabelSet(lab, k)| == |Leaders(k, es)|
    ensures |LabelSet(lab, k + 1)| == |Leaders(k + 1, es)|
  {
    LeadersStep(es, k);
    LabelsStep(lab, k);
  }

  ghost predicate LeadsIffNew(lab: seq<nat>, es: set<Edge>, x: nat)
    requires x < |lab|
  {
    Leads(es, x) <==> lab[x] !in LabelSet(lab, x)
  }

  /** Among the first `k` vertices there are as many labels as leaders. */
  lemma CountLabels(n: nat, lab: seq<nat>, es: set<Edge>, k: nat)
    requires InGraph(n, es) && Represents(n, lab, es) && k <= n
    ensures |LabelSet(lab, k)| == |Leaders(k, es)|
  {
    forall x: nat | x < k
      ensures LeadsIffNew(lab, es, x)
    {
      NewLabelLeads(n, lab, es, x);
    }
    CountNew(lab, es, k);
  }

  /** Joining two different labels leaves one fewer. */
  lemma {:induction false} JoinDropsOne(lab: seq<nat>, from: nat, to: nat, k: nat)
    requires k <= |lab| && from != to
    ensures to in LabelSet(lab, k) ==> LabelSet(Join(lab, from, to), k) == LabelSet(lab, k) - {from}
    ensures from !in LabelSet(lab, k) ==> LabelSet(Join(lab, from, to), k) == LabelSet(lab, k)
    ensures from in LabelSet(lab, k) ==> LabelSet(Join(lab, from, to), k) == LabelSet(lab, k) - {from} + {to}
  {
    if k > 0 {
      JoinDropsOne(lab, from, to, k - 1);
    }
  }

  /** A new edge lowers the number of components by one exactly when it joins two of them. */
  lemma AddEdge(n: nat, es: set<Edge>, a: nat, b: nat)
    requires InGraph(n, es) && a < n && b < n
    ensures Components(n, es + {(a, b)}) == Components(n, es) - if Connected(es, a, b) then 0 else 1
  {
    var lab := Labelling(n, es);
    JoinRepresents(n, lab, es, a, b, lab[a], lab[b]);
    LabelsAgree(n, lab, es, a, b);
    CountLabels(n, lab, es, n);
    CountLabels(n, Join(lab, lab[a], lab[b]), es + {(a, b)}, n);
    LabelUser(lab, n, lab[a]);
    LabelUser(lab, n, lab[b]);
    if lab[a] == lab[b] {
      assert Join(lab, lab[a], lab[b]) == lab;
    } else {
      JoinDropsOne(lab, lab[a], lab[b], n);
    }
  }

  lemma AloneLeads(x: nat)
    ensures Leads({}, x)
  {
    IdentityRepresents(x + 1);
    forall y: nat | y < x
      ensures !Connected({}, y, x)
    {
      LabelsAgree(x + 1, seq(x + 1, i => i), {}, y, x);
    }
  }

  lemma {:induction false} NoEdges(n: nat)
    ensures Components(n, {}) == n
  {
    if n > 0 {
      NoEdges(n - 1);
      AloneLeads(n - 1);
      LeadersStep({}, n - 1);
    } else {
      assert Leaders(0, {}) == {};
    }
  }

  /** One component means every two vertices are connected. */
  lemma OneComponent(n: nat, es: set<Edge>)
    requires n > 0 && InGraph(n, es)
    ensures Components(n, es) == 1 <==> forall x: nat, y: nat | x < n && y < n :: Connected(es, x, y)
  {
    assert Leads(es, 0);
    if forall x: nat, y: nat | x < n && y < n :: Connected(es, x, y) {
      forall x | x in Leaders(n, es)
        ensures x == 0
      {
        assert Connected(es, 0, x);
      }
      assert Leaders(n, es) == {0};
    } else {
      var lab := Labelling(n, es);
      CountLabels(n, lab, es, n);
      var x: nat, y: nat :| x < n && y < n && !Connected(es, x, y);
      LabelUser(lab, n, lab[x]);
      LabelUser(lab, n, lab[y]);
      SubsetSize({lab[x], lab[y]}, LabelSet(lab, n));
    }
  }
}
