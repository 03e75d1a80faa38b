/** Double counting in the complete graph: how many triangles touch a set of edges. */
module TriangleCount {
  import opened Graph

  type Triple = (nat, nat, nat)

  function In(s: set<Edge>, i: nat, j: nat): (r: nat)
    ensures r <= 1
  {
    if (i, j) in s then 1 else 0
  }

  /** Edges of `s` from a vertex below `m` to `v`. */
  function Degree(s: set<Edge>, v: nat, m: nat): nat {
    if m == 0 then 0 else Degree(s, v, m - 1) + In(s, m - 1, v)
  }

  /** Edges (i, j) of `s` with i < j < m. */
  function EdgeTotal(s: set<Edge>, m: nat): nat {
    if m == 0 then 0 else EdgeTotal(s, m - 1) + Degree(s, m - 1, m - 1)
  }

  function Has(t: set<Triple>, i: nat, j: nat, k: nat): (r: nat)
    ensures r <= 1
  {
    if (i, j, k) in t then 1 else 0
  }

  function Row(t: set<Triple>, k: nat, j: nat, l: nat): nat {
    if l == 0 then 0 else Row(t, k, j, l - 1) + Has(t, l - 1, j, k)
  }

  function Layer(t: set<Triple>, k: nat, m: nat): nat {
    if m == 0 then 0 else Layer(t, k, m - 1) + Row(t, k, m - 1, m - 1)
  }

  /** Triples (i, j, k) of `t` with i < j < k < n. */
  function TripleTotal(t: set<Triple>, n: nat): nat {
    if n == 0 then 0 else TripleTotal(t, n - 1) + Layer(t, n - 1, n - 1)
  }

  // ----- adding one edge or one triple

  lemma {:induction false} AddDegree(s: set<Edge>, e: Edge, v: nat, m: nat)
    requires e !in s
    ensures Degree(s + {e}, v, m) == Degree(s, v, m) + if v == e.1 && e.0 < m then 1 else 0
  {
    if m > 0 {
      AddDegree(s, e, v, m - 1);
    }
  }

  lemma {:induction false} AddToEdges(s: set<Edge>, e: Edge, m: nat)
    requires e !in s && e.0 < e.1
    ensures EdgeTotal(s + {e}, m) == EdgeTotal(s, m) + if e.1 < m then 1 else 0
  {
    if m > 0 {
      AddToEdges(s, e, m - 1);
      AddDegree(s, e, m - 1, m - 1);
    }
  }

  lemma {:induction false} AddRow(t: set<Triple>, e: Triple, k: nat, j: nat, l: nat)
    requires e !in t
    ensures Row(t + {e}, k, j, l) == Row(t, k, j, l) + if k == e.2 && j == e.1 && e.0 < l then 1 else 0
  {
    if l > 0 {
      AddRow(t, e, k, j, l - 1);
    }
  }

  lemma {:induction false} AddLayer(t: set<Triple>, e: Triple, k: nat, m: nat)
    requires e !in t && e.0 < e.1
    ensures Layer(t + {e}, k, m) == Layer(t, k, m) + if k == e.2 && e.1 < m then 1 else 0
  {
    if m > 0 {
      AddLayer(t, e, k, m - 1);
      AddRow(t, e, k, m - 1, m - 1);
    }
  }

  lemma {:induction false} AddTriple(t: set<Triple>, e: Triple, n: nat)
    requires e !in t && e.0 < e.1 < e.2
    ensures TripleTotal(t + {e}, n) == TripleTotal(t, n) + if e.2 < n then 1 else 0
  {
    if n > 0 {
      AddTriple(t, e, n - 1);
      AddLayer(t, e, n - 1, n - 1);
    }
  }

  lemma {:induction false} EmptyTotals(n: nat)
    ensures EdgeTotal({}, n) == 0 && TripleTotal({}, n) == 0
  {
    if n > 0 {
      EmptyTotals(n - 1);
      EmptyLayer(n - 1, n - 1);
    }
  }

  lemma {:induction false} EmptyLayer(k: nat, m: nat)
    ensures Degree({}, k, m) == 0 && Layer({}, k, m) == 0
  {
    if m > 0 {
      EmptyLayer(k, m - 1);
      EmptyRow(k, m - 1, m - 1);
    }
  }

  lemma {:induction false} EmptyRow(k: nat, j: nat, l: nat)
    ensures Row({}, k, j, l) == 0
  {
    if l > 0 {
      EmptyRow(k, j, l - 1);
    }
  }

  lemma {:induction false} RowMono(t: set<Triple>, u: set<Triple>, k: nat, j: nat, l: nat)
    requires t <= u
    ensures Row(t, k, j, l) <= Row(u, k, j, l)
  {
    if l > 0 {
      RowMono(t, u, k, j, l - 1);
    }
  }

  lemma {:induction false} LayerMono(t: set<Triple>, u: set<Triple>, k: nat, m: nat)
    requires t <= u
    ensures Layer(t, k, m) <= Layer(u, k, m)
  {
    if m > 0 {
      LayerMono(t, u, k, m - 1);
      RowMono(t, u, k, m - 1, m - 1);
    }
  }

  lemma {:induction false} TotalMono(t: set<Triple>, u: set<Triple>, n: nat)
    requires t <= u
    ensures TripleTotal(t, n) <= TripleTotal(u, n)
  {
    if n > 0 {
      TotalMono(t, u, n - 1);
      LayerMono(t, u, n - 1, n - 1);
    }
  }

  // ----- the double count

  /** `t` contains every triangle below `n` with an edge in `s`. */
  ghost predicate Covers(t: set<Triple>, s: set<Edge>, n: nat) {
    forall i: nat, j: nat, k: nat | i < j && j < k && k < n :: Touches(s, i, j, k) ==> (i, j, k) in t
  }

  predicate Touches(s: set<Edge>, i: nat, j: nat, k: nat) {
    (i, j) in s || (j, k) in s || (i, k) in s
  }

  /** One row: three times the covered triangles bounds the edges they use. */
  lemma {:induction false} RowBound(t: set<Triple>, s: set<Edge>, n: nat, k: nat, j: nat, l: nat)
    requires Covers(t, s, n) && l <= j < k < n
    ensures 3 * Row(t, k, j, l) >= Degree(s, j, l) + l * In(s, j, k) + Degree(s, k, l)
  {
    if l > 0 {
      RowBound(t, s, n, k, j, l - 1);
      assert Touches(s, l - 1, j, k) ==> (l - 1, j, k) in t;
      assert l * In(s, j, k) == (l - 1) * In(s, j, k) + In(s, j, k);
    }
  }

  /** One layer: every edge below `m` once, and every edge to `k` m - 1 times. */
  lemma LayerStep(m: int, d: int, x: int)
    ensures (m - 1) * (d + x) == (m - 2) * d + d + (m - 1) * x
  {
  }

  lemma {:induction false} LayerBound(t: set<Triple>, s: set<Edge>, n: nat, k: nat, m: nat)
    requires Covers(t, s, n) && m <= k < n
    ensures m >= 1 ==> 3 * Layer(t, k, m) >= EdgeTotal(s, m) + (m - 1) * Degree(s, k, m)
  {
    if m > 1 {
      LayerBound(t, s, n, k, m - 1);
      var j := m - 1;
      RowBound(t, s, n, k, j, j);
      LayerStep(m, Degree(s, k, j), In(s, j, k));
    } else if m == 1 {
      assert EdgeTotal(s, 1) == EdgeTotal(s, 0) + Degree(s, 0, 0) == 0;
    }
  }

  /** Every edge lies in n - 2 triangles and every triangle has three edges. */
  lemma {:induction false} TouchBound(t: set<Triple>, s: set<Edge>, m: nat, n: nat)
    requires Covers(t, s, n) && 2 <= m <= n
    ensures 3 * TripleTotal(t, m) >= (m - 2) * EdgeTotal(s, m)
  {
    if m > 2 {
      TouchBound(t, s, m - 1, n);
      var k := m - 1;
      LayerBound(t, s, n, k, k);
      assert EdgeTotal(s, m) == EdgeTotal(s, k) + Degree(s, k, k);
      Distribute(m, EdgeTotal(s, k), Degree(s, k, k));
    }
  }

  lemma Distribute(m: int, x: int, y: int)
    ensures (m - 2) * (x + y) == (m - 3) * x + x + (m - 2) * y
  {
  }

  lemma ThreePoints(t: set<Triple>, s: set<Edge>)
    requires Covers(t, s, 3)
    ensures EdgeTotal(s, 3) >= 1 ==> TripleTotal(t, 3) >= 1
  {
    TouchBound(t, s, 3, 3);
  }

  lemma UnrollFour(t: set<Triple>, s: set<Edge>)
    ensures EdgeTotal(s, 4) == In(s, 0, 1) + In(s, 0, 2) + In(s, 1, 2) + In(s, 0, 3) + In(s, 1, 3) + In(s, 2, 3)
    ensures TripleTotal(t, 4) == Has(t, 0, 1, 2) + Has(t, 0, 1, 3) + Has(t, 0, 2, 3) + Has(t, 1, 2, 3)
  {
    assert Degree(s, 3, 3) == In(s, 0, 3) + In(s, 1, 3) + In(s, 2, 3) by {
      assert Degree(s, 3, 1) == In(s, 0, 3);
    }
    assert EdgeTotal(s, 3) == In(s, 0, 1) + In(s, 0, 2) + In(s, 1, 2) by {
      assert EdgeTotal(s, 1) == 0;
      assert Degree(s, 2, 1) == In(s, 0, 2);
      assert Degree(s, 1, 1) == In(s, 0, 1);
      assert EdgeTotal(s, 2) == In(s, 0, 1);
    }
    assert TripleTotal(t, 3) == Has(t, 0, 1, 2) by {
      assert Row(t, 2, 1, 1) == Has(t, 0, 1, 2);
      assert Layer(t, 2, 1) == 0;
      assert Layer(t, 2, 2) == Has(t, 0, 1, 2);
      assert Layer(t, 1, 1) == 0;
      assert TripleTotal(t, 1) == 0;
      assert TripleTotal(t, 2) == 0;
    }
    assert Layer(t, 3, 3) == Has(t, 0, 1, 3) + Has(t, 0, 2, 3) + Has(t, 1, 2, 3) by {
      assert Layer(t, 3, 1) == 0;
      assert Row(t, 3, 1, 1) == Has(t, 0, 1, 3);
      assert Layer(t, 3, 2) == Has(t, 0, 1, 3);
      assert Row(t, 3, 2, 1) == Has(t, 0, 2, 3);
    }
  }

  lemma FourPoints(t: set<Triple>, s: set<Edge>)
    requires Covers(t, s, 4)
    ensures TripleTotal(t, 4) >= if EdgeTotal(s, 4) < 3 then EdgeTotal(s, 4) else 3
  {
    UnrollFour(t, s);
    assert Touches(s, 0, 1, 2) ==> (0, 1, 2) in t;
    assert Touches(s, 0, 1, 3) ==> (0, 1, 3) in t;
    assert Touches(s, 0, 2, 3) ==> (0, 2, 3) in t;
    assert Touches(s, 1, 2, 3) ==> (1, 2, 3) in t;
  }

  /** The triangles touching `s` outnumber both the edges of `s` and all independent cycles, whichever is less. */
  lemma TrianglesSuffice(t: set<Triple>, s: set<Edge>, n: nat, cycles: nat)
    requires Covers(t, s, n) && n >= 2
    requires cycles <= EdgeTotal(s, n) && 2 * cycles <= (n - 1) * (n - 2)
    ensures cycles <= TripleTotal(t, n)
  {
    if n == 3 {
      ThreePoints(t, s);
    } else if n == 4 {
      FourPoints(t, s);
    } else if n >= 5 {
      TouchBound(t, s, n, n);
      AtLeastThrice(n - 2, EdgeTotal(s, n));
    }
  }

  lemma AtLeastThrice(a: int, x: nat)
    requires a >= 3
    ensures a * x >= 3 * x
  {
  }
}
