/** Parent-pointer forests. `roots[x]` is the root of `x`; `height` grows along parent pointers, which is
    why following them terminates even when a bounded rank no longer says anything. */
module Forest {
  import opened Prelude
  import opened Graph

  ghost predicate IsForest(parent: seq<nat>, roots: seq<nat>, height: seq<nat>, bound: nat) {
    && |parent| == |roots| == |height|
    && (forall x | 0 <= x < |parent| :: NodeOk(parent, roots, height, bound, x))
  }

  ghost predicate NodeOk(parent: seq<nat>, roots: seq<nat>, height: seq<nat>, bound: nat, x: nat)
    requires |parent| == |roots| == |height| && x < |parent|
  {
    && parent[x] < |parent| && roots[x] < |parent| && height[x] <= bound
    && roots[parent[x]] == roots[x]
    && parent[roots[x]] == roots[x] && roots[roots[x]] == roots[x]
    && (parent[x] == x ==> roots[x] == x)
    && (parent[x] != x ==> height[x] < height[parent[x]] && height[x] < height[roots[x]])
  }

  lemma Singletons(parent: seq<nat>, height: seq<nat>)
    requires |height| == |parent|
    requires forall x | 0 <= x < |parent| :: parent[x] == x && height[x] == 0
    ensures IsForest(parent, parent, height, 0)
  {
  }

  /** Pointing a node straight at its root changes no root. */
  lemma Compress(parent: seq<nat>, roots: seq<nat>, height: seq<nat>, bound: nat, x: nat)
    requires IsForest(parent, roots, height, bound) && x < |parent|
    ensures IsForest(parent[x := roots[x]], roots, height, bound)
  {
    var next := parent[x := roots[x]];
    assert NodeOk(parent, roots, height, bound, x);
    forall y | 0 <= y < |parent|
      ensures NodeOk(next, roots, height, bound, y)
    {
      assert NodeOk(parent, roots, height, bound, y);
    }
  }

  ghost function Raised(height: seq<nat>, child: nat, root: nat): (h: seq<nat>)
    requires child < |height| && root < |height|
    ensures |h| == |height|
  {
    height[root := if height[root] <= height[child] then height[child] + 1 else height[root]]
  }

  ghost function Higher(bound: nat): nat {
    bound + 1
  }

  /** Hanging one root under another joins the two trees. */
  lemma Link(parent: seq<nat>, roots: seq<nat>, height: seq<nat>, bound: nat, child: nat, root: nat)
    requires IsForest(parent, roots, height, bound) && child < |parent| && root < |parent| && child != root
    requires roots[child] == child && roots[root] == root
    ensures IsForest(parent[child := root], Join(roots, child, root), Raised(height, child, root), Higher(bound))
  {
    var next, lab, h := parent[child := root], Join(roots, child, root), Raised(height, child, root);
    assert NodeOk(parent, roots, height, bound, child);
    assert NodeOk(parent, roots, height, bound, root);
    forall y | 0 <= y < |parent|
      ensures NodeOk(next, lab, h, Higher(bound), y)
    {
      assert NodeOk(parent, roots, height, bound, y);
    }
  }
}
