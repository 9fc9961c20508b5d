/** What a finished search says about the graph: reachability, bridges, and which node sets can
    be removed without cutting anything else off from the root. */
module SegmentTheory {
  import opened Graphs
  import opened DfsTree

  /** The invariant of a search with nothing left on its stack, restated over edges. */
  ghost predicate Complete(g: Graph, root: int, s: Dfs) {
    && Shape(g, root, s)
    && (forall u, w | u in s.disc && g.Edge(u, w) ::
          LowBound(s.disc, s.low, s.parent, u, w) && (Above(s.anc, u, w) || Above(s.anc, w, u)))
    && (forall v | v in s.parent && v in s.low && s.parent[v] in s.low :: s.low[s.parent[v]] <= s.low[v])
    && LowAttained(g, s.disc, s.low, s.parent, s.anc)
  }

  lemma SearchComplete(g: Graph, root: int, s: Dfs)
    requires Inv(g, root, s, [])
    ensures Complete(g, root, s)
  {
    hide Numbering, Parents, Children, Ancestors, Stack, LowAttained;
    forall u, w | u in s.disc && g.Edge(u, w)
      ensures LowBound(s.disc, s.low, s.parent, u, w) && (Above(s.anc, u, w) || Above(s.anc, w, u))
    {
      var k :| 0 <= k < |g.Neighbors(u)| && g.Neighbors(u)[k] == w;
      assert u in s.done && s.done[u] == |g.Neighbors(u)|;
      assert g.Neighbors(u)[k] in g.nodes;
    }
  }

  // ---------------------------------------------------------------- the ancestor relation

  lemma {:induction false} AboveTrans(g: Graph, root: int, s: Dfs, a: int, b: int, c: int)
    requires Shape(g, root, s) && Above(s.anc, a, b) && Above(s.anc, b, c)
    ensures Above(s.anc, a, c)
    decreases s.disc[c]
  {
    hide Numbering, Children;
    if b != c {
      AboveTrans(g, root, s, a, b, s.parent[c]);
    }
  }

  /** The ancestors of a node form a chain. */
  lemma {:induction false} Chain(g: Graph, root: int, s: Dfs, a: int, b: int, c: int)
    requires Shape(g, root, s) && Above(s.anc, a, c) && Above(s.anc, b, c)
    ensures Above(s.anc, a, b) || Above(s.anc, b, a)
    decreases s.disc[c]
  {
    hide Numbering, Children;
    if a != c && b != c {
      Chain(g, root, s, a, b, s.parent[c]);
    }
  }

  lemma {:induction false} RootAbove(g: Graph, root: int, s: Dfs, v: int)
    requires Shape(g, root, s) && v in s.disc
    ensures Above(s.anc, root, v) && Above(s.anc, v, v)
    decreases s.disc[v]
  {
    hide Children;
    if v != root {
      RootAbove(g, root, s, s.parent[v]);
    }
  }

  lemma ProperlyAbove(g: Graph, root: int, s: Dfs, a: int, v: int)
    requires Shape(g, root, s) && Above(s.anc, a, v) && a != v
    ensures v in s.parent && Above(s.anc, a, s.parent[v]) && s.disc[a] < s.disc[v]
  {
    hide Children;
  }

  lemma ParentOutside(g: Graph, root: int, s: Dfs, v: int)
    requires Shape(g, root, s) && v in s.parent
    ensures s.parent[v] in s.disc && !Above(s.anc, v, s.parent[v]) && s.disc[s.parent[v]] < s.disc[v]
    ensures g.Edge(s.parent[v], v) && Above(s.anc, s.parent[v], v) && v in s.disc && v != root
  {
    hide Children;
    RootAbove(g, root, s, s.parent[v]);
  }

  /** Tree edges lead from an ancestor down to a descendant, through nodes between the two only. */
  lemma {:induction false} TreeWalk(g: Graph, root: int, s: Dfs, a: int, v: int) returns (p: seq<int>)
    requires Shape(g, root, s) && Above(s.anc, a, v)
    ensures g.WalkBetween(p, a, v)
    ensures forall x | x in p :: Above(s.anc, a, x) && Above(s.anc, x, v)
    decreases s.disc[v]
  {
    hide Children;
    RootAbove(g, root, s, v);
    if a == v {
      p := [v];
    } else {
      var up := s.parent[v];
      var q := TreeWalk(g, root, s, a, up);
      p := q + [v];
      WalkJoin(g, q, [v]);
      forall x | x in p ensures Above(s.anc, a, x) && Above(s.anc, x, v) {
        if x in q { AboveTrans(g, root, s, x, up, v); }
      }
    }
  }

  // ---------------------------------------------------------------- reachability

  lemma {:induction false} WalkStaysVisited(g: Graph, root: int, s: Dfs, p: seq<int>)
    requires Complete(g, root, s) && g.Walk(p) && p[0] in s.disc
    ensures p[|p| - 1] in s.disc
    decreases |p|
  {
    hide Shape, LowAttained;
    if |p| > 1 {
      var q := p[..|p| - 1];
      WalkStaysVisited(g, root, s, q);
      assert g.Edge(p[|p| - 2], p[|p| - 1]);
      assert LowBound(s.disc, s.low, s.parent, p[|p| - 2], p[|p| - 1]);
    }
  }

  /** The search numbers exactly the nodes reachable from the root, 0 .. n-1 without gaps. */
  lemma VisitsReachable(g: Graph, root: int, s: Dfs)
    requires Complete(g, root, s)
    ensures forall v :: v in s.disc <==> g.Reachable(root, v)
    ensures forall v | v in s.disc :: 0 <= s.disc[v] < |s.disc|
    ensures forall u, v | u in s.disc && v in s.disc && s.disc[u] == s.disc[v] :: u == v
  {
    forall v ensures v in s.disc <==> g.Reachable(root, v) {
      if v in s.disc {
        RootAbove(g, root, s, v);
        var p := TreeWalk(g, root, s, root, v);
      }
      if g.Reachable(root, v) {
        var p :| g.WalkBetween(p, root, v);
        WalkStaysVisited(g, root, s, p);
      }
    }
  }

  /** Every edge among visited nodes joins an ancestor and a descendant. */
  lemma EdgesFollowTree(g: Graph, root: int, s: Dfs, u: int, w: int)
    requires Complete(g, root, s) && g.Edge(u, w) && u in s.disc
    ensures w in s.disc && (Above(s.anc, u, w) || Above(s.anc, w, u))
  {
    hide Shape, LowAttained;
    assert LowBound(s.disc, s.low, s.parent, u, w);
  }

  // ---------------------------------------------------------------- low values

  lemma {:induction false} LowDescends(g: Graph, root: int, s: Dfs, v: int, u: int)
    requires Complete(g, root, s) && Above(s.anc, v, u) && v in s.low && u in s.low
    ensures s.low[v] <= s.low[u]
    decreases s.disc[u]
  {
    hide LowAttained;
    if v != u {
      ProperlyAbove(g, root, s, v, u);
      ParentOutside(g, root, s, u);
      LowDescends(g, root, s, v, s.parent[u]);
    }
  }

  /** `low[v]` is the least number reachable from `v`'s subtree by at most one edge other than the
      tree edge to a parent. */
  lemma LowIsMinimum(g: Graph, root: int, s: Dfs, v: int)
    requires Complete(g, root, s) && v in s.disc
    ensures v in s.low && s.low[v] <= s.disc[v]
    ensures forall u, w | Reaches(g, s.parent, s.anc, v, u, w) :: w in s.disc && s.low[v] <= s.disc[w]
    ensures s.low[v] == s.disc[v] || exists u, w ::
        Reaches(g, s.parent, s.anc, v, u, w) && w in s.disc
        && s.disc[w] == s.low[v]
  {
    forall u, w | Reaches(g, s.parent, s.anc, v, u, w) ensures w in s.disc && s.low[v] <= s.disc[w] {
      LowDescends(g, root, s, v, u);
      assert LowBound(s.disc, s.low, s.parent, u, w);
    }
  }

  // ---------------------------------------------------------------- bridges

  /** The test that makes `v` the head of a branch. */
  predicate Emitted(root: int, s: Dfs, v: int) {
    && v in s.parent && s.parent[v] in s.disc && v in s.low
    && (s.parent[v] == root || s.low[v] > s.disc[s.parent[v]])
  }

  /** An edge that leaves a subtree goes to a proper ancestor of its top. */
  lemma ExitGoesUp(g: Graph, root: int, s: Dfs, v: int, u: int, w: int)
    requires Complete(g, root, s) && v in s.parent
    requires Above(s.anc, v, u) && g.Edge(u, w) && !Above(s.anc, v, w)
    ensures Above(s.anc, w, s.parent[v])
  {
    EdgesFollowTree(g, root, s, u, w);
    if Above(s.anc, u, w) {
      AboveTrans(g, root, s, v, u, w);
    } else {
      Chain(g, root, s, v, w, u);
      ProperlyAbove(g, root, s, w, v);
    }
  }

  /** When `low[v] > disc[parent[v]]` the tree edge is the only way out of `v`'s subtree. */
  lemma OnlyExit(g: Graph, root: int, s: Dfs, v: int, u: int, w: int)
    requires Complete(g, root, s) && v in s.parent && s.parent[v] in s.disc && v in s.low
    requires s.low[v] > s.disc[s.parent[v]]
    requires Above(s.anc, v, u) && g.Edge(u, w) && !Above(s.anc, v, w)
    ensures u == v && w == s.parent[v]
  {
    ExitGoesUp(g, root, s, v, u, w);
    LowIsMinimum(g, root, s, v);
    assert s.disc[w] <= s.disc[s.parent[v]];
    EdgesFollowTree(g, root, s, u, w);
    if HasParent(s.parent, u, w) {
      if u != v {
        ProperlyAbove(g, root, s, v, u);
      }
    } else {
      assert Reaches(g, s.parent, s.anc, v, u, w);
    }
  }

  lemma {:induction false} TrappedWalk(g: Graph, root: int, s: Dfs, v: int, p: seq<int>)
    requires Complete(g, root, s) && v in s.parent && s.parent[v] in s.disc && v in s.low
    requires s.low[v] > s.disc[s.parent[v]]
    requires g.Walk(p) && g.Avoids(p, s.parent[v], v) && Above(s.anc, v, p[0])
    ensures Above(s.anc, v, p[|p| - 1])
    decreases |p|
  {
    hide Complete;
    if |p| > 1 {
      var q := p[..|p| - 1];
      TrappedWalk(g, root, s, v, q);
      assert g.Edge(p[|p| - 2], p[|p| - 1]);
      if !Above(s.anc, v, p[|p| - 1]) {
        OnlyExit(g, root, s, v, p[|p| - 2], p[|p| - 1]);
      }
    }
  }

  lemma SymmetricWalk(g: Graph, p: seq<int>, a: int, b: int) returns (q: seq<int>)
    requires g.Symmetric() && g.WalkBetween(p, a, b)
    ensures g.WalkBetween(q, b, a)
    ensures forall c, d | g.Avoids(p, c, d) :: g.Avoids(q, c, d)
  {
    q := seq(|p|, i requires 0 <= i < |p| => p[|p| - 1 - i]);
    forall i | 0 < i < |q| ensures g.Edge(q[i - 1], q[i]) {
      assert g.Edge(p[|p| - 1 - i], p[|p| - i]);
    }
    forall c, d | g.Avoids(p, c, d) ensures g.Avoids(q, c, d) {
      forall i | 0 < i < |q|
        ensures !(q[i - 1] == c && q[i] == d) && !(q[i - 1] == d && q[i] == c)
      {
        assert q[i - 1] == p[|p| - i] && q[i] == p[|p| - 1 - i];
      }
    }
  }

  /** A tree edge is a bridge exactly when the low-link inequality is strict. */
  lemma BridgeIffLow(g: Graph, root: int, s: Dfs, v: int)
    requires g.Symmetric() && Complete(g, root, s) && v in s.parent && s.parent[v] in s.disc && v in s.low
    ensures s.low[v] > s.disc[s.parent[v]] <==> g.Bridge(s.parent[v], v)
  {
    ParentOutside(g, root, s, v);
    if s.low[v] > s.disc[s.parent[v]] {
      forall p | g.WalkBetween(p, s.parent[v], v) ensures !g.Avoids(p, s.parent[v], v) {
        if g.Avoids(p, s.parent[v], v) {
          var q := SymmetricWalk(g, p, s.parent[v], v);
          RootAbove(g, root, s, v);
          TrappedWalk(g, root, s, v, q);
        }
      }
    } else {
      var p := Detour(g, root, s, v);
    }
  }

  /** If some other edge climbs out of the subtree, parent and child are joined without the tree edge. */
  lemma Detour(g: Graph, root: int, s: Dfs, v: int) returns (p: seq<int>)
    requires g.Symmetric() && Complete(g, root, s) && v in s.parent && s.parent[v] in s.disc && v in s.low
    requires s.low[v] <= s.disc[s.parent[v]]
    ensures g.WalkBetween(p, s.parent[v], v) && g.Avoids(p, s.parent[v], v)
  {
    var up := s.parent[v];
    ParentOutside(g, root, s, v);
    LowIsMinimum(g, root, s, v);
    var u, w :| Reaches(g, s.parent, s.anc, v, u, w) && w in s.disc && s.disc[w] == s.low[v];
    DetourParts(g, root, s, v, u, w);
    var down := TreeWalk(g, root, s, v, u);
    var back := TreeWalk(g, root, s, w, up);
    hide Complete, LowBound, Above;
    WalkJoin(g, down, back);
    AvoidsByAbsence(g, down, up, v, up);
    AvoidsByAbsence(g, back, up, v, v);
    AvoidsJoin(g, down, back, up, v);
    p := SymmetricWalk(g, down + back, v, up);
  }

  lemma AvoidsByAbsence(g: Graph, p: seq<int>, a: int, b: int, missing: int)
    requires missing !in p && (missing == a || missing == b)
    ensures g.Avoids(p, a, b)
  {
  }

  lemma DetourParts(g: Graph, root: int, s: Dfs, v: int, u: int, w: int)
    requires Complete(g, root, s) && v in s.parent && s.parent[v] in s.disc
    requires Reaches(g, s.parent, s.anc, v, u, w) && w in s.disc && s.disc[w] <= s.disc[s.parent[v]]
    ensures Above(s.anc, w, s.parent[v])
    ensures !(u == s.parent[v]) && !(u == v && w == s.parent[v]) && w != v
  {
    ParentOutside(g, root, s, v);
    if Above(s.anc, v, w) {
      if v != w { ProperlyAbove(g, root, s, v, w); }
      assert false;
    }
    ExitGoesUp(g, root, s, v, u, w);
  }

  // ---------------------------------------------------------------- branches and removal

  /** Below the root, a subtree is emitted exactly when its anchoring edge is a bridge. Every edge
      that leaves an emitted subtree ends at its anchor, and below the root there is only one. */
  lemma EmittedIffBridge(g: Graph, root: int, s: Dfs, v: int)
    requires g.Symmetric() && Complete(g, root, s) && v in s.parent
    ensures s.parent[v] != root ==> (Emitted(root, s, v) <==> g.Bridge(s.parent[v], v))
    ensures Emitted(root, s, v) ==>
              forall u, w | Above(s.anc, v, u) && g.Edge(u, w) && !Above(s.anc, v, w) ::
                w == s.parent[v] && (s.parent[v] != root ==> u == v)
  {
    ParentOutside(g, root, s, v);
    BridgeIffLow(g, root, s, v);
    if Emitted(root, s, v) {
      forall u, w | Above(s.anc, v, u) && g.Edge(u, w) && !Above(s.anc, v, w)
        ensures w == s.parent[v] && (s.parent[v] != root ==> u == v)
      {
        if s.parent[v] == root {
          ExitGoesUp(g, root, s, v, u, w);
        } else {
          OnlyExit(g, root, s, v, u, w);
        }
      }
    }
  }

  /** Taking out a whole subtree leaves every other visited node connected to the root. */
  lemma SubtreeRemovalSafe(g: Graph, root: int, s: Dfs, v: int, x: int)
    requires Complete(g, root, s) && v in s.disc && x in s.disc && !Above(s.anc, v, x)
    ensures g.ReachableWithout(root, x, Subtree(s.anc, v))
  {
    RootAbove(g, root, s, x);
    var p := TreeWalk(g, root, s, root, x);
    forall i | 0 <= i < |p| ensures p[i] !in Subtree(s.anc, v) {
      assert p[i] in p;
      if Above(s.anc, v, p[i]) { AboveTrans(g, root, s, v, p[i], x); }
    }
  }

  /** Taking out one childless node leaves every other visited node connected to the root. */
  lemma LeafRemovalSafe(g: Graph, root: int, s: Dfs, leaf: int, x: int)
    requires Complete(g, root, s) && leaf in s.disc && ChildrenOf(s.kids, leaf) == []
    requires x in s.disc && x != leaf
    ensures g.ReachableWithout(root, x, {leaf})
  {
    RootAbove(g, root, s, x);
    if Above(s.anc, leaf, x) {
      var c := ChildTowards(g, root, s, leaf, x);
      assert false;
    }
    var p := TreeWalk(g, root, s, root, x);
    forall i | 0 <= i < |p| ensures p[i] !in {leaf} {
      assert p[i] in p;
    }
  }

  /** A proper descendant lies in the subtree of exactly one child. */
  lemma {:induction false} ChildTowards(g: Graph, root: int, s: Dfs, v: int, x: int) returns (c: int)
    requires Shape(g, root, s) && Above(s.anc, v, x) && v != x
    ensures c in ChildrenOf(s.kids, v) && Above(s.anc, c, x)
    decreases s.disc[x]
  {
    ProperlyAbove(g, root, s, v, x);
    ParentOutside(g, root, s, x);
    RootAbove(g, root, s, x);
    if s.parent[x] == v {
      c := x;
    } else {
      c := ChildTowards(g, root, s, v, s.parent[x]);
      AboveTrans(g, root, s, c, s.parent[x], x);
    }
  }

  /** Subtrees of two children of one node share nothing. */
  lemma SiblingsDisjoint(g: Graph, root: int, s: Dfs, v: int, c: int, d: int, x: int)
    requires Shape(g, root, s) && HasParent(s.parent, c, v) && HasParent(s.parent, d, v)
    requires Above(s.anc, c, x) && Above(s.anc, d, x)
    ensures c == d
  {
    Chain(g, root, s, c, d, x);
    ParentOutside(g, root, s, c);
    ParentOutside(g, root, s, d);
    if c != d {
      if Above(s.anc, c, d) { ProperlyAbove(g, root, s, c, d); } else { ProperlyAbove(g, root, s, d, c); }
    }
  }

  /** Two subtrees are nested or disjoint. */
  lemma NestedOrDisjoint(g: Graph, root: int, s: Dfs, a: int, b: int)
    requires Shape(g, root, s)
    ensures var A, B := Subtree(s.anc, a), Subtree(s.anc, b);
            A <= B || B <= A || forall x | x in A :: x !in B
  {
    var A, B := Subtree(s.anc, a), Subtree(s.anc, b);
    if x :| x in A && x in B {
      Chain(g, root, s, a, b, x);
      if Above(s.anc, a, b) {
        forall y | y in B ensures y in A { AboveTrans(g, root, s, a, b, y); }
      } else {
        forall y | y in A ensures y in B { AboveTrans(g, root, s, b, a, y); }
      }
    }
  }

  /** Every visited node but the root lies below exactly one child of the root, and each such child is emitted. */
  lemma RootChildrenPartition(g: Graph, root: int, s: Dfs, x: int)
    requires Complete(g, root, s) && x in s.disc && x != root
    ensures exists c :: HasParent(s.parent, c, root) && Emitted(root, s, c) && Above(s.anc, c, x)
    ensures forall c, d | HasParent(s.parent, c, root) && HasParent(s.parent, d, root) && Above(s.anc, c, x)
        && Above(s.anc, d, x) :: c == d
  {
    RootAbove(g, root, s, x);
    var c := ChildTowards(g, root, s, root, x);
    ParentOutside(g, root, s, c);
    assert HasParent(s.parent, c, root) && Emitted(root, s, c) && Above(s.anc, c, x);
    forall d, e | HasParent(s.parent, d, root) && HasParent(s.parent, e, root) && Above(s.anc, d, x)
        && Above(s.anc, e, x)
      ensures d == e
    {
      SiblingsDisjoint(g, root, s, root, d, e, x);
    }
  }
}
