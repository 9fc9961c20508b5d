/** What the list of branches means for the graph, for every symmetric graph and every root. */
module SegmentProperties {
  import opened Branches
  import opened DfsTree
  import opened Graphs
  import opened SearchOrder
  import opened SegmentTheory
  import opened Segmentation

  ghost predicate Segmented(g: Graph, root: int, s: Dfs, branches: seq<Branch>) {
    Complete(g, root, s) && Ranked(s.disc, s.kids, s.timer) && IsSegmentation(g, root, s, branches)
  }

  lemma BranchFacts(g: Graph, root: int, s: Dfs, branches: seq<Branch>, b: Branch)
    requires Segmented(g, root, s, branches) && b in branches
    ensures IsBranch(g, root, s, b) && HasParent(s.parent, b.head, b.anchor) && b.head in s.disc && b.anchor in s.disc
    ensures forall x :: x in b.nodes <==> Above(s.anc, b.head, x)
    ensures (set x | x in b.nodes) == Subtree(s.anc, b.head)
  {
    hide Complete, IsTerminal;
    CompleteFacts(g, root, s);
    forall x ensures x in b.nodes <==> Above(s.anc, b.head, x) {
      CompleteShape(g, root, s);
      PreorderMembers(g, root, s, b.head, x);
    }
    forall x ensures x in (set y | y in b.nodes) <==> x in Subtree(s.anc, b.head) {
      assert x in b.nodes <==> Above(s.anc, b.head, x);
    }
  }

  lemma CompleteShape(g: Graph, root: int, s: Dfs)
    requires Complete(g, root, s)
    ensures Shape(g, root, s)
  {
  }

  /** Nodes are exactly the search descendants of Head, and Leaves exactly the childless ones, without repeats. */
  lemma NodesAndLeaves(g: Graph, root: int, s: Dfs, branches: seq<Branch>, b: Branch, x: int)
    requires Segmented(g, root, s, branches) && b in branches
    ensures x in b.nodes <==> Above(s.anc, b.head, x)
    ensures multiset(b.nodes)[x] <= 1 && multiset(b.leaves)[x] <= 1
    ensures x in b.leaves <==> x in b.nodes && ChildrenOf(s.kids, x) == []
    ensures b.nodeCount == |b.nodes| && b.head in b.nodes && b.anchor !in b.nodes
  {
    hide Complete, IsTerminal, Shape, Ranked;
    BranchFacts(g, root, s, branches, b);
    CompleteShape(g, root, s);
    PreorderMembers(g, root, s, b.head, x);
    LeavesOfMembers(s.kids, b.nodes, x);
    RootAbove(g, root, s, b.head);
    ParentOutside(g, root, s, b.head);
  }

  /** A leaf of a branch is a node of the graph. */
  lemma LeafInGraph(g: Graph, root: int, s: Dfs, branches: seq<Branch>, b: Branch, leaf: int)
    requires Segmented(g, root, s, branches) && b in branches && leaf in b.leaves
    ensures leaf in g.nodes
  {
    hide Complete, Shape, Ranked, IsBranch;
    NodesAndLeaves(g, root, s, branches, b, leaf);
    AboveVisited(g, root, s, b.head, leaf);
    CompleteFacts(g, root, s);
  }

  lemma HeadsAscend(g: Graph, root: int, s: Dfs, branches: seq<Branch>)
    requires Segmented(g, root, s, branches)
    ensures SortedByHead(branches)
  {
  }

  /** A bridge of the reachable part is always a tree edge: a non-tree edge is bypassed by the tree. */
  lemma BridgeIsTreeEdge(g: Graph, root: int, s: Dfs, a: int, b: int)
    requires Complete(g, root, s) && a in s.disc && g.Bridge(a, b) && Above(s.anc, a, b) && a != b
    ensures HasParent(s.parent, b, a)
  {
    hide Complete, Shape;
    CompleteShape(g, root, s);
    ProperlyAbove(g, root, s, a, b);
    ParentOutside(g, root, s, b);
    var up := s.parent[b];
    if up != a {
      var q := TreeWalk(g, root, s, a, up);
      WalkJoin(g, q, [b]);
      AvoidsByAbsence(g, q, a, b, b);
      AvoidsJoin(g, q, [b], a, b);
    }
  }

  lemma SelfLoopNoBridge(g: Graph, a: int)
    requires g.Edge(a, a)
    ensures !g.Bridge(a, a)
  {
    assert g.WalkBetween([a], a, a) && g.Avoids([a], a, a);
  }

  lemma BridgeSymmetric(g: Graph, a: int, b: int)
    requires g.Symmetric() && g.Bridge(a, b)
    ensures g.Bridge(b, a)
  {
    forall p | g.WalkBetween(p, b, a) ensures !g.Avoids(p, b, a) {
      if g.Avoids(p, b, a) {
        var q := SymmetricWalk(g, p, b, a);
        assert g.Avoids(q, b, a);
        assert g.Avoids(q, a, b);
      }
    }
  }

  ghost predicate Joins(b: Branch, x: int, y: int) {
    (b.anchor == x && b.head == y) || (b.anchor == y && b.head == x)
  }

  /** Away from the root the branches are exactly the bridges of the part reachable from the root,
      whichever tree the search happened to build. */
  lemma BranchesAreBridges(g: Graph, root: int, s: Dfs, branches: seq<Branch>, x: int, y: int)
    requires g.Symmetric() && Segmented(g, root, s, branches)
    requires g.Reachable(root, x) && x != root && y != root
    ensures g.Bridge(x, y) <==> exists b :: b in branches && Joins(b, x, y)
  {
    hide Complete, Shape, Ranked, IsBranch;
    CompleteShape(g, root, s);
    VisitsReachable(g, root, s);
    if g.Bridge(x, y) {
      EdgesFollowTree(g, root, s, x, y);
      BridgeSymmetric(g, x, y);
      if x == y { SelfLoopNoBridge(g, x); }
      var a, v := x, y;
      if Above(s.anc, y, x) { a, v := y, x; }
      BridgeIsTreeEdge(g, root, s, a, v);
      EmittedIffBridge(g, root, s, v);
      var b :| b in branches && b.head == v;
      BranchFacts(g, root, s, branches, b);
      assert Joins(b, x, y);
    }
    if b :| b in branches && Joins(b, x, y) {
      BranchFacts(g, root, s, branches, b);
      IsBranchEmitted(g, root, s, b);
      EmittedIffBridge(g, root, s, b.head);
      if b.anchor == y { BridgeSymmetric(g, b.anchor, b.head); }
    }
  }

  lemma IsBranchEmitted(g: Graph, root: int, s: Dfs, b: Branch)
    requires Ranked(s.disc, s.kids, s.timer) && IsBranch(g, root, s, b)
    ensures Emitted(root, s, b.head)
  {
  }

  /** The only nodes outside a branch that its nodes are joined to is the anchor; away from the root
      the only such edge is the one between Head and Anchor. */
  lemma OnlyAttachment(g: Graph, root: int, s: Dfs, branches: seq<Branch>, b: Branch, u: int, w: int)
    requires g.Symmetric() && Segmented(g, root, s, branches) && b in branches
    requires u in b.nodes && w !in b.nodes && g.Edge(u, w)
    ensures w == b.anchor && (b.anchor != root ==> u == b.head)
  {
    hide Complete, Shape, Ranked, IsBranch;
    BranchFacts(g, root, s, branches, b);
    IsBranchEmitted(g, root, s, b);
    EmittedIffBridge(g, root, s, b.head);
  }

  /** Removing a whole branch, or a single leaf of it, cuts nothing else off from the root. */
  lemma RemovalSafe(g: Graph, root: int, s: Dfs, branches: seq<Branch>, b: Branch, x: int)
    requires Segmented(g, root, s, branches) && b in branches && g.Reachable(root, x)
    ensures x !in b.nodes ==> g.ReachableWithout(root, x, set y | y in b.nodes)
    ensures forall leaf | leaf in b.leaves && leaf != x :: g.ReachableWithout(root, x, {leaf})
  {
    hide Complete, Shape, Ranked, IsBranch;
    VisitsReachable(g, root, s);
    BranchFacts(g, root, s, branches, b);
    if x !in b.nodes {
      SubtreeRemovalSafe(g, root, s, b.head, x);
    }
    forall leaf | leaf in b.leaves && leaf != x ensures g.ReachableWithout(root, x, {leaf}) {
      NodesAndLeaves(g, root, s, branches, b, leaf);
      AboveVisited(g, root, s, b.head, leaf);
      LeafRemovalSafe(g, root, s, leaf, x);
    }
  }

  lemma AboveVisited(g: Graph, root: int, s: Dfs, a: int, v: int)
    requires Complete(g, root, s) && Above(s.anc, a, v)
    ensures v in s.disc
  {
  }

  /** Any two branches are nested or disjoint. */
  lemma BranchesNest(g: Graph, root: int, s: Dfs, branches: seq<Branch>, b: Branch, c: Branch)
    requires Segmented(g, root, s, branches) && b in branches && c in branches
    ensures var B, C := set y | y in b.nodes, set y | y in c.nodes;
            B <= C || C <= B || forall y | y in B :: y !in C
  {
    hide Complete, Shape, Ranked, IsBranch;
    CompleteShape(g, root, s);
    BranchFacts(g, root, s, branches, b);
    BranchFacts(g, root, s, branches, c);
    NestedOrDisjoint(g, root, s, b.head, c.head);
  }

  /** The branches anchored at the root partition the other reachable nodes. */
  lemma RootBranchesPartition(g: Graph, root: int, s: Dfs, branches: seq<Branch>, x: int)
    requires Segmented(g, root, s, branches)
    ensures g.Reachable(root, x) && x != root ==> exists b :: b in branches && b.anchor == root && x in b.nodes
    ensures forall b, c | b in branches && c in branches && b.anchor == root && c.anchor == root && x in b.nodes
        && x in c.nodes :: b == c
    ensures forall b | b in branches && x in b.nodes :: g.Reachable(root, x) && x != root
  {
    hide Complete, Shape, Ranked, IsBranch;
    CompleteShape(g, root, s);
    VisitsReachable(g, root, s);
    if g.Reachable(root, x) && x != root {
      RootChildrenPartition(g, root, s, x);
      var h :| HasParent(s.parent, h, root) && Emitted(root, s, h) && Above(s.anc, h, x);
      var b :| b in branches && b.head == h;
      BranchFacts(g, root, s, branches, b);
    }
    forall b, c | b in branches && c in branches && b.anchor == root && c.anchor == root && x in b.nodes && x in c.nodes
      ensures b == c
    {
      BranchFacts(g, root, s, branches, b);
      BranchFacts(g, root, s, branches, c);
      SiblingsDisjoint(g, root, s, root, b.head, c.head, x);
      HeadDetermines(branches, b, c);
    }
    forall b | b in branches && x in b.nodes ensures g.Reachable(root, x) && x != root {
      BranchFacts(g, root, s, branches, b);
      AboveVisited(g, root, s, b.head, x);
      NotRoot(g, root, s, b.head, x);
    }
  }

  lemma NotRoot(g: Graph, root: int, s: Dfs, h: int, x: int)
    requires Complete(g, root, s) && h in s.parent && Above(s.anc, h, x)
    ensures x != root
  {
  }

  lemma HeadDetermines(branches: seq<Branch>, b: Branch, c: Branch)
    requires SortedByHead(branches) && b in branches && c in branches && b.head == c.head
    ensures b == c
  {
  }

  /** The list does not depend on the order in which the keys were visited: for one search there is
      only one segmentation. */
  lemma {:induction false} SegmentationUnique(g: Graph, root: int, s: Dfs, A: seq<Branch>, B: seq<Branch>)
    requires Segmented(g, root, s, A) && Segmented(g, root, s, B)
    ensures A == B
  {
    hide Complete, Shape, Ranked, IsBranch, Emitted;
    forall b | b in A ensures b in B { Included(g, root, s, A, B, b); }
    forall b | b in B ensures b in A { Included(g, root, s, B, A, b); }
    SortedEqual(A, B);
  }

  lemma Included(g: Graph, root: int, s: Dfs, A: seq<Branch>, B: seq<Branch>, b: Branch)
    requires Segmented(g, root, s, A) && Segmented(g, root, s, B) && b in A
    ensures b in B
  {
    hide Complete, Shape, Ranked;
    var c :| c in B && c.head == b.head;
    BranchFacts(g, root, s, A, b);
    BranchFacts(g, root, s, B, c);
    PreorderVisited(g, root, s, b.head);
    TerminalUnique(g.nodes, s.disc, b.nodes, b.terminal, c.terminal);
  }

  lemma Tail(A: seq<Branch>)
    requires SortedByHead(A) && A != []
    ensures SortedByHead(A[1..]) && A[0] in A && A == [A[0]] + A[1..]
    ensures forall b :: b in A[1..] <==> b in A && b != A[0]
    ensures forall b | b in A :: A[0].head <= b.head
  {
  }

  lemma {:induction false} SortedEqual(A: seq<Branch>, B: seq<Branch>)
    requires SortedByHead(A) && SortedByHead(B)
    requires forall b :: b in A <==> b in B
    ensures A == B
  {
    hide SortedByHead;
    if A != [] && B != [] {
      Tail(A);
      Tail(B);
      HeadDetermines(A, A[0], B[0]);
      SortedEqual(A[1..], B[1..]);
    }
    EmptyTogether(A, B);
  }

  lemma EmptyTogether(A: seq<Branch>, B: seq<Branch>)
    requires forall b :: b in A <==> b in B
    ensures A == [] <==> B == []
  {
    if A != [] { assert A[0] in A; }
    if B != [] { assert B[0] in B; }
  }

  /** The terminal of a branch: none exactly when it has neither a Notable nor a Keystone; a Keystone if it has
      one; and of those of that type the one the search found last. */
  lemma TerminalMeans(g: Graph, root: int, s: Dfs, branches: seq<Branch>, b: Branch)
    requires Segmented(g, root, s, branches) && b in branches
    ensures forall x | x in b.nodes :: x in g.nodes && x in s.disc
    ensures b.pureTravel <==> b.terminal.None?
    ensures b.terminal.None? <==> forall x | x in b.nodes :: g.nodes[x] != "Notable" && g.nodes[x] != "Keystone"
    ensures b.terminal.Some? ==>
              var t := b.terminal.value;
              && t.id in b.nodes && t.kind == g.nodes[t.id] && (t.kind == "Notable" || t.kind == "Keystone")
              && ((exists x :: x in b.nodes && g.nodes[x] == "Keystone") ==> t.kind == "Keystone")
              && forall x | x in b.nodes && g.nodes[x] == t.kind && x != t.id :: s.disc[x] < s.disc[t.id]
  {
    hide Complete, Shape, Ranked, Preorder, LeavesOf;
    BranchFacts(g, root, s, branches, b);
    CompleteShape(g, root, s);
    CompleteFacts(g, root, s);
    forall x | x in b.nodes ensures x in g.nodes && x in s.disc {
      AboveVisited(g, root, s, b.head, x);
    }
    NumbersDiffer(g, root, s);
  }

  lemma NumbersDiffer(g: Graph, root: int, s: Dfs)
    requires Shape(g, root, s)
    ensures forall x, y | x in s.disc && y in s.disc && x != y :: s.disc[x] != s.disc[y]
  {
  }

  // ---------------------------------------------------------------- the order of the nodes

  ghost predicate Listed(s: Dfs, xs: seq<int>) {
    forall i, j | 0 <= i < j < |xs| :: Before(s.disc, s.anc, xs[i], xs[j])
  }

  lemma ListedTogether(s: Dfs, xs: seq<int>, ys: seq<int>)
    requires Listed(s, xs) && Listed(s, ys) && forall x, y | x in xs && y in ys :: Before(s.disc, s.anc, x, y)
    ensures Listed(s, xs + ys)
  {
    forall i, j | 0 <= i < |xs| && |xs| <= j < |xs| + |ys|
      ensures Before(s.disc, s.anc, (xs + ys)[i], (xs + ys)[j])
    {
      assert xs[i] in xs && ys[j - |xs|] in ys;
    }
  }

  lemma {:induction false} PreorderListed(g: Graph, root: int, s: Dfs, v: int)
    requires Shape(g, root, s) && InOrder(s) && Ranked(s.disc, s.kids, s.timer) && v in s.disc
    ensures Listed(s, Preorder(s.disc, s.kids, s.timer, v))
    decreases s.timer - s.disc[v], |ChildrenOf(s.kids, v)| + 1
  {
    hide Shape, InOrder, Ranked, Listed, Forest;
    var n := |ChildrenOf(s.kids, v)|;
    NumberBelow(g, root, s, v);
    ForestListed(g, root, s, v, n);
    OneListed(s, v);
    forall x, y | x in [v] && y in Forest(s.disc, s.kids, s.timer, v, n) ensures Before(s.disc, s.anc, x, y) {
      PreorderMembers(g, root, s, v, y);
      assert y in Preorder(s.disc, s.kids, s.timer, v);
      Numbered(g, root, s);
    }
    ListedTogether(s, [v], Forest(s.disc, s.kids, s.timer, v, n));
  }

  lemma NumberBelow(g: Graph, root: int, s: Dfs, v: int)
    requires Shape(g, root, s) && v in s.disc
    ensures s.disc[v] < s.timer
  {
  }

  lemma OneListed(s: Dfs, v: int)
    ensures Listed(s, [v])
  {
  }

  lemma {:induction false} ForestListed(g: Graph, root: int, s: Dfs, v: int, i: nat)
    requires Shape(g, root, s) && InOrder(s) && Ranked(s.disc, s.kids, s.timer) && v in s.disc
    requires i <= |ChildrenOf(s.kids, v)| && s.disc[v] < s.timer
    ensures Listed(s, Forest(s.disc, s.kids, s.timer, v, i))
    decreases s.timer - s.disc[v], i
  {
    hide Shape, InOrder, Ranked, Listed, Preorder;
    if i == 0 {
      NoneListed(s);
    } else {
      var c := ChildrenOf(s.kids, v)[i - 1];
      KidFacts(g, root, s, v, i - 1);
      KidDeeper(s, v, i - 1);
      PreorderListed(g, root, s, c);
      ForestListed(g, root, s, v, i - 1);
      var own, rest := Preorder(s.disc, s.kids, s.timer, c), Forest(s.disc, s.kids, s.timer, v, i - 1);
      forall x, y | x in own && y in rest ensures Before(s.disc, s.anc, x, y) {
        PreorderMembers(g, root, s, c, x);
        ForestMembers(g, root, s, v, i - 1, y);
        var k :| 0 <= k < i - 1 && Above(s.anc, ChildrenOf(s.kids, v)[k], y);
        EarlierChild(g, root, s, v, k, i - 1);
        LaterChildFirst(g, root, s, ChildrenOf(s.kids, v)[k], c, x, y);
      }
      ListedTogether(s, own, rest);
    }
  }

  lemma NoneListed(s: Dfs)
    ensures Listed(s, [])
  {
  }

  lemma EarlierChild(g: Graph, root: int, s: Dfs, v: int, k: nat, i: nat)
    requires Shape(g, root, s) && InOrder(s) && k < i < |ChildrenOf(s.kids, v)|
    ensures var early, late := ChildrenOf(s.kids, v)[k], ChildrenOf(s.kids, v)[i];
            && early in s.disc && late in s.disc && s.disc[early] < s.disc[late] && !Above(s.anc, early, late)
  {
    hide Shape, Spans;
    KidFacts(g, root, s, v, k);
    KidFacts(g, root, s, v, i);
    RootAbove(g, root, s, ChildrenOf(s.kids, v)[i]);
    OtherKids(g, root, s, v, i, ChildrenOf(s.kids, v)[i]);
  }

  /** The nodes of a branch are listed from the head on, every node before what is below it, and of two
      nodes in different parts of the tree the one found later first. */
  lemma NodesInOrder(g: Graph, root: int, s: Dfs, branches: seq<Branch>, b: Branch, i: nat, j: nat)
    requires Segmented(g, root, s, branches) && InOrder(s) && b in branches && i < j < |b.nodes|
    ensures b.nodes[0] == b.head
    ensures b.nodes[i] in s.disc && b.nodes[j] in s.disc
    ensures Above(s.anc, b.nodes[i], b.nodes[j])
            || (!Above(s.anc, b.nodes[j], b.nodes[i]) && s.disc[b.nodes[i]] > s.disc[b.nodes[j]])
  {
    hide Complete, Shape, InOrder, IsTerminal, Forest;
    BranchFacts(g, root, s, branches, b);
    CompleteShape(g, root, s);
    PreorderListed(g, root, s, b.head);
  }

  /** Leaves keep the order of the nodes. */
  lemma {:induction false} LeavesInOrder(s: Dfs, xs: seq<int>)
    requires Listed(s, xs)
    ensures Listed(s, LeavesOf(s.kids, xs))
  {
    hide Listed, Before, LeavesOf;
    if xs == [] {
      NoneListed(s);
      NoLeaves(s.kids);
    } else {
      var init, last := xs[..|xs| - 1], xs[|xs| - 1];
      assert xs == init + [last];
      AllBeforeLast(s, xs, init, last);
      LeavesInOrder(s, init);
      LeavesStep(s.kids, init, last);
      OneListed(s, last);
      if ChildrenOf(s.kids, last) == [] {
        forall x | x in LeavesOf(s.kids, init) ensures x in init {
          LeavesOfMembers(s.kids, init, x);
        }
        ListedTogether(s, LeavesOf(s.kids, init), [last]);
      } else {
        assert LeavesOf(s.kids, init) + [] == LeavesOf(s.kids, init);
      }
    }
  }

  lemma NoLeaves(kids: map<int, seq<int>>)
    ensures LeavesOf(kids, []) == []
  {
  }

  lemma AllBeforeLast(s: Dfs, xs: seq<int>, init: seq<int>, last: int)
    requires Listed(s, xs) && xs == init + [last]
    ensures Listed(s, init)
    ensures forall x | x in init :: Before(s.disc, s.anc, x, last)
  {
    hide Before;
    forall x | x in init ensures Before(s.disc, s.anc, x, last) {
      var k :| 0 <= k < |init| && init[k] == x;
      assert xs[k] == x && xs[|xs| - 1] == last;
    }
    forall i, j | 0 <= i < j < |init| ensures Before(s.disc, s.anc, init[i], init[j]) {
      assert init[i] == xs[i] && init[j] == xs[j];
    }
  }
}
