/** Branch segmentation as the program runs it: the iterative search over mutable maps, the subtree
    walk with its own stack, the terminal scan and the final sort, each proved against a
    specification over the finished search. */
module Segmentation {
  import opened Branches
  import opened DfsTree
  import opened Graphs
  import opened Options
  import opened SearchOrder
  import opened SegmentTheory
  import opened Sets
  import Sorting

  const NOTABLE := "Notable"
  const KEYSTONE := "Keystone"

  // ---------------------------------------------------------------- the search

  class SearchState {
    var disc: map<int, nat>
    var low: map<int, nat>
    var parent: map<int, int>
    var dfsChildren: map<int, seq<int>>
    var timer: nat
    ghost var anc: map<int, set<int>>
    ghost var done: map<int, nat>

    ghost function Value(): Dfs
      reads this
    {
      Dfs(disc, low, parent, dfsChildren, timer, anc, done)
    }

    constructor (root: int)
      ensures Value() == Init(root)
    {
      disc, low := map[root := 0], map[root := 0];
      parent, dfsChildren, timer := map[], map[], 1;
      anc, done := map[root := {root}], map[root := 0];
    }

    method PushTreeEdge(current: int, neighbor: int)
      requires current in anc
      modifies this
      ensures Value() == Push(old(Value()), current, neighbor)
    {
      parent := parent[neighbor := current];
      disc := disc[neighbor := timer];
      low := low[neighbor := timer];
      timer := timer + 1;
      dfsChildren := dfsChildren[current :=
        (if current in dfsChildren then dfsChildren[current] else []) + [neighbor]];
      anc, done := anc[neighbor := anc[current] + {neighbor}], done[neighbor := 0];
    }

    method ConsiderBackEdge(current: int, neighbor: int)
      requires neighbor in disc && current in low
      modifies this
      ensures Value() == BackEdge(old(Value()), current, neighbor)
    {
      if current in parent && neighbor == parent[current] {
        return;
      }
      if disc[neighbor] < low[current] {
        low := low[current := disc[neighbor]];
      }
    }

    /** The step taken when a node has no entries left: its low value is offered to its parent. */
    method Retreat(current: int)
      requires current in low && (current in parent ==> parent[current] in low)
      modifies this
      ensures Value() == Pop(old(Value()), current)
    {
      if current in parent {
        var p := parent[current];
        if low[current] < low[p] {
          low := low[p := low[current]];
        }
      }
    }

    ghost method NoteHandled(v: int)
      requires v in done
      modifies this`done
      ensures Value() == Handled(old(Value()), v)
    {
      done := done[v := done[v] + 1];
    }
  }

  /** The iterative search: terminates on every symmetric graph and ends with a complete search. */
  method Search(nodes: map<int, string>, adjacency: map<int, seq<int>>, root: int)
    returns (disc: map<int, nat>, low: map<int, nat>, parent: map<int, int>, dfsChildren: map<int, seq<int>>,
             ghost s: Dfs)
    requires root in nodes && Graph(nodes, adjacency).Symmetric()
    ensures s.disc == disc && s.low == low && s.parent == parent && s.kids == dfsChildren
    ensures Complete(Graph(nodes, adjacency), root, s)
    ensures forall v :: v in disc <==> Graph(nodes, adjacency).Reachable(root, v)
    ensures InOrder(s)
  {
    hide Inv, Stack, Shape, Complete, Progress, Timely;
    ghost var g := Graph(nodes, adjacency);
    var state := new SearchState(root);
    var stack := [Frame(root, 0)];
    InitInv(g, root);
    InitTimely(root);
    while |stack| > 0
      invariant Inv(g, root, state.Value(), stack) && Timely(state.Value(), stack)
      invariant fresh(state)
      decreases nodes.Keys - state.disc.Keys, |stack|
    {
      var current := stack[|stack| - 1].node;
      var neighbors := if current in adjacency then adjacency[current] else [];
      assert neighbors == g.Neighbors(current);
      var pushed := false;
      ghost var before, depth := state.disc, |stack|;
      InvTop(g, root, state.Value(), stack);
      while stack[|stack| - 1].idx < |neighbors|
        invariant Inv(g, root, state.Value(), stack) && Timely(state.Value(), stack)
        invariant |stack| == depth && stack[|stack| - 1].node == current
        invariant stack[|stack| - 1].idx <= |neighbors| && state.disc == before && !pushed
        decreases |neighbors| - stack[|stack| - 1].idx
      {
        InvTop(g, root, state.Value(), stack);
        ghost var s0, stack0 := state.Value(), stack;
        var neighbor := neighbors[stack[|stack| - 1].idx];
        stack := stack[|stack| - 1 := Frame(current, stack[|stack| - 1].idx + 1)];
        assert stack == Advance(stack0);
        if neighbor !in nodes {
          state.NoteHandled(current);
          BackInv(g, root, s0, stack0, current, neighbor, state.Value());
          BackTimely(s0, stack0, state.Value());
          continue;
        }
        if neighbor !in state.disc {
          state.PushTreeEdge(current, neighbor);
          stack := stack + [Frame(neighbor, 0)];
          state.NoteHandled(current);
          PushInv(g, root, s0, stack0, current, neighbor, state.Value());
          StepTimely(g, root, s0, stack0, current, neighbor, state.Value());
          InvTop(g, root, state.Value(), stack);
          assert neighbor in nodes.Keys - before.Keys;
          pushed := true;
          break;
        }
        state.ConsiderBackEdge(current, neighbor);
        state.NoteHandled(current);
        BackInv(g, root, s0, stack0, current, neighbor, state.Value());
        BackTimely(s0, stack0, state.Value());
      }
      if !pushed {
        InvTop(g, root, state.Value(), stack);
        ghost var s0 := state.Value();
        state.Retreat(current);
        PopInv(g, root, s0, stack, current, state.Value());
        DoneTimely(g, root, s0, stack, state.Value());
        stack := stack[..|stack| - 1];
      }
    }
    s := state.Value();
    InOrderAtLast(s, stack);
    SearchComplete(g, root, s);
    VisitsReachable(g, root, s);
    return state.disc, state.low, state.parent, state.dfsChildren, s;
  }

  lemma StepTimely(g: Graph, root: int, s: Dfs, stack: seq<Frame>, v: int, w: int, s': Dfs)
    requires Inv(g, root, s, stack) && Timely(s, stack) && |stack| > 0 && v == stack[|stack| - 1].node && v in s.anc
    requires w !in s.disc && v in s.done && s' == Handled(Push(s, v, w), v)
    ensures Timely(s', Advance(stack) + [Frame(w, 0)])
  {
    hide Shape, Timely;
    PushTimely(g, root, s, stack, v, w, s');
  }

  lemma DoneTimely(g: Graph, root: int, s: Dfs, stack: seq<Frame>, s': Dfs)
    requires Inv(g, root, s, stack) && Timely(s, stack) && |stack| > 0
    requires s'.disc == s.disc && s'.anc == s.anc && s'.kids == s.kids
    ensures Timely(s', stack[..|stack| - 1])
  {
    hide Shape, Stack, Timely;
    PopTimely(g, root, s, stack, s');
  }

  lemma InOrderAtLast(s: Dfs, stack: seq<Frame>)
    requires Timely(s, stack)
    ensures InOrder(s)
  {
  }

  lemma InvTop(g: Graph, root: int, s: Dfs, stack: seq<Frame>)
    requires Inv(g, root, s, stack) && |stack| > 0
    ensures var v := stack[|stack| - 1].node;
            && v in g.nodes && v in s.disc && v in s.low && v in s.done && v in s.anc
            && stack[|stack| - 1].idx <= |g.Neighbors(v)|
            && (v in s.parent ==> s.parent[v] in s.low)
    ensures s.disc.Keys <= g.nodes.Keys
  {
    TopFacts(g, root, s, stack, stack[|stack| - 1].node);
    BoundFacts(g, root, s);
  }

  // ---------------------------------------------------------------- collecting a subtree

  /** Numbers grow along tree edges; this is what makes the recursion below well founded. */
  ghost predicate Ranked(disc: map<int, nat>, kids: map<int, seq<int>>, n: nat) {
    && (forall v | v in disc :: disc[v] < n)
    && (forall u, i | 0 <= i < |ChildrenOf(kids, u)| ::
          u in disc && ChildrenOf(kids, u)[i] in disc && disc[u] < disc[ChildrenOf(kids, u)[i]])
  }

  /** A node, then its children's subtrees from the last child to the first. */
  ghost function Preorder(disc: map<int, nat>, kids: map<int, seq<int>>, n: nat, v: int): seq<int>
    requires Ranked(disc, kids, n) && v in disc
    decreases n - disc[v], |ChildrenOf(kids, v)| + 1
  {
    [v] + Forest(disc, kids, n, v, |ChildrenOf(kids, v)|)
  }

  ghost function Forest(disc: map<int, nat>, kids: map<int, seq<int>>, n: nat, v: int, i: nat): seq<int>
    requires Ranked(disc, kids, n) && v in disc && i <= |ChildrenOf(kids, v)|
    decreases n - disc[v], i
  {
    if i == 0 then []
    else Preorder(disc, kids, n, ChildrenOf(kids, v)[i - 1]) + Forest(disc, kids, n, v, i - 1)
  }

  ghost function StackOrder(disc: map<int, nat>, kids: map<int, seq<int>>, n: nat, stack: seq<int>): seq<int>
    requires Ranked(disc, kids, n) && forall i | 0 <= i < |stack| :: stack[i] in disc
  {
    if stack == [] then []
    else Preorder(disc, kids, n, stack[|stack| - 1]) + StackOrder(disc, kids, n, stack[..|stack| - 1])
  }

  lemma {:induction false} StackOrderPush(disc: map<int, nat>, kids: map<int, seq<int>>, n: nat, stack: seq<int>,
      v: int, i: nat)
    requires Ranked(disc, kids, n) && v in disc && i <= |ChildrenOf(kids, v)|
    requires forall j | 0 <= j < |stack| :: stack[j] in disc
    ensures forall j | 0 <= j < |stack| + i :: (stack + ChildrenOf(kids, v)[..i])[j] in disc
    ensures StackOrder(disc, kids, n, stack + ChildrenOf(kids, v)[..i])
            == Forest(disc, kids, n, v, i) + StackOrder(disc, kids, n, stack)
  {
    var all := stack + ChildrenOf(kids, v)[..i];
    if i == 0 {
      assert all == stack;
    } else {
      StackOrderPush(disc, kids, n, stack, v, i - 1);
      assert all[..|all| - 1] == stack + ChildrenOf(kids, v)[..i - 1];
      assert all[|all| - 1] == ChildrenOf(kids, v)[i - 1];
    }
  }

  lemma StackOrderTop(disc: map<int, nat>, kids: map<int, seq<int>>, n: nat, stack: seq<int>)
    requires Ranked(disc, kids, n) && |stack| > 0 && forall i | 0 <= i < |stack| :: stack[i] in disc
    ensures var v := stack[|stack| - 1];
            StackOrder(disc, kids, n, stack)
            == [v] + (Forest(disc, kids, n, v, |ChildrenOf(kids, v)|) + StackOrder(disc, kids, n, stack[..|stack| - 1]))
  {
  }

  /** The node on top of the stack comes next; its children replace it. */
  lemma StackOrderStep(disc: map<int, nat>, kids: map<int, seq<int>>, n: nat, stack: seq<int>, v: int, next: seq<int>)
    requires Ranked(disc, kids, n) && |stack| > 0 && forall i | 0 <= i < |stack| :: stack[i] in disc
    requires v == stack[|stack| - 1] && next == stack[..|stack| - 1] + ChildrenOf(kids, v)
    ensures forall i | 0 <= i < |next| :: next[i] in disc
    ensures StackOrder(disc, kids, n, stack) == [v] + StackOrder(disc, kids, n, next)
  {
    hide Ranked, Preorder, Forest, StackOrder, ChildrenOf;
    var rest, children := stack[..|stack| - 1], ChildrenOf(kids, v);
    StackOrderTop(disc, kids, n, stack);
    StackOrderPush(disc, kids, n, rest, v, |children|);
    assert children[..|children|] == children;
    assert next == rest + children[..|children|];
  }

  lemma StartOrder(disc: map<int, nat>, kids: map<int, seq<int>>, n: nat, v: int)
    requires Ranked(disc, kids, n) && v in disc
    ensures StackOrder(disc, kids, n, [v]) == Preorder(disc, kids, n, v) && StackOrder(disc, kids, n, []) == []
    ensures LeavesOf(kids, []) == []
  {
    assert [v][..0] == [];
    assert StackOrder(disc, kids, n, []) == [];
  }

  /** The childless members of `xs`, in order. */
  function LeavesOf(kids: map<int, seq<int>>, xs: seq<int>): seq<int> {
    if xs == [] then []
    else LeavesOf(kids, xs[..|xs| - 1]) + (if ChildrenOf(kids, xs[|xs| - 1]) == [] then [xs[|xs| - 1]] else [])
  }

  /** One round of the loop below: what is listed plus what is pending stays the same. */
  lemma CollectStep(disc: map<int, nat>, kids: map<int, seq<int>>, n: nat, listed: seq<int>, stack: seq<int>, v: int,
      next: seq<int>)
    requires Ranked(disc, kids, n) && |stack| > 0 && forall i | 0 <= i < |stack| :: stack[i] in disc
    requires v == stack[|stack| - 1] && next == stack[..|stack| - 1] + ChildrenOf(kids, v)
    ensures forall i | 0 <= i < |next| :: next[i] in disc
    ensures listed + StackOrder(disc, kids, n, stack) == (listed + [v]) + StackOrder(disc, kids, n, next)
    ensures |listed| < |listed + StackOrder(disc, kids, n, stack)|
  {
    hide Ranked, StackOrder, ChildrenOf;
    StackOrderStep(disc, kids, n, stack, v, next);
  }

  lemma LeavesStep(kids: map<int, seq<int>>, xs: seq<int>, x: int)
    ensures LeavesOf(kids, xs + [x]) == LeavesOf(kids, xs) + (if ChildrenOf(kids, x) == [] then [x] else [])
  {
    assert (xs + [x])[..|xs|] == xs;
  }

  method CollectSubtree(start: int, dfsChildren: map<int, seq<int>>, ghost disc: map<int, nat>, ghost n: nat)
    returns (allNodes: seq<int>, leaves: seq<int>)
    requires Ranked(disc, dfsChildren, n) && start in disc
    ensures allNodes == Preorder(disc, dfsChildren, n, start)
    ensures leaves == LeavesOf(dfsChildren, allNodes)
  {
    allNodes, leaves := [], [];
    var stack := [start];
    ghost var goal := Preorder(disc, dfsChildren, n, start);
    hide Ranked, Preorder, Forest, StackOrder, LeavesOf;
    StartOrder(disc, dfsChildren, n, start);
    while |stack| > 0
      invariant forall i | 0 <= i < |stack| :: stack[i] in disc
      invariant allNodes + StackOrder(disc, dfsChildren, n, stack) == goal
      invariant leaves == LeavesOf(dfsChildren, allNodes)
      decreases |goal| - |allNodes|
    {
      var current := stack[|stack| - 1];
      var children := if current in dfsChildren then dfsChildren[current] else [];
      LeavesStep(dfsChildren, allNodes, current);
      CollectStep(disc, dfsChildren, n, allNodes, stack, current, stack[..|stack| - 1] + children);
      stack := stack[..|stack| - 1];
      allNodes := allNodes + [current];
      if |children| == 0 {
        leaves := leaves + [current];
        assert stack + [] == stack;
        continue;
      }
      stack := stack + children;
    }
  }

  /** The walk lists every descendant of `v` exactly once and nothing else. */
  lemma {:induction false} PreorderMembers(g: Graph, root: int, s: Dfs, v: int, x: int)
    requires Shape(g, root, s) && Ranked(s.disc, s.kids, s.timer) && v in s.disc
    ensures x in Preorder(s.disc, s.kids, s.timer, v) <==> Above(s.anc, v, x)
    ensures multiset(Preorder(s.disc, s.kids, s.timer, v))[x] <= 1
    decreases s.timer - s.disc[v], |ChildrenOf(s.kids, v)| + 1
  {
    hide Shape;
    ForestMembers(g, root, s, v, |ChildrenOf(s.kids, v)|, x);
    RootAbove(g, root, s, v);
    if Above(s.anc, v, x) && x != v {
      var c := ChildTowards(g, root, s, v, x);
    }
    if x == v {
      OwnForest(g, root, s, v);
    }
    if x in Forest(s.disc, s.kids, s.timer, v, |ChildrenOf(s.kids, v)|) {
      var k :| 0 <= k < |ChildrenOf(s.kids, v)| && Above(s.anc, ChildrenOf(s.kids, v)[k], x);
      KidFacts(g, root, s, v, k);
      AboveTrans(g, root, s, v, ChildrenOf(s.kids, v)[k], x);
    }
  }

  lemma KidFacts(g: Graph, root: int, s: Dfs, v: int, k: nat)
    requires Shape(g, root, s) && k < |ChildrenOf(s.kids, v)|
    ensures HasParent(s.parent, ChildrenOf(s.kids, v)[k], v) && Above(s.anc, v, ChildrenOf(s.kids, v)[k])
    ensures ChildrenOf(s.kids, v)[k] in s.disc && !Above(s.anc, ChildrenOf(s.kids, v)[k], v)
    ensures forall j | 0 <= j < k :: ChildrenOf(s.kids, v)[j] != ChildrenOf(s.kids, v)[k]
  {
    var c := ChildrenOf(s.kids, v)[k];
    assert c in ChildrenOf(s.kids, v);
    assert HasParent(s.parent, c, v);
    ParentOutside(g, root, s, c);
  }

  lemma OwnForest(g: Graph, root: int, s: Dfs, v: int)
    requires Shape(g, root, s) && v in s.disc
    ensures forall k | 0 <= k < |ChildrenOf(s.kids, v)| :: !Above(s.anc, ChildrenOf(s.kids, v)[k], v)
  {
    forall k | 0 <= k < |ChildrenOf(s.kids, v)| ensures !Above(s.anc, ChildrenOf(s.kids, v)[k], v) {
      KidFacts(g, root, s, v, k);
    }
  }

  lemma {:induction false} ForestMembers(g: Graph, root: int, s: Dfs, v: int, i: nat, x: int)
    requires Shape(g, root, s) && Ranked(s.disc, s.kids, s.timer) && v in s.disc && i <= |ChildrenOf(s.kids, v)|
    ensures x in Forest(s.disc, s.kids, s.timer, v, i) <==>
              exists k :: 0 <= k < i && Above(s.anc, ChildrenOf(s.kids, v)[k], x)
    ensures multiset(Forest(s.disc, s.kids, s.timer, v, i))[x] <= 1
    decreases s.timer - s.disc[v], i
  {
    hide Shape, Preorder, Ranked;
    if i > 0 {
      var c := ChildrenOf(s.kids, v)[i - 1];
      KidFacts(g, root, s, v, i - 1);
      KidDeeper(s, v, i - 1);
      PreorderMembers(g, root, s, c, x);
      ForestMembers(g, root, s, v, i - 1, x);
      if Above(s.anc, c, x) {
        OtherKids(g, root, s, v, i - 1, x);
      }
    }
  }

  lemma KidDeeper(s: Dfs, v: int, k: nat)
    requires Ranked(s.disc, s.kids, s.timer) && k < |ChildrenOf(s.kids, v)|
    ensures v in s.disc && ChildrenOf(s.kids, v)[k] in s.disc
    ensures s.disc[v] < s.disc[ChildrenOf(s.kids, v)[k]] && s.disc[ChildrenOf(s.kids, v)[k]] < s.timer
  {
    var c := ChildrenOf(s.kids, v)[k];
    assert c in s.disc;
  }

  lemma OtherKids(g: Graph, root: int, s: Dfs, v: int, i: nat, x: int)
    requires Shape(g, root, s) && i < |ChildrenOf(s.kids, v)| && Above(s.anc, ChildrenOf(s.kids, v)[i], x)
    ensures forall k | 0 <= k < i :: !Above(s.anc, ChildrenOf(s.kids, v)[k], x)
  {
    hide Shape;
    KidFacts(g, root, s, v, i);
    forall k | 0 <= k < i ensures !Above(s.anc, ChildrenOf(s.kids, v)[k], x) {
      KidFacts(g, root, s, v, k);
      if Above(s.anc, ChildrenOf(s.kids, v)[k], x) {
        SiblingsDisjoint(g, root, s, v, ChildrenOf(s.kids, v)[k], ChildrenOf(s.kids, v)[i], x);
      }
    }
  }

  lemma {:induction false} LeavesOfMembers(kids: map<int, seq<int>>, xs: seq<int>, x: int)
    ensures x in LeavesOf(kids, xs) <==> x in xs && ChildrenOf(kids, x) == []
    ensures multiset(LeavesOf(kids, xs))[x] <= multiset(xs)[x]
  {
    if xs != [] {
      LeavesOfMembers(kids, xs[..|xs| - 1], x);
      assert xs == xs[..|xs| - 1] + [xs[|xs| - 1]];
    }
  }

  lemma ShapeRanked(g: Graph, root: int, s: Dfs)
    requires Shape(g, root, s)
    ensures Ranked(s.disc, s.kids, s.timer)
  {
    forall u, i | 0 <= i < |ChildrenOf(s.kids, u)|
      ensures u in s.disc && ChildrenOf(s.kids, u)[i] in s.disc && s.disc[u] < s.disc[ChildrenOf(s.kids, u)[i]]
    {
      assert ChildrenOf(s.kids, u)[i] in ChildrenOf(s.kids, u);
      assert HasParent(s.parent, ChildrenOf(s.kids, u)[i], u);
    }
  }

  // ---------------------------------------------------------------- the terminal

  predicate Candidate(nodes: map<int, string>, x: int) {
    x in nodes && (nodes[x] == NOTABLE || nodes[x] == KEYSTONE)
  }

  /** Keystones outrank Notables; within a type the later-numbered node wins, then the larger id. */
  predicate Outranks(nodes: map<int, string>, disc: map<int, nat>, a: int, b: int)
    requires Candidate(nodes, a) && Candidate(nodes, b) && a in disc && b in disc
  {
    || (nodes[a] == KEYSTONE && nodes[b] != KEYSTONE)
    || (nodes[a] == nodes[b] && (disc[a] > disc[b] || (disc[a] == disc[b] && a > b)))
  }

  /** `t` is the top-ranked candidate of `xs`, or `None` when there is no candidate. */
  ghost predicate IsTerminal(nodes: map<int, string>, disc: map<int, nat>, xs: seq<int>, t: Option<Terminal>) {
    match t
    case None => forall x | x in xs :: !Candidate(nodes, x)
    case Some(best) =>
      && best.id in xs && Candidate(nodes, best.id) && best.kind == nodes[best.id] && best.id in disc
      && forall x | x in xs && Candidate(nodes, x) && x in disc && x != best.id :: Outranks(nodes, disc, best.id, x)
  }

  method ClassifyTerminal(branchNodes: seq<int>, nodes: map<int, string>, disc: map<int, nat>)
    returns (best: Option<Terminal>)
    requires forall x | x in branchNodes :: x in nodes && x in disc
    ensures IsTerminal(nodes, disc, branchNodes, best)
  {
    best := None;
    var bestDepth := 0;
    for i := 0 to |branchNodes|
      invariant IsTerminal(nodes, disc, branchNodes[..i], best)
      invariant best.Some? ==> bestDepth == disc[best.value.id]
    {
      var id := branchNodes[i];
      assert branchNodes[..i + 1] == branchNodes[..i] + [id];
      var nodeType := nodes[id];
      if nodeType != NOTABLE && nodeType != KEYSTONE {
        continue;
      }
      var depth := disc[id];
      if best.None? {
        best := Some(Terminal(id, nodeType));
        bestDepth := depth;
        continue;
      }
      if TerminalReplaces(nodeType, depth, id, best.value, bestDepth) {
        best := Some(Terminal(id, nodeType));
        bestDepth := depth;
      }
    }
    assert branchNodes[..|branchNodes|] == branchNodes;
  }

  predicate TerminalReplaces(nodeType: string, depth: nat, id: int, best: Terminal, bestDepth: nat) {
    if nodeType == KEYSTONE && best.kind != KEYSTONE then true
    else if nodeType != best.kind then false
    else if depth > bestDepth then true
    else depth == bestDepth && id > best.id
  }

  lemma TerminalUnique(nodes: map<int, string>, disc: map<int, nat>, xs: seq<int>, t: Option<Terminal>,
      u: Option<Terminal>)
    requires forall x | x in xs :: x in disc
    requires IsTerminal(nodes, disc, xs, t) && IsTerminal(nodes, disc, xs, u)
    ensures t == u
  {
  }

  // ---------------------------------------------------------------- the segmentation

  ghost predicate IsBranch(g: Graph, root: int, s: Dfs, b: Branch)
    requires Ranked(s.disc, s.kids, s.timer)
  {
    && Emitted(root, s, b.head) && b.anchor == s.parent[b.head] && b.head in s.disc
    && b.nodes == Preorder(s.disc, s.kids, s.timer, b.head)
    && b.nodeCount == |b.nodes|
    && b.leaves == LeavesOf(s.kids, b.nodes)
    && IsTerminal(g.nodes, s.disc, b.nodes, b.terminal)
    && b.pureTravel == b.terminal.None?
  }

  ghost predicate SortedByHead(branches: seq<Branch>) {
    forall i, j | 0 <= i < j < |branches| :: branches[i].head < branches[j].head
  }

  /** One branch per emitted subtree, in ascending order of head. */
  ghost predicate IsSegmentation(g: Graph, root: int, s: Dfs, branches: seq<Branch>)
    requires Ranked(s.disc, s.kids, s.timer)
  {
    && SortedByHead(branches)
    && (forall b | b in branches :: IsBranch(g, root, s, b))
    && (forall v | Emitted(root, s, v) :: exists b :: b in branches && b.head == v)
  }

  predicate ByHead(a: Branch, b: Branch) {
    a.head < b.head
  }

  lemma {:induction false} InsertSorted(b: Branch, sorted: seq<Branch>)
    requires SortedByHead(sorted) && forall i | 0 <= i < |sorted| :: sorted[i].head != b.head
    ensures SortedByHead(Sorting.Place(ByHead, b, sorted))
  {
    if sorted != [] && b.head > sorted[0].head {
      InsertSorted(b, sorted[1..]);
      var rest := Sorting.Place(ByHead, b, sorted[1..]);
      forall i | 0 <= i < |rest| ensures sorted[0].head < rest[i].head {
        assert rest[i] in multiset(rest);
        assert rest[i] == b || rest[i] in sorted[1..];
      }
    }
  }

  lemma {:induction false} SortSorts(branches: seq<Branch>)
    requires forall i, j | 0 <= i < j < |branches| :: branches[i].head != branches[j].head
    ensures SortedByHead(Sorting.Sort(ByHead, branches))
  {
    if branches != [] {
      SortSorts(branches[1..]);
      var rest := Sorting.Sort(ByHead, branches[1..]);
      forall i | 0 <= i < |rest| ensures rest[i].head != branches[0].head {
        assert rest[i] in multiset(rest);
        assert rest[i] in branches[1..];
      }
      InsertSorted(branches[0], rest);
    }
  }

  /** The whole computation. Keys of `disc` are visited in any order; with no root there are no branches. */
  method SegmentGraph(nodes: map<int, string>, adjacency: map<int, seq<int>>, root: int)
    returns (branches: seq<Branch>, ghost s: Dfs)
    requires Graph(nodes, adjacency).Symmetric()
    ensures root !in nodes ==> branches == []
    ensures root in nodes ==>
              && Complete(Graph(nodes, adjacency), root, s) && Ranked(s.disc, s.kids, s.timer)
              && IsSegmentation(Graph(nodes, adjacency), root, s, branches)
    ensures root in nodes ==> InOrder(s)
  {
    hide InOrder, Complete, Shape, Ranked, Preorder, LeavesOf, IsTerminal, Emitted, IsBranch, IsBranchHead;
    if root !in nodes {
      return [], Init(root);
    }
    var disc: map<int, nat>, low: map<int, nat>, parent: map<int, int>, dfsChildren: map<int, seq<int>>;
    disc, low, parent, dfsChildren, s := Search(nodes, adjacency, root);
    ghost var g := Graph(nodes, adjacency);
    CompleteFacts(g, root, s);
    branches := [];
    var todo := disc.Keys;
    while todo != {}
      invariant todo <= disc.Keys
      invariant forall i | 0 <= i < |branches| :: IsBranch(g, root, s, branches[i]) && branches[i].head !in todo
      invariant forall i, j | 0 <= i < j < |branches| :: branches[i].head != branches[j].head
      invariant forall v | Emitted(root, s, v) && v !in todo :: exists i :: 0 <= i < |branches| && branches[i].head == v
      decreases todo
    {
      ghost var some := SomeElement(todo);
      var nodeID :| nodeID in todo;
      todo := todo - {nodeID};
      ghost var before := branches;
      EmittedTest(g, root, s, nodeID);
      if nodeID == root {
        continue;
      }
      if nodeID !in parent {
        continue;
      }
      var parentID := parent[nodeID];
      if !IsBranchHead(parentID, nodeID, root, disc, low) {
        continue;
      }
      var subtreeNodes, leaves := CollectSubtree(nodeID, dfsChildren, disc, s.timer);
      PreorderVisited(g, root, s, nodeID);
      var terminal := ClassifyTerminal(subtreeNodes, nodes, disc);
      var branch := Branch(parentID, nodeID, subtreeNodes, |subtreeNodes|, terminal, terminal.None?, leaves);
      MakeBranch(g, root, s, branch);
      branches := branches + [branch];
      assert branches[|before|].head == nodeID;
      forall v | Emitted(root, s, v) && v !in todo ensures exists i :: 0 <= i < |branches| && branches[i].head == v {
        if v != nodeID {
          var i :| 0 <= i < |before| && before[i].head == v;
          assert branches[i].head == v;
        }
      }
    }
    ghost var found := branches;
    SortSorts(branches);
    branches := Sorting.Sort(ByHead, branches);
    SortedSegmentation(g, root, s, found, branches);
  }

  predicate IsBranchHead(parentID: int, nodeID: int, root: int, disc: map<int, nat>, low: map<int, nat>)
    requires parentID in disc && nodeID in low
  {
    parentID == root || low[nodeID] > disc[parentID]
  }

  lemma EmittedTest(g: Graph, root: int, s: Dfs, v: int)
    requires Complete(g, root, s)
    ensures v in s.parent ==> s.parent[v] in s.disc && v in s.low && v in s.disc && v != root
    ensures Emitted(root, s, v) <==>
        v in s.parent && s.parent[v] in s.disc && v in s.low
        && IsBranchHead(s.parent[v], v, root, s.disc, s.low)
  {
  }

  lemma MakeBranch(g: Graph, root: int, s: Dfs, b: Branch)
    requires Ranked(s.disc, s.kids, s.timer) && Emitted(root, s, b.head) && HasParent(s.parent, b.head, b.anchor)
        && b.head in s.disc
    requires b.nodes == Preorder(s.disc, s.kids, s.timer, b.head) && b.nodeCount == |b.nodes|
    requires b.leaves == LeavesOf(s.kids, b.nodes)
    requires IsTerminal(g.nodes, s.disc, b.nodes, b.terminal) && b.pureTravel == b.terminal.None?
    ensures IsBranch(g, root, s, b)
  {
  }

  lemma CompleteFacts(g: Graph, root: int, s: Dfs)
    requires Complete(g, root, s)
    ensures Ranked(s.disc, s.kids, s.timer)
    ensures forall v | v in s.parent :: s.parent[v] in s.disc && v in s.low && v in s.disc && v != root
    ensures s.disc.Keys == s.low.Keys && s.disc.Keys <= g.nodes.Keys
    ensures forall v | Emitted(root, s, v) :: v in s.disc
  {
    ShapeRanked(g, root, s);
  }

  lemma PreorderVisited(g: Graph, root: int, s: Dfs, v: int)
    requires Complete(g, root, s) && Ranked(s.disc, s.kids, s.timer) && v in s.disc
    ensures forall x | x in Preorder(s.disc, s.kids, s.timer, v) :: x in s.disc && x in g.nodes
  {
    forall x | x in Preorder(s.disc, s.kids, s.timer, v) ensures x in s.disc && x in g.nodes {
      PreorderMembers(g, root, s, v, x);
    }
  }

  lemma SortedSegmentation(g: Graph, root: int, s: Dfs, found: seq<Branch>, branches: seq<Branch>)
    requires Ranked(s.disc, s.kids, s.timer)
    requires multiset(branches) == multiset(found) && SortedByHead(branches)
    requires forall i | 0 <= i < |found| :: IsBranch(g, root, s, found[i])
    requires forall v | Emitted(root, s, v) :: exists i :: 0 <= i < |found| && found[i].head == v
    ensures IsSegmentation(g, root, s, branches)
  {
    forall b | b in branches ensures IsBranch(g, root, s, b) {
      assert b in multiset(branches);
      assert b in found;
    }
    forall v | Emitted(root, s, v) ensures exists b :: b in branches && b.head == v {
      var i :| 0 <= i < |found| && found[i].head == v;
      assert found[i] in multiset(found);
      assert found[i] in branches;
    }
  }
}
