/** The state of the iterative low-link search as a value, the invariant that every step of
    the search keeps, and one preservation lemma per kind of step. Each part of the invariant
    speaks only of the maps it is about, so that a step which leaves those alone keeps it. */
module DfsTree {
  import opened Graphs

  datatype Frame = Frame(node: int, idx: nat)

  /** The maps of the search. `anc` and `done` exist for the proof only: `anc[v]` holds `v` and its
      ancestors in the search tree, `done[v]` the number of adjacency entries of `v` handled so far. */
  datatype Dfs = Dfs(
    disc: map<int, nat>, low: map<int, nat>, parent: map<int, int>, kids: map<int, seq<int>>,
    timer: nat, anc: map<int, set<int>>, done: map<int, nat>)

  function ChildrenOf(kids: map<int, seq<int>>, v: int): seq<int> {
    if v in kids then kids[v] else []
  }

  predicate HasParent(parent: map<int, int>, v: int, p: int) {
    v in parent && parent[v] == p
  }

  /** `v` is `w` or an ancestor of `w`. */
  predicate Above(anc: map<int, set<int>>, v: int, w: int) {
    w in anc && v in anc[w]
  }

  function Subtree(anc: map<int, set<int>>, v: int): set<int> {
    set w | w in anc && v in anc[w]
  }

  function Init(root: int): Dfs {
    Dfs(map[root := 0], map[root := 0], map[], map[], 1, map[root := {root}], map[root := 0])
  }

  /** One more adjacency entry of `v` has been handled. */
  function Handled(s: Dfs, v: int): Dfs
    requires v in s.done
  {
    s.(done := s.done[v := s.done[v] + 1])
  }

  /** A tree edge: `found` is numbered and becomes a child of `current`. */
  function Push(s: Dfs, current: int, found: int): Dfs
    requires current in s.anc
  {
    Dfs(s.disc[found := s.timer], s.low[found := s.timer], s.parent[found := current],
        s.kids[current := ChildrenOf(s.kids, current) + [found]], s.timer + 1,
        s.anc[found := s.anc[current] + {found}], s.done[found := 0])
  }

  function BackLow(disc: map<int, nat>, low: map<int, nat>, parent: map<int, int>, v: int, w: int): map<int, nat>
    requires w in disc && v in low
  {
    if HasParent(parent, v, w) then low
    else if disc[w] < low[v] then low[v := disc[w]]
    else low
  }

  function BackEdge(s: Dfs, current: int, neighbor: int): Dfs
    requires neighbor in s.disc && current in s.low
  {
    s.(low := BackLow(s.disc, s.low, s.parent, current, neighbor))
  }

  function PopLow(low: map<int, nat>, parent: map<int, int>, v: int): map<int, nat>
    requires v in low && (v in parent ==> parent[v] in low)
  {
    if v in parent && low[v] < low[parent[v]] then low[parent[v] := low[v]] else low
  }

  function Pop(s: Dfs, current: int): Dfs
    requires current in s.low && (current in s.parent ==> s.parent[current] in s.low)
  {
    s.(low := PopLow(s.low, s.parent, current))
  }

  function Advance(stack: seq<Frame>): seq<Frame>
    requires |stack| > 0
  {
    stack[|stack| - 1 := Frame(stack[|stack| - 1].node, stack[|stack| - 1].idx + 1)]
  }

  // ---------------------------------------------------------------- the invariant

  ghost predicate Numbering(g: Graph, root: int, disc: map<int, nat>, timer: nat) {
    && root in disc && disc[root] == 0
    && disc.Keys <= g.nodes.Keys
    && |disc| == timer
    && (forall v | v in disc :: disc[v] < timer)
    && (forall u, v | u in disc && v in disc && disc[u] == disc[v] :: u == v)
  }

  ghost predicate Parents(g: Graph, root: int, disc: map<int, nat>, parent: map<int, int>) {
    && parent.Keys == disc.Keys - {root}
    && (forall v | v in parent :: parent[v] in disc && g.Edge(parent[v], v) && disc[parent[v]] < disc[v])
  }

  ghost predicate Children(disc: map<int, nat>, parent: map<int, int>, kids: map<int, seq<int>>) {
    && kids.Keys <= disc.Keys
    && (forall v | v in parent :: v in ChildrenOf(kids, parent[v]))
    && (forall u, w | w in ChildrenOf(kids, u) :: HasParent(parent, w, u))
    && (forall u, i, j | 0 <= i < j < |ChildrenOf(kids, u)| :: ChildrenOf(kids, u)[i] != ChildrenOf(kids, u)[j])
  }

  ghost predicate Ancestors(root: int, disc: map<int, nat>, parent: map<int, int>, anc: map<int, set<int>>) {
    && anc.Keys == disc.Keys && parent.Keys == disc.Keys - {root}
    && root in anc && anc[root] == {root}
    && (forall v | v in parent :: parent[v] in anc && anc[v] == anc[parent[v]] + {v})
    && (forall v, a | Above(anc, a, v) :: a in disc && disc[a] <= disc[v])
    && (forall v, a | Above(anc, a, v) && a in parent :: parent[a] in anc[v])
  }

  ghost predicate OnStack(stack: seq<Frame>, v: int) {
    exists i :: 0 <= i < |stack| && stack[i].node == v
  }

  /** The stack is the tree path from the root to the node being explored. */
  ghost predicate Stack(root: int, disc: map<int, nat>, parent: map<int, int>, anc: map<int, set<int>>,
      stack: seq<Frame>)
  {
    && (|stack| > 0 ==> stack[0].node == root)
    && (forall i | 0 <= i < |stack| :: stack[i].node in disc)
    && (forall i, j | 0 <= i < j < |stack| :: disc[stack[i].node] < disc[stack[j].node])
    && (forall i | 0 <= i < |stack| :: Above(anc, stack[i].node, stack[|stack| - 1].node))
    && (forall i | 0 < i < |stack| :: HasParent(parent, stack[i].node, stack[i - 1].node))
  }

  /** A frame's index counts the handled entries; whatever left the stack has had all of them handled. */
  ghost predicate Progress(g: Graph, done: map<int, nat>, stack: seq<Frame>) {
    && (forall i | 0 <= i < |stack| :: stack[i].node in done && stack[i].idx == done[stack[i].node])
    && (forall v | v in done :: done[v] <= |g.Neighbors(v)|)
    && (forall v | v in done && !OnStack(stack, v) :: done[v] == |g.Neighbors(v)|)
  }

  /** A handled entry leads to a visited ancestor or descendant ... */
  ghost predicate NoCrossEdges(g: Graph, anc: map<int, set<int>>, done: map<int, nat>) {
    forall v, k | v in done && 0 <= k < done[v] && k < |g.Neighbors(v)| && g.Neighbors(v)[k] in g.nodes ::
      Above(anc, v, g.Neighbors(v)[k]) || Above(anc, g.Neighbors(v)[k], v)
  }

  /** ... and bounds `low` from above unless it is the tree edge to the parent. */
  ghost predicate LowBound(disc: map<int, nat>, low: map<int, nat>, parent: map<int, int>, v: int, w: int) {
    w in disc && v in low && (HasParent(parent, v, w) || low[v] <= disc[w])
  }

  ghost predicate LowBounds(g: Graph, disc: map<int, nat>, low: map<int, nat>, parent: map<int, int>,
      done: map<int, nat>)
  {
    forall v, k | v in done && 0 <= k < done[v] && k < |g.Neighbors(v)| && g.Neighbors(v)[k] in g.nodes ::
      LowBound(disc, low, parent, v, g.Neighbors(v)[k])
  }

  /** `w` is reached from `v`'s subtree by one edge that is not the tree edge to a parent. */
  ghost predicate Reaches(g: Graph, parent: map<int, int>, anc: map<int, set<int>>, v: int, u: int, w: int) {
    Above(anc, v, u) && g.Edge(u, w) && w in anc && !HasParent(parent, u, w)
  }

  ghost predicate Attained(g: Graph, disc: map<int, nat>, parent: map<int, int>, anc: map<int, set<int>>, v: int,
      bound: nat)
  {
    exists u, w :: Reaches(g, parent, anc, v, u, w) && w in disc && disc[w] == bound
  }

  ghost predicate LowAttained(g: Graph, disc: map<int, nat>, low: map<int, nat>, parent: map<int, int>,
      anc: map<int, set<int>>)
  {
    forall v | v in low ::
      v in disc && low[v] <= disc[v] && (low[v] == disc[v] || Attained(g, disc, parent, anc, v, low[v]))
  }

  ghost predicate Closed(low: map<int, nat>, parent: map<int, int>, stack: seq<Frame>) {
    forall v | v in parent && v in low && parent[v] in low && !OnStack(stack, v) :: low[parent[v]] <= low[v]
  }

  ghost predicate Shape(g: Graph, root: int, s: Dfs) {
    && s.disc.Keys == s.low.Keys == s.anc.Keys == s.done.Keys
    && Numbering(g, root, s.disc, s.timer)
    && Parents(g, root, s.disc, s.parent)
    && Children(s.disc, s.parent, s.kids)
    && Ancestors(root, s.disc, s.parent, s.anc)
  }

  ghost predicate Inv(g: Graph, root: int, s: Dfs, stack: seq<Frame>) {
    && Shape(g, root, s)
    && Stack(root, s.disc, s.parent, s.anc, stack)
    && Progress(g, s.done, stack)
    && NoCrossEdges(g, s.anc, s.done)
    && LowBounds(g, s.disc, s.low, s.parent, s.done)
    && LowAttained(g, s.disc, s.low, s.parent, s.anc)
    && Closed(s.low, s.parent, stack)
  }

  lemma InitInv(g: Graph, root: int)
    requires root in g.nodes
    ensures Inv(g, root, Init(root), [Frame(root, 0)])
  {
    hide NoCrossEdges, LowBounds;
    var s, stack := Init(root), [Frame(root, 0)];
    assert stack[0].node == root && OnStack(stack, root);
    InitEntries(g, root);
  }

  lemma InitEntries(g: Graph, root: int)
    ensures var s := Init(root); NoCrossEdges(g, s.anc, s.done) && LowBounds(g, s.disc, s.low, s.parent, s.done)
  {
  }

  // ---------------------------------------------------------------- the stack

  lemma OnStackAdvance(stack: seq<Frame>, x: int)
    requires |stack| > 0
    ensures OnStack(stack, x) <==> OnStack(Advance(stack), x)
  {
    assert forall i | 0 <= i < |stack| :: Advance(stack)[i].node == stack[i].node;
  }

  lemma OnStackPush(stack: seq<Frame>, w: int, x: int)
    requires |stack| > 0
    ensures OnStack(Advance(stack) + [Frame(w, 0)], x) <==> OnStack(stack, x) || x == w
  {
    var stack' := Advance(stack) + [Frame(w, 0)];
    assert forall i | 0 <= i < |stack| :: stack'[i].node == stack[i].node;
    assert stack'[|stack|].node == w;
  }

  lemma OnStackPop(stack: seq<Frame>, x: int)
    requires |stack| > 0 && OnStack(stack, x)
    ensures x == stack[|stack| - 1].node || OnStack(stack[..|stack| - 1], x)
  {
    var i :| 0 <= i < |stack| && stack[i].node == x;
    if i < |stack| - 1 {
      assert stack[..|stack| - 1][i].node == x;
    }
  }

  lemma AdvanceProgress(g: Graph, root: int, s: Dfs, stack: seq<Frame>, v: int)
    requires Stack(root, s.disc, s.parent, s.anc, stack) && Progress(g, s.done, stack)
    requires |stack| > 0 && v == stack[|stack| - 1].node && stack[|stack| - 1].idx < |g.Neighbors(v)|
    ensures Progress(g, Handled(s, v).done, Advance(stack))
  {
    var done, stack' := Handled(s, v).done, Advance(stack);
    forall x | x in done && !OnStack(stack', x) ensures done[x] == |g.Neighbors(x)| {
      OnStackAdvance(stack, x);
      assert stack[|stack| - 1].node == v;
    }
  }

  lemma AdvanceStack(root: int, s: Dfs, stack: seq<Frame>)
    requires Stack(root, s.disc, s.parent, s.anc, stack) && |stack| > 0
    ensures Stack(root, s.disc, s.parent, s.anc, Advance(stack))
  {
    assert forall i | 0 <= i < |stack| :: Advance(stack)[i].node == stack[i].node;
  }

  lemma PushProgress(g: Graph, done: map<int, nat>, stack: seq<Frame>, w: int)
    requires Progress(g, done, stack) && |stack| > 0 && w !in done
    ensures Progress(g, done[w := 0], stack + [Frame(w, 0)])
  {
    var stack' := stack + [Frame(w, 0)];
    assert stack'[|stack|].node == w;
    forall x | OnStack(stack, x) ensures OnStack(stack', x) {
      var i :| 0 <= i < |stack| && stack[i].node == x;
      assert stack'[i].node == x;
    }
  }

  lemma PushStack(root: int, s: Dfs, stack: seq<Frame>, v: int, w: int, s': Dfs)
    requires Stack(root, s.disc, s.parent, s.anc, stack)
    requires |stack| > 0 && v == stack[|stack| - 1].node && v in s.anc && w !in s.disc
    requires forall x | x in s.disc :: s.disc[x] < s.timer
    requires s' == Push(s, v, w)
    ensures Stack(root, s'.disc, s'.parent, s'.anc, stack + [Frame(w, 0)])
  {
  }

  lemma PopStack(root: int, s: Dfs, stack: seq<Frame>, v: int)
    requires Ancestors(root, s.disc, s.parent, s.anc) && Stack(root, s.disc, s.parent, s.anc, stack)
    requires |stack| > 0 && v == stack[|stack| - 1].node
    ensures Stack(root, s.disc, s.parent, s.anc, stack[..|stack| - 1])
  {
    var stack' := stack[..|stack| - 1];
    if |stack| > 1 {
      var p := stack[|stack| - 2].node;
      assert HasParent(s.parent, v, p);
      forall i | 0 <= i < |stack'| ensures Above(s.anc, stack'[i].node, p) {
        assert Above(s.anc, stack[i].node, v) && s.disc[stack[i].node] < s.disc[v];
        assert s.anc[v] == s.anc[p] + {v};
      }
    }
  }

  lemma PopProgress(g: Graph, done: map<int, nat>, stack: seq<Frame>, v: int)
    requires Progress(g, done, stack)
    requires |stack| > 0 && v == stack[|stack| - 1].node && stack[|stack| - 1].idx == |g.Neighbors(v)|
    ensures Progress(g, done, stack[..|stack| - 1])
  {
    var stack' := stack[..|stack| - 1];
    forall x | x in done && !OnStack(stack', x) ensures done[x] == |g.Neighbors(x)| {
      if OnStack(stack, x) { OnStackPop(stack, x); }
    }
  }

  // ---------------------------------------------------------------- a visited or foreign entry

  /** A visited neighbour of the top of the stack is an ancestor or a descendant of it: if it is
      not on the stack it is finished, and the edge was already seen from its side. */
  lemma Related(g: Graph, root: int, s: Dfs, stack: seq<Frame>, v: int, w: int)
    requires g.Symmetric()
    requires Stack(root, s.disc, s.parent, s.anc, stack) && Progress(g, s.done, stack) && NoCrossEdges(g, s.anc, s.done)
    requires |stack| > 0 && v == stack[|stack| - 1].node
    requires g.Edge(v, w) && w in s.done
    ensures Above(s.anc, v, w) || Above(s.anc, w, v)
  {
    if !OnStack(stack, w) {
      assert g.Edge(w, v);
      var k :| 0 <= k < |g.Neighbors(w)| && g.Neighbors(w)[k] == v;
    }
  }

  /** What the invariant says of the node on top of the stack. */
  lemma TopFacts(g: Graph, root: int, s: Dfs, stack: seq<Frame>, v: int)
    requires Shape(g, root, s) && Stack(root, s.disc, s.parent, s.anc, stack) && Progress(g, s.done, stack)
    requires |stack| > 0 && v == stack[|stack| - 1].node
    ensures v in g.nodes && v in s.disc && v in s.low && v in s.done && Above(s.anc, v, v) && OnStack(stack, v)
    ensures s.done[v] == stack[|stack| - 1].idx && s.disc[v] < s.timer
    ensures v in s.parent ==> s.parent[v] in s.low
  {
    assert v in s.disc;
  }

  lemma BoundFacts(g: Graph, root: int, s: Dfs)
    requires Shape(g, root, s) && LowAttained(g, s.disc, s.low, s.parent, s.anc)
    ensures forall x | x in s.disc :: s.disc[x] < s.timer
    ensures forall x | x in s.low :: x in s.disc && s.low[x] <= s.disc[x]
    ensures forall x | x in s.parent :: s.parent[x] in s.low
  {
  }

  /** An entry that is not a node is skipped; an entry already visited is a candidate back edge. */
  lemma BackInv(g: Graph, root: int, s: Dfs, stack: seq<Frame>, v: int, w: int, s': Dfs)
    requires g.Symmetric()
    requires Inv(g, root, s, stack) && |stack| > 0 && v == stack[|stack| - 1].node
    requires stack[|stack| - 1].idx < |g.Neighbors(v)| && w == g.Neighbors(v)[stack[|stack| - 1].idx]
    requires w in g.nodes ==> w in s.disc
    requires v in s.done && v in s.low && s' == Handled(if w in g.nodes then BackEdge(s, v, w) else s, v)
    ensures Inv(g, root, s', Advance(stack))
  {
    hide Numbering, Parents, Children, Ancestors, Stack, Progress, NoCrossEdges, LowBounds, LowAttained, Closed;
    TopFacts(g, root, s, stack, v);
    AdvanceStack(root, s, stack);
    AdvanceProgress(g, root, s, stack, v);
    if w in g.nodes {
      assert g.Edge(v, w);
      Related(g, root, s, stack, v, w);
      BackLowInv(g, s, v, w);
    }
    BackEntries(g, s, v, w, s');
    BackClosed(s, stack, v, w, s');
  }

  lemma BackEntries(g: Graph, s: Dfs, v: int, w: int, s': Dfs)
    requires NoCrossEdges(g, s.anc, s.done) && LowBounds(g, s.disc, s.low, s.parent, s.done)
    requires v in s.done && v in s.low && s.done[v] < |g.Neighbors(v)| && w == g.Neighbors(v)[s.done[v]]
    requires w in g.nodes ==> w in s.disc && (Above(s.anc, v, w) || Above(s.anc, w, v))
    requires s' == Handled(if w in g.nodes then BackEdge(s, v, w) else s, v)
    ensures NoCrossEdges(g, s'.anc, s'.done) && LowBounds(g, s'.disc, s'.low, s'.parent, s'.done)
  {
    forall x, k | x in s'.done && 0 <= k < s'.done[x] && k < |g.Neighbors(x)| && g.Neighbors(x)[k] in g.nodes
      ensures Above(s'.anc, x, g.Neighbors(x)[k]) || Above(s'.anc, g.Neighbors(x)[k], x)
      ensures LowBound(s'.disc, s'.low, s'.parent, x, g.Neighbors(x)[k])
    {
      if x != v || k < s.done[v] {
        assert LowBound(s.disc, s.low, s.parent, x, g.Neighbors(x)[k]);
      }
    }
  }

  lemma BackLowInv(g: Graph, s: Dfs, v: int, w: int)
    requires LowAttained(g, s.disc, s.low, s.parent, s.anc)
    requires v in s.low && w in s.disc && w in s.anc && g.Edge(v, w) && Above(s.anc, v, v)
    ensures LowAttained(g, s.disc, BackLow(s.disc, s.low, s.parent, v, w), s.parent, s.anc)
  {
    if !HasParent(s.parent, v, w) {
      assert Reaches(g, s.parent, s.anc, v, v, w);
      assert Attained(g, s.disc, s.parent, s.anc, v, s.disc[w]);
    }
  }

  lemma BackClosed(s: Dfs, stack: seq<Frame>, v: int, w: int, s': Dfs)
    requires Closed(s.low, s.parent, stack) && |stack| > 0 && OnStack(stack, v)
    requires v in s.low && v in s.done
    requires s'.parent == s.parent && (s'.low == s.low
        || (w in s.disc && s'.low == BackLow(s.disc, s.low, s.parent, v, w)))
    ensures Closed(s'.low, s'.parent, Advance(stack))
  {
    forall x ensures OnStack(stack, x) <==> OnStack(Advance(stack), x) { OnStackAdvance(stack, x); }
  }

  // ---------------------------------------------------------------- a new node

  lemma PushInv(g: Graph, root: int, s: Dfs, stack: seq<Frame>, v: int, w: int, s': Dfs)
    requires Inv(g, root, s, stack) && |stack| > 0 && v == stack[|stack| - 1].node
    requires stack[|stack| - 1].idx < |g.Neighbors(v)| && w == g.Neighbors(v)[stack[|stack| - 1].idx]
    requires w in g.nodes && w !in s.disc
    requires v in s.done && v in s.anc && s' == Handled(Push(s, v, w), v)
    ensures Inv(g, root, s', Advance(stack) + [Frame(w, 0)])
  {
    hide Numbering, Parents, Children, Ancestors, Stack, Progress, NoCrossEdges, LowBounds, LowAttained, Closed;
    TopFacts(g, root, s, stack, v);
    BoundFacts(g, root, s);
    assert g.Edge(v, w);
    PushShape(g, root, s, v, w, s');
    AdvanceStack(root, s, stack);
    PushStack(root, s, Advance(stack), v, w, Push(s, v, w));
    AdvanceProgress(g, root, s, stack, v);
    PushProgress(g, Handled(s, v).done, Advance(stack), w);
    assert s'.done == Handled(s, v).done[w := 0];
    PushEntries(g, s, v, w, s');
    PushLow(g, root, s, v, w, s');
    PushClosed(s, stack, v, w, s');
  }

  lemma PushShape(g: Graph, root: int, s: Dfs, v: int, w: int, s': Dfs)
    requires Shape(g, root, s)
    requires v in s.disc && w !in s.disc && g.Edge(v, w)
    requires s' == Handled(Push(s, v, w), v)
    ensures Shape(g, root, s')
  {
    hide Numbering, Parents, Children, Ancestors;
    PushNumbering(g, root, s.disc, s.timer, s.parent, v, w);
    PushChildren(s.disc, s.parent, s.kids, v, w, s.timer);
    PushAncestors(root, s.disc, s.parent, s.anc, v, w, s.timer);
  }

  lemma PushNumbering(g: Graph, root: int, disc: map<int, nat>, timer: nat, parent: map<int, int>, v: int, w: int)
    requires Numbering(g, root, disc, timer) && Parents(g, root, disc, parent) && v in disc && w !in disc
        && g.Edge(v, w)
    ensures Numbering(g, root, disc[w := timer], timer + 1) && Parents(g, root, disc[w := timer], parent[w := v])
    ensures forall x | x in disc :: disc[x] < timer
    ensures w !in parent
  {
    hide Numbering, Parents;
    PushNumber(g, root, disc, timer, w);
    PushParent(g, root, disc, timer, parent, v, w);
  }

  lemma PushNumber(g: Graph, root: int, disc: map<int, nat>, timer: nat, w: int)
    requires Numbering(g, root, disc, timer) && w !in disc && w in g.nodes
    ensures Numbering(g, root, disc[w := timer], timer + 1)
    ensures root in disc && forall x | x in disc :: disc[x] < timer
  {
    assert disc[w := timer].Keys == disc.Keys + {w};
    assert |disc.Keys + {w}| == |disc.Keys| + 1;
  }

  lemma PushParent(g: Graph, root: int, disc: map<int, nat>, timer: nat, parent: map<int, int>, v: int, w: int)
    requires Parents(g, root, disc, parent) && v in disc && w !in disc && g.Edge(v, w)
    requires root in disc && forall x | x in disc :: disc[x] < timer
    ensures Parents(g, root, disc[w := timer], parent[w := v]) && w !in parent
  {
  }

  lemma PushChildren(disc: map<int, nat>, parent: map<int, int>, kids: map<int, seq<int>>, v: int, w: int, timer: nat)
    requires Children(disc, parent, kids) && v in disc && w !in disc && w !in parent
    ensures Children(disc[w := timer], parent[w := v], kids[v := ChildrenOf(kids, v) + [w]])
  {
    var parent', kids' := parent[w := v], kids[v := ChildrenOf(kids, v) + [w]];
    assert ChildrenOf(kids', v) == ChildrenOf(kids, v) + [w];
    assert forall x | x != v :: ChildrenOf(kids', x) == ChildrenOf(kids, x);
    forall x | x in parent' ensures x in ChildrenOf(kids', parent'[x]) {
      if x == w {
        assert (ChildrenOf(kids, v) + [w])[|ChildrenOf(kids, v)|] == w;
      } else {
        assert x in ChildrenOf(kids, parent[x]);
      }
    }
    forall u, x | x in ChildrenOf(kids', u) ensures HasParent(parent', x, u) {
      assert x in ChildrenOf(kids, u) || (u == v && x == w);
    }
    forall i | 0 <= i < |ChildrenOf(kids, v)| ensures ChildrenOf(kids, v)[i] != w {
      assert ChildrenOf(kids, v)[i] in ChildrenOf(kids, v);
    }
  }

  lemma PushAncestors(root: int, disc: map<int, nat>, parent: map<int, int>, anc: map<int, set<int>>, v: int, w: int,
      timer: nat)
    requires Ancestors(root, disc, parent, anc) && v in disc && w !in disc
    requires forall x | x in disc :: disc[x] < timer
    ensures Ancestors(root, disc[w := timer], parent[w := v], anc[w := anc[v] + {w}])
  {
    var disc', parent', anc' := disc[w := timer], parent[w := v], anc[w := anc[v] + {w}];
    assert Above(anc, v, v) by {
      if v != root { assert anc[v] == anc[parent[v]] + {v}; }
    }
    forall x, a | Above(anc', a, x)
      ensures a in disc' && disc'[a] <= disc'[x] && (a in parent' ==> parent'[a] in anc'[x])
    {
      if x != w {
        assert Above(anc, a, x);
      } else if a != w {
        assert Above(anc, a, v);
      }
    }
  }

  lemma PushEntries(g: Graph, s: Dfs, v: int, w: int, s': Dfs)
    requires s.disc.Keys == s.low.Keys == s.anc.Keys == s.done.Keys
    requires NoCrossEdges(g, s.anc, s.done) && LowBounds(g, s.disc, s.low, s.parent, s.done)
    requires v in s.disc && w !in s.disc && Above(s.anc, v, v)
    requires s.low[v] <= s.disc[v] < s.timer
    requires s.done[v] < |g.Neighbors(v)| && g.Neighbors(v)[s.done[v]] == w
    requires s' == Handled(Push(s, v, w), v)
    ensures NoCrossEdges(g, s'.anc, s'.done)
    ensures LowBounds(g, s'.disc, s'.low, s'.parent, s'.done)
  {
    forall x, k | x in s'.done && 0 <= k < s'.done[x] && k < |g.Neighbors(x)| && g.Neighbors(x)[k] in g.nodes
      ensures Above(s'.anc, x, g.Neighbors(x)[k]) || Above(s'.anc, g.Neighbors(x)[k], x)
      ensures LowBound(s'.disc, s'.low, s'.parent, x, g.Neighbors(x)[k])
    {
      if x != v || k < s.done[v] {
        assert LowBound(s.disc, s.low, s.parent, x, g.Neighbors(x)[k]);
      }
    }
  }

  lemma PushLow(g: Graph, root: int, s: Dfs, v: int, w: int, s': Dfs)
    requires s.disc.Keys == s.low.Keys == s.anc.Keys == s.done.Keys
    requires LowAttained(g, s.disc, s.low, s.parent, s.anc)
    requires Ancestors(root, s.disc, s.parent, s.anc)
    requires v in s.disc && w !in s.disc
    requires s' == Handled(Push(s, v, w), v)
    ensures LowAttained(g, s'.disc, s'.low, s'.parent, s'.anc)
  {
    forall x | x in s.low && s.low[x] != s.disc[x]
      ensures Attained(g, s'.disc, s'.parent, s'.anc, x, s.low[x])
    {
      var u, y :| Reaches(g, s.parent, s.anc, x, u, y) && y in s.disc && s.disc[y] == s.low[x];
      assert Reaches(g, s'.parent, s'.anc, x, u, y);
    }
  }

  lemma PushClosed(s: Dfs, stack: seq<Frame>, v: int, w: int, s': Dfs)
    requires Closed(s.low, s.parent, stack) && |stack| > 0
    requires v in s.anc && v in s.done && v in s.low && s.low[v] < s.timer && w !in s.low
    requires forall x | x in s.parent :: s.parent[x] in s.low
    requires s' == Handled(Push(s, v, w), v)
    ensures Closed(s'.low, s'.parent, Advance(stack) + [Frame(w, 0)])
  {
    forall x ensures OnStack(Advance(stack) + [Frame(w, 0)], x) <==> OnStack(stack, x) || x == w {
      OnStackPush(stack, w, x);
    }
  }

  // ---------------------------------------------------------------- a finished node

  lemma PopInv(g: Graph, root: int, s: Dfs, stack: seq<Frame>, v: int, s': Dfs)
    requires Inv(g, root, s, stack) && |stack| > 0 && v == stack[|stack| - 1].node
    requires stack[|stack| - 1].idx == |g.Neighbors(v)|
    requires v in s.low && (v in s.parent ==> s.parent[v] in s.low) && s' == Pop(s, v)
    ensures Inv(g, root, s', stack[..|stack| - 1])
  {
    hide Numbering, Parents, Children, Ancestors, Stack, Progress, NoCrossEdges, LowBounds, LowAttained, Closed;
    TopFacts(g, root, s, stack, v);
    PopStack(root, s, stack, v);
    PopProgress(g, s.done, stack, v);
    PopBounds(g, s, v);
    PopAttained(g, root, s, v);
    PopClosed(g, root, s, stack, v);
  }

  lemma PopBounds(g: Graph, s: Dfs, v: int)
    requires LowBounds(g, s.disc, s.low, s.parent, s.done)
    requires v in s.low && (v in s.parent ==> s.parent[v] in s.low)
    ensures LowBounds(g, s.disc, PopLow(s.low, s.parent, v), s.parent, s.done)
  {
    var low' := PopLow(s.low, s.parent, v);
    forall x, k | x in s.done && 0 <= k < s.done[x] && k < |g.Neighbors(x)| && g.Neighbors(x)[k] in g.nodes
      ensures LowBound(s.disc, low', s.parent, x, g.Neighbors(x)[k])
    {
      assert LowBound(s.disc, s.low, s.parent, x, g.Neighbors(x)[k]);
    }
  }

  lemma PopAttained(g: Graph, root: int, s: Dfs, v: int)
    requires Parents(g, root, s.disc, s.parent) && Ancestors(root, s.disc, s.parent, s.anc)
    requires LowAttained(g, s.disc, s.low, s.parent, s.anc)
    requires v in s.low && (v in s.parent ==> s.parent[v] in s.low)
    ensures LowAttained(g, s.disc, PopLow(s.low, s.parent, v), s.parent, s.anc)
  {
    if v in s.parent && s.low[v] < s.low[s.parent[v]] {
      var p := s.parent[v];
      assert s.low[v] < s.low[p] <= s.disc[p] < s.disc[v];
      var u, y :| Reaches(g, s.parent, s.anc, v, u, y) && y in s.disc && s.disc[y] == s.low[v];
      assert p in s.anc[u];
      assert Reaches(g, s.parent, s.anc, p, u, y);
      assert Attained(g, s.disc, s.parent, s.anc, p, s.low[v]);
    }
  }

  lemma PopClosed(g: Graph, root: int, s: Dfs, stack: seq<Frame>, v: int)
    requires Parents(g, root, s.disc, s.parent) && Stack(root, s.disc, s.parent, s.anc, stack)
        && Closed(s.low, s.parent, stack)
    requires |stack| > 0 && v == stack[|stack| - 1].node
    requires v in s.low && (v in s.parent ==> s.parent[v] in s.low)
    ensures Closed(PopLow(s.low, s.parent, v), s.parent, stack[..|stack| - 1])
  {
    var stack' := stack[..|stack| - 1];
    var low' := PopLow(s.low, s.parent, v);
    if v in s.parent {
      assert stack'[|stack| - 2].node == s.parent[v];
      assert OnStack(stack', s.parent[v]);
    }
    forall x | x in s.parent && x in low' && s.parent[x] in low' && !OnStack(stack', x)
      ensures low'[s.parent[x]] <= low'[x]
    {
      if OnStack(stack, x) { OnStackPop(stack, x); }
    }
  }
}
