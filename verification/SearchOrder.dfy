/** In which order the search numbers the nodes: subtree after subtree, and the children of a node as they
    are found. */
module SearchOrder {
  import opened DfsTree
  import opened Graphs
  import opened SegmentTheory

  /** Whatever was numbered after an ancestor of `top`, or after `top`, is below it. */
  ghost predicate Latest(disc: map<int, nat>, anc: map<int, set<int>>, top: int) {
    forall x, c | Above(anc, x, top) && x in disc && c in disc && disc[x] < disc[c] :: Above(anc, x, c)
  }

  /** A node numbered after `x` but not below it is numbered after everything below `x`. */
  ghost predicate Spans(disc: map<int, nat>, anc: map<int, set<int>>) {
    forall x, c, d | x in disc && c in disc && d in disc
                     && Above(anc, x, d) && !Above(anc, x, c) && disc[x] < disc[c] ::
      disc[d] < disc[c]
  }

  ghost predicate Ascending(disc: map<int, nat>, kids: map<int, seq<int>>) {
    forall u, i, j | 0 <= i < j < |ChildrenOf(kids, u)| ::
      && ChildrenOf(kids, u)[i] in disc && ChildrenOf(kids, u)[j] in disc
      && disc[ChildrenOf(kids, u)[i]] < disc[ChildrenOf(kids, u)[j]]
  }

  ghost predicate InOrder(s: Dfs) {
    Spans(s.disc, s.anc) && Ascending(s.disc, s.kids)
  }

  ghost predicate Timely(s: Dfs, stack: seq<Frame>) {
    InOrder(s) && (|stack| > 0 ==> Latest(s.disc, s.anc, stack[|stack| - 1].node))
  }

  lemma InitTimely(root: int)
    ensures Timely(Init(root), [Frame(root, 0)])
  {
    forall u ensures |ChildrenOf(Init(root).kids, u)| == 0 {
    }
  }

  /** Handling an entry that leads nowhere new changes neither numbers nor ancestors. */
  lemma BackTimely(s: Dfs, stack: seq<Frame>, s': Dfs)
    requires Timely(s, stack) && |stack| > 0
    requires s'.disc == s.disc && s'.anc == s.anc && s'.kids == s.kids
    ensures Timely(s', Advance(stack))
  {
  }

  lemma PopTimely(g: Graph, root: int, s: Dfs, stack: seq<Frame>, s': Dfs)
    requires Timely(s, stack) && |stack| > 0 && Shape(g, root, s) && Stack(root, s.disc, s.parent, s.anc, stack)
    requires s'.disc == s.disc && s'.anc == s.anc && s'.kids == s.kids
    ensures Timely(s', stack[..|stack| - 1])
  {
    hide Spans, Ascending, Numbering, Children;
    if |stack| > 1 {
      var v, p := stack[|stack| - 1].node, stack[|stack| - 2].node;
      assert HasParent(s.parent, v, p);
      assert s.anc[v] == s.anc[p] + {v};
    }
  }

  lemma PushTimely(g: Graph, root: int, s: Dfs, stack: seq<Frame>, v: int, w: int, s': Dfs)
    requires Timely(s, stack) && |stack| > 0 && v == stack[|stack| - 1].node && Shape(g, root, s)
    requires v in s.anc && w !in s.disc
    requires v in s.done && s' == Handled(Push(s, v, w), v)
    ensures Timely(s', Advance(stack) + [Frame(w, 0)])
  {
    hide Spans, Ascending, Latest, Numbering, Children, Ancestors;
    Numbered(g, root, s);
    PushLatest(s.disc, s.anc, v, w, s.timer);
    PushSpans(s.disc, s.anc, v, w, s.timer);
    PushAscending(s.disc, s.kids, v, w, s.timer);
  }

  lemma Numbered(g: Graph, root: int, s: Dfs)
    requires Shape(g, root, s)
    ensures s.anc.Keys == s.disc.Keys && forall x | x in s.disc :: s.disc[x] < s.timer
    ensures forall x, a | Above(s.anc, a, x) :: a in s.disc
    ensures forall u, c | c in ChildrenOf(s.kids, u) :: c in s.disc
  {
  }

  lemma PushLatest(disc: map<int, nat>, anc: map<int, set<int>>, v: int, w: int, timer: nat)
    requires Latest(disc, anc, v) && v in anc && w !in disc && anc.Keys == disc.Keys
    requires forall x | x in disc :: disc[x] < timer
    ensures Latest(disc[w := timer], anc[w := anc[v] + {w}], w)
  {
    var disc', anc' := disc[w := timer], anc[w := anc[v] + {w}];
    forall x, c | Above(anc', x, w) && x in disc' && c in disc' && disc'[x] < disc'[c] ensures Above(anc', x, c) {
      assert x != w ==> Above(anc, x, v);
    }
  }

  lemma PushSpans(disc: map<int, nat>, anc: map<int, set<int>>, v: int, w: int, timer: nat)
    requires Spans(disc, anc) && Latest(disc, anc, v) && v in anc && w !in disc && anc.Keys == disc.Keys
    requires forall x | x in disc :: disc[x] < timer
    requires forall x, a | Above(anc, a, x) :: a in disc
    ensures Spans(disc[w := timer], anc[w := anc[v] + {w}])
  {
    var disc', anc' := disc[w := timer], anc[w := anc[v] + {w}];
    forall x, c, d | x in disc' && c in disc' && d in disc' && Above(anc', x, d) && disc'[x] < disc'[c]
                     && !Above(anc', x, c)
      ensures disc'[d] < disc'[c]
    {
      if c != w {
        assert x != w;
        assert d == w ==> Above(anc, x, v);
        assert Above(anc, x, c) ==> Above(anc', x, c);
      }
    }
  }

  lemma PushAscending(disc: map<int, nat>, kids: map<int, seq<int>>, v: int, w: int, timer: nat)
    requires Ascending(disc, kids) && w !in disc && forall x | x in disc :: disc[x] < timer
    requires forall u, c | c in ChildrenOf(kids, u) :: c in disc
    ensures Ascending(disc[w := timer], kids[v := ChildrenOf(kids, v) + [w]])
  {
    var disc', kids' := disc[w := timer], kids[v := ChildrenOf(kids, v) + [w]];
    assert ChildrenOf(kids', v) == ChildrenOf(kids, v) + [w];
    forall u, i, j | 0 <= i < j < |ChildrenOf(kids', u)|
      ensures ChildrenOf(kids', u)[i] in disc' && ChildrenOf(kids', u)[j] in disc'
      ensures disc'[ChildrenOf(kids', u)[i]] < disc'[ChildrenOf(kids', u)[j]]
    {
      assert u != v ==> ChildrenOf(kids', u) == ChildrenOf(kids, u);
      var a := ChildrenOf(kids, u)[i];
      assert a in ChildrenOf(kids, u) && a in disc;
      if u != v || j < |ChildrenOf(kids, v)| {
        var b := ChildrenOf(kids, u)[j];
        assert b in disc && disc[a] < disc[b];
      }
    }
    assert Ascending(disc', kids');
  }

  // ---------------------------------------------------------------- one node before another

  /** Above it, or in a part of the tree found later. */
  predicate Before(disc: map<int, nat>, anc: map<int, set<int>>, x: int, y: int) {
    x in disc && y in disc && (Above(anc, x, y) || (!Above(anc, y, x) && disc[x] > disc[y]))
  }

  /** What is below a later child comes before what is below an earlier one. */
  lemma LaterChildFirst(g: Graph, root: int, s: Dfs, early: int, late: int, x: int, y: int)
    requires Shape(g, root, s) && InOrder(s)
    requires early in s.disc && late in s.disc && s.disc[early] < s.disc[late] && !Above(s.anc, early, late)
    requires Above(s.anc, late, x) && Above(s.anc, early, y)
    ensures Before(s.disc, s.anc, x, y)
  {
    hide Numbering, Children, Parents, Ascending;
    Numbered(g, root, s);
    assert x in s.disc && y in s.disc;
    assert s.disc[late] <= s.disc[x];
    if Above(s.anc, y, x) {
      Chain(g, root, s, y, late, x);
      if Above(s.anc, y, late) { AboveTrans(g, root, s, early, y, late); }
    }
  }
}
