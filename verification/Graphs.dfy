/** Undirected graphs given by adjacency lists, with walks, reachability and bridges.
    Nothing in this module knows about depth-first search. */
module Graphs {

  /** The allocated passive tree: node id to PoB type string, plus adjacency lists.
      A list may be missing, may repeat an id and may name ids that are not nodes. */
  datatype Graph = Graph(nodes: map<int, string>, adjacency: map<int, seq<int>>) {

    function Neighbors(v: int): seq<int> {
      if v in adjacency then adjacency[v] else []
    }

    predicate Edge(u: int, v: int) {
      u in nodes && v in nodes && v in Neighbors(u)
    }

    ghost predicate Symmetric() {
      forall u, v :: Edge(u, v) ==> Edge(v, u)
    }

    ghost predicate Walk(p: seq<int>) {
      && |p| > 0
      && (forall i | 0 <= i < |p| :: p[i] in nodes)
      && (forall i | 0 < i < |p| :: Edge(p[i - 1], p[i]))
    }

    ghost predicate WalkBetween(p: seq<int>, a: int, b: int) {
      Walk(p) && p[0] == a && p[|p| - 1] == b
    }

    ghost predicate Reachable(a: int, b: int) {
      exists p :: WalkBetween(p, a, b)
    }

    /** `b` can still be reached from `a` when every node of `removed` is taken out. */
    ghost predicate ReachableWithout(a: int, b: int, removed: set<int>) {
      exists p :: WalkBetween(p, a, b) && forall i | 0 <= i < |p| :: p[i] !in removed
    }

    /** No step of the walk crosses the undirected edge {a, b}. */
    ghost predicate Avoids(p: seq<int>, a: int, b: int) {
      forall i | 0 < i < |p| :: !(p[i - 1] == a && p[i] == b) && !(p[i - 1] == b && p[i] == a)
    }

    /** An edge whose removal disconnects its two ends. */
    ghost predicate Bridge(a: int, b: int) {
      Edge(a, b) && !exists p :: WalkBetween(p, a, b) && Avoids(p, a, b)
    }
  }

  lemma WalkJoin(g: Graph, p: seq<int>, q: seq<int>)
    requires g.Walk(p) && g.Walk(q) && g.Edge(p[|p| - 1], q[0])
    ensures g.WalkBetween(p + q, p[0], q[|q| - 1])
  {
  }

  lemma AvoidsJoin(g: Graph, p: seq<int>, q: seq<int>, a: int, b: int)
    requires |p| > 0 && |q| > 0 && g.Avoids(p, a, b) && g.Avoids(q, a, b)
    requires !(p[|p| - 1] == a && q[0] == b) && !(p[|p| - 1] == b && q[0] == a)
    ensures g.Avoids(p + q, a, b)
  {
  }
}
