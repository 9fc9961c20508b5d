/** Where the requests to the delta memo come from: nearby searches and power reports filter the candidates
    of an extract, audits segment the allocated graph. That they never ask for the same node of one build
    both ways is a result, and with it the memo never shows. */
module MemoOrigins {
  import opened Arithmetic
  import opened Branches
  import opened DeltaMemo
  import opened DeltaRequests
  import DfsTree
  import opened Graphs
  import opened LeafBudget
  import opened NearbyFilter
  import opened Options
  import Segmentation
  import SegmentProperties
  import SegmentTheory

  /** One scope of an audit extract: the allocated nodes with their edges, and the root. */
  datatype Scope = Scope(nodes: map<int, string>, adjacency: map<int, seq<int>>, root: int) {
    function AsGraph(): Graph {
      Graph(nodes, adjacency)
    }
  }

  /** What an audit makes of one scope: the branches to evaluate and the leaves to try on their own. */
  datatype Plan = Plan(selected: seq<Branch>, leaves: seq<int>)

  /** What a request was made from. */
  datatype Origin =
    | FromCandidates(candidates: seq<Candidate>, radius: int, categories: set<string>, index: Index)
    | FromTree(tree: Option<Scope>, ascendancy: Option<Scope>, branchLimit: int, nodeLimit: int, treePlan: Plan,
        ascPlan: Plan)

  // ---------------------------------------------------------------- what the extracts tell

  /** The extract says of each candidate whether the build has it allocated. */
  ghost predicate CandidatesTrue(alloc: string -> set<int>, build: string, cs: seq<Candidate>) {
    forall c | c in cs :: c.alloc <==> c.id in alloc(build)
  }

  /** The graph of an audit extract holds allocated nodes only, and its edges both ways. */
  ghost predicate ScopeTrue(alloc: string -> set<int>, build: string, scope: Option<Scope>) {
    scope.Some? ==> scope.value.nodes.Keys <= alloc(build) && scope.value.AsGraph().Symmetric()
  }

  // ---------------------------------------------------------------- what the program makes of them

  ghost predicate ScopeBranches(scope: Option<Scope>, branches: seq<Branch>) {
    if scope.None? || scope.value.root !in scope.value.nodes then branches == []
    else exists s :: SegmentProperties.Segmented(scope.value.AsGraph(), scope.value.root, s, branches)
  }

  /** The largest branches of the scope, and their leaves in turn up to the limit. */
  ghost predicate Planned(scope: Option<Scope>, branchLimit: int, nodeLimit: int, plan: Plan) {
    && (exists branches :: ScopeBranches(scope, branches) && IsSelection(branches, branchLimit, plan.selected))
    && |plan.leaves| == Min(if nodeLimit < 0 then 0 else nodeLimit, Total(plan.selected))
    && exists r, k :: InTurn(plan, r, k)
  }

  ghost predicate InTurn(plan: Plan, r: nat, k: nat) {
    k <= |plan.selected| && plan.leaves == Rounds(plan.selected, r) + Turn(plan.selected, r, k)
  }

  function NodesOf(bs: seq<Branch>): seq<seq<int>> {
    seq(|bs|, i requires 0 <= i < |bs| => bs[i].nodes)
  }

  function AuditRequest(build: string, treePlan: Plan, ascPlan: Plan, stats: seq<string>, env: Env): Request {
    Request(Remove, build, treePlan.leaves + ascPlan.leaves, stats,
            BuildBranchRemoves(NodesOf(treePlan.selected), NodesOf(ascPlan.selected)), env)
  }

  /** The request is the one that the program makes of this origin. */
  ghost predicate Made(alloc: string -> set<int>, o: Origin, q: Request) {
    match o
    case FromCandidates(candidates, radius, categories, index) =>
      && CandidatesTrue(alloc, q.build, candidates)
      && q == AddRequest(q.build, Affecting(Passing(candidates, radius, categories), index, q.stats), q.stats, q.env)
    case FromTree(tree, ascendancy, branchLimit, nodeLimit, treePlan, ascPlan) =>
      && ScopeTrue(alloc, q.build, tree) && ScopeTrue(alloc, q.build, ascendancy)
      && Planned(tree, branchLimit, nodeLimit, treePlan) && Planned(ascendancy, branchLimit, nodeLimit, ascPlan)
      && q == AuditRequest(q.build, treePlan, ascPlan, q.stats, q.env)
  }

  // ---------------------------------------------------------------- the two kinds of key

  /** Every leaf tried on its own is a node of the scope's graph, and so allocated. */
  lemma LeavesAllocated(alloc: string -> set<int>, build: string, scope: Option<Scope>, branchLimit: int,
                        nodeLimit: int, plan: Plan, n: int)
    requires ScopeTrue(alloc, build, scope) && Planned(scope, branchLimit, nodeLimit, plan) && n in plan.leaves
    ensures n in alloc(build)
  {
    hide SegmentProperties.Segmented, Graph.Symmetric, Rounds, Turn, IsSelection, Total;
    var r: nat, k: nat :| InTurn(plan, r, k);
    GatheredIsLeaf(plan.selected, r, k, n);
    var b :| b in plan.selected && n in b.leaves;
    var branches :| ScopeBranches(scope, branches) && IsSelection(branches, branchLimit, plan.selected);
    SelectedAmong(branches, branchLimit, plan.selected);
    assert b in branches;
    var s :| SegmentProperties.Segmented(scope.value.AsGraph(), scope.value.root, s, branches);
    SegmentProperties.LeafInGraph(scope.value.AsGraph(), scope.value.root, s, branches, b, n);
  }

  /** Adding requests ask about unallocated nodes, removing requests about allocated ones. */
  lemma MadeProper(alloc: string -> set<int>, o: Origin, q: Request)
    requires Made(alloc, o, q)
    ensures Proper(alloc, q)
  {
    hide ScopeTrue, Planned;
    match o
    case FromCandidates(candidates, radius, categories, index) =>
      forall n | n in q.ids ensures KindOf(alloc, q.build, n) == q.kind {
        var c :| c in Affecting(Passing(candidates, radius, categories), index, q.stats) && c.id == n;
        assert c in Passing(candidates, radius, categories);
      }
    case FromTree(tree, ascendancy, branchLimit, nodeLimit, treePlan, ascPlan) =>
      forall n | n in q.ids ensures KindOf(alloc, q.build, n) == q.kind {
        if n in treePlan.leaves {
          LeavesAllocated(alloc, q.build, tree, branchLimit, nodeLimit, treePlan, n);
        } else {
          LeavesAllocated(alloc, q.build, ascendancy, branchLimit, nodeLimit, ascPlan, n);
        }
      }
  }

  /** So one table can serve both: no node of a build is asked for in both ways. */
  lemma KeysDisjoint(alloc: string -> set<int>, o1: Origin, q1: Request, o2: Origin, q2: Request)
    requires Made(alloc, o1, q1) && Made(alloc, o2, q2) && q1.build == q2.build && q1.kind != q2.kind
    ensures forall n | n in q1.ids :: n !in q2.ids
  {
    hide Made;
    MadeProper(alloc, o1, q1);
    MadeProper(alloc, o2, q2);
    forall n | n in q1.ids ensures n !in q2.ids {
      assert KindOf(alloc, q1.build, n) == q1.kind;
    }
  }

  /** Over any interleaving of requests as the program makes them, over any builds and with any failures,
      whatever was memoised, each answer is the full recomputation. */
  lemma MemoInvisible(c: Calc, alloc: string -> set<int>, tables: seq<Table>, accesses: seq<Access>,
                      origins: seq<Origin>, qs: seq<Request>, rs: seq<Response>, k: nat)
    requires Run(c, tables, accesses, qs, rs) && |origins| == |qs| && Read(k) in accesses && k < |qs| && rs[k].Answered?
    requires forall j | 0 <= j < |qs| :: Made(alloc, origins[j], qs[j])
    ensures forall n, m :: Get(rs[k].deltas, n, m) == Recomputed(c, qs[k], n, m)
  {
    hide Run, Made, Proper;
    forall j | 0 <= j < |qs| ensures Proper(alloc, qs[j]) {
      MadeProper(alloc, origins[j], qs[j]);
    }
    Invisible(c, alloc, tables, accesses, qs, rs, k);
  }

  // ---------------------------------------------------------------- what is answered

  /** Not allocated and within reach, of a category asked for, with a mod key, outside the ascendancies, and
      not known to leave the leading metric alone. */
  predicate WorthTrying(x: Candidate, radius: int, categories: set<string>, index: Index, stats: seq<string>)
    requires stats != []
  {
    && !x.alloc && x.pathDist.Some? && x.path.Some? && x.pathDist.value <= radius
    && x.kind in categories && x.modKey != "" && x.ascendancy == ""
    && (index.None? || index.value(x, stats[0]))
  }

  /** A power report or nearby search: exactly the candidates worth trying have deltas, all that the
      calculation reports, and they are those of adding the node. */
  ghost predicate CandidatesAnswered(c: Calc, build: string, candidates: seq<Candidate>, radius: int,
                                     categories: set<string>, index: Index, stats: seq<string>, r: Response)
    requires r.Answered?
  {
    && r.branchDeltas == []
    && forall n, m ::
      Get(r.deltas, n, m) ==
      if m in stats && exists x :: x in candidates && x.id == n && WorthTrying(x, radius, categories, index, stats)
      then c.delta(Add, build, n, m) else None
  }

  /** An audit: exactly the leaves of the two plans have deltas, all that the calculation reports, and they are
      those of removing the node; and each branch selected has the delta of removing its nodes together,
      those of the tree before those of the ascendancy, each scope in its own order. */
  ghost predicate AuditAnswered(c: Calc, build: string, tree: Plan, ascendancy: Plan, stats: seq<string>, r: Response)
    requires r.Answered?
  {
    && (forall n, m ::
      Get(r.deltas, n, m) ==
      if m in stats && (n in tree.leaves || n in ascendancy.leaves) then c.delta(Remove, build, n, m) else None)
    && |r.branchDeltas| == |tree.selected| + |ascendancy.selected|
    && (forall i | 0 <= i < |tree.selected| :: r.branchDeltas[i] == c.branch(build, tree.selected[i].nodes, stats))
    && (forall i | 0 <= i < |ascendancy.selected| ::
      r.branchDeltas[|tree.selected| + i] == c.branch(build, ascendancy.selected[i].nodes, stats))
  }

  lemma CandidatesAnswer(c: Calc, alloc: string -> set<int>, t: Table, o: Origin, q: Request, r: Response)
    requires Sound(c, alloc, t) && Made(alloc, o, q) && o.FromCandidates? && Answers(c, t, q, r) && r.Answered?
    ensures CandidatesAnswered(c, q.build, o.candidates, o.radius, o.categories, o.index, q.stats, r)
  {
    hide Sound, Proper, Sent, Fresh, Cached;
    MadeProper(alloc, o, q);
    AnswerTrue(c, alloc, t, q, r);
    var passing := Passing(o.candidates, o.radius, o.categories);
    forall n | q.stats != []
      ensures n in q.ids <==>
              exists x :: x in o.candidates && x.id == n && WorthTrying(x, o.radius, o.categories, o.index, q.stats)
    {
      CandidateIds(o.candidates, o.radius, o.categories, o.index, q.stats, n);
    }
  }

  lemma CandidateIds(cs: seq<Candidate>, radius: int, categories: set<string>, index: Index, stats: seq<string>, n: int)
    requires stats != []
    ensures n in IdsOf(Affecting(Passing(cs, radius, categories), index, stats)) <==>
            exists x :: x in cs && x.id == n && WorthTrying(x, radius, categories, index, stats)
  {
  }

  lemma AuditAsks(build: string, tree: Plan, ascendancy: Plan, stats: seq<string>, env: Env)
    ensures var q := AuditRequest(build, tree, ascendancy, stats, env);
            && (forall n :: n in q.ids <==> n in tree.leaves || n in ascendancy.leaves)
            && |q.branches| == |tree.selected| + |ascendancy.selected|
            && (forall i | 0 <= i < |tree.selected| :: q.branches[i] == tree.selected[i].nodes)
            && (forall i | 0 <= i < |ascendancy.selected| ::
                  q.branches[|tree.selected| + i] == ascendancy.selected[i].nodes)
            && q.kind == Remove && q.build == build && q.stats == stats
  {
  }

  lemma AuditAnswer(c: Calc, alloc: string -> set<int>, t: Table, o: Origin, q: Request, r: Response)
    requires Sound(c, alloc, t) && Made(alloc, o, q) && o.FromTree? && Answers(c, t, q, r) && r.Answered?
    ensures AuditAnswered(c, q.build, o.treePlan, o.ascPlan, q.stats, r)
  {
    hide Sound, Proper, Sent, Fresh, Cached, ScopeTrue, Planned, AuditRequest, Get;
    MadeProper(alloc, o, q);
    AnswerTrue(c, alloc, t, q, r);
    AuditAsks(q.build, o.treePlan, o.ascPlan, q.stats, q.env);
  }

  /** Split where the tree's branches end, the deltas are each scope's own. */
  lemma AuditSplit(c: Calc, build: string, tree: Plan, ascendancy: Plan, stats: seq<string>, r: Response)
    requires r.Answered? && AuditAnswered(c, build, tree, ascendancy, stats, r)
    ensures var (t, a) := SplitBranchDeltas(r.branchDeltas, |tree.selected|, |ascendancy.selected|);
            && |t| == |tree.selected| && |a| == |ascendancy.selected|
            && (forall i | 0 <= i < |t| :: t[i] == c.branch(build, tree.selected[i].nodes, stats))
            && (forall i | 0 <= i < |a| :: a[i] == c.branch(build, ascendancy.selected[i].nodes, stats))
  {
  }

  /** An audit fails exactly when there is something to remove and the calculation cannot be reached. */
  lemma AuditFails(c: Calc, alloc: string -> set<int>, t: Table, o: Origin, q: Request, r: Response)
    requires Made(alloc, o, q) && o.FromTree? && Answers(c, t, q, r)
    ensures r.Failed? <==>
            !q.env.sendOk && (o.treePlan.selected != [] || o.ascPlan.selected != []
                              || o.treePlan.leaves != [] || o.ascPlan.leaves != [])
  {
    hide Sent, Fresh, Cached, ScopeTrue, Planned;
    var branches := BuildBranchRemoves(NodesOf(o.treePlan.selected), NodesOf(o.ascPlan.selected));
    assert |branches| == |o.treePlan.selected| + |o.ascPlan.selected|;
    assert |q.ids| == |o.treePlan.leaves| + |o.ascPlan.leaves|;
  }

  /** In every interleaving every answer is the right one, whatever was memoised. */
  lemma AnswersInRun(c: Calc, alloc: string -> set<int>, tables: seq<Table>, accesses: seq<Access>,
                     origins: seq<Origin>, qs: seq<Request>, rs: seq<Response>, k: nat)
    requires Run(c, tables, accesses, qs, rs) && |origins| == |qs| && Read(k) in accesses && k < |qs| && rs[k].Answered?
    requires forall j | 0 <= j < |qs| :: Made(alloc, origins[j], qs[j])
    ensures var o, q := origins[k], qs[k];
            match o
            case FromCandidates(candidates, radius, categories, index) =>
              CandidatesAnswered(c, q.build, candidates, radius, categories, index, q.stats, rs[k])
            case FromTree(_, _, _, _, treePlan, ascPlan) =>
              AuditAnswered(c, q.build, treePlan, ascPlan, q.stats, rs[k])
  {
    hide Made, Proper, Sound, Answers, CandidatesAnswered, AuditAnswered;
    forall j | 0 <= j < |qs| ensures Proper(alloc, qs[j]) {
      MadeProper(alloc, origins[j], qs[j]);
    }
    var i :| 0 <= i < |accesses| && accesses[i] == Read(k);
    assert Accessed(c, tables, accesses, qs, rs, i);
    RunSound(c, alloc, tables, accesses, qs, rs, i);
    if origins[k].FromCandidates? {
      CandidatesAnswer(c, alloc, tables[i], origins[k], qs[k], rs[k]);
    } else {
      AuditAnswer(c, alloc, tables[i], origins[k], qs[k], rs[k]);
    }
  }

  // ---------------------------------------------------------------- the program makes these requests

  method ServeCandidates(srv: Server, ghost alloc: string -> set<int>, build: string, candidates: seq<Candidate>,
                         radius: int, categories: set<string>, index: Index, stats: seq<string>, env: Env)
    returns (r: Response, ghost o: Origin, ghost q: Request)
    requires CandidatesTrue(alloc, build, candidates)
    modifies srv.store
    ensures o == FromCandidates(candidates, radius, categories, index)
    ensures Made(alloc, o, q) && q.build == build && q.stats == stats && q.env == env
    ensures Serves(srv.engine, old(srv.store.table), srv.store.table, q, r)
    ensures Sound(srv.engine, alloc, old(srv.store.table)) && r.Answered? ==>
        CandidatesAnswered(srv.engine, build, candidates, radius, categories, index, stats, r)
  {
    hide Answers, Writes, Sound, CandidatesAnswered;
    var passing := PassingCandidates(candidates, radius, categories);
    r := srv.RunNearbyPerturb(build, passing, index, stats, env);
    o := FromCandidates(candidates, radius, categories, index);
    q := AddRequest(build, Affecting(passing, index, stats), stats, env);
    if Sound(srv.engine, alloc, old(srv.store.table)) && r.Answered? {
      CandidatesAnswer(srv.engine, alloc, old(srv.store.table), o, q, r);
    }
  }

  method PlanScope(scope: Option<Scope>, branchLimit: int, nodeLimit: int) returns (plan: Plan)
    requires scope.Some? ==> scope.value.AsGraph().Symmetric()
    ensures Planned(scope, branchLimit, nodeLimit, plan)
  {
    hide IsSelection, Graph.Symmetric, SegmentTheory.Complete, Segmentation.Ranked, Segmentation.IsSegmentation,
      SegmentProperties.Segmented, DistinctIds, Rounds, Turn, Recorded, Total;
    var branches: seq<Branch> := [];
    ghost var s := DfsTree.Init(0);
    if scope.Some? {
      branches, s := Segmentation.SegmentGraph(scope.value.nodes, scope.value.adjacency, scope.value.root);
      if scope.value.root in scope.value.nodes {
        IsSegmented(scope.value.AsGraph(), scope.value.root, s, branches);
      }
    }
    var selected := SelectBranchesToEvaluate(branches, branchLimit);
    HeadsDiffer(scope, branches);
    SelectedDistinct(branches, branchLimit, selected);
    var byBranch, leaves, r, k := GatherLeaves(selected, nodeLimit);
    plan := Plan(selected, leaves);
    assert InTurn(plan, r, k);
  }

  method ServeAudit(srv: Server, ghost alloc: string -> set<int>, build: string, tree: Option<Scope>,
                    ascendancy: Option<Scope>, branchLimit: int, nodeLimit: int, stats: seq<string>, env: Env)
    returns (r: Response, ghost o: Origin, ghost q: Request)
    requires ScopeTrue(alloc, build, tree) && ScopeTrue(alloc, build, ascendancy)
    modifies srv.store
    ensures o.FromTree? && o.tree == tree && o.ascendancy == ascendancy
    ensures o.branchLimit == branchLimit && o.nodeLimit == nodeLimit
    ensures Made(alloc, o, q) && q.build == build && q.stats == stats && q.env == env
    ensures Serves(srv.engine, old(srv.store.table), srv.store.table, q, r)
    ensures Sound(srv.engine, alloc, old(srv.store.table)) && r.Answered? ==>
        AuditAnswered(srv.engine, build, o.treePlan, o.ascPlan, stats, r)
  {
    hide Answers, Writes, Sound, AuditAnswered, Planned, Graph.Symmetric;
    var treePlan := PlanScope(tree, branchLimit, nodeLimit);
    var ascPlan := PlanScope(ascendancy, branchLimit, nodeLimit);
    var request := AuditRequest(build, treePlan, ascPlan, stats, env);
    r := srv.RunAuditPerturb(request);
    o := FromTree(tree, ascendancy, branchLimit, nodeLimit, treePlan, ascPlan);
    q := request;
    if Sound(srv.engine, alloc, old(srv.store.table)) && r.Answered? {
      AuditAnswer(srv.engine, alloc, old(srv.store.table), o, q, r);
    }
  }

  // ---------------------------------------------------------------- support for the methods above

  lemma IsSegmented(g: Graph, root: int, s: DfsTree.Dfs, branches: seq<Branch>)
    requires SegmentTheory.Complete(g, root, s) && Segmentation.Ranked(s.disc, s.kids, s.timer)
    requires Segmentation.IsSegmentation(g, root, s, branches)
    ensures SegmentProperties.Segmented(g, root, s, branches)
  {
    hide SegmentTheory.Complete, Segmentation.Ranked, Segmentation.IsSegmentation;
  }

  lemma HeadsDiffer(scope: Option<Scope>, branches: seq<Branch>)
    requires ScopeBranches(scope, branches)
    ensures forall i, j | 0 <= i < j < |branches| :: branches[i].head != branches[j].head
  {
    hide SegmentProperties.Segmented;
    if branches != [] {
      var s :| SegmentProperties.Segmented(scope.value.AsGraph(), scope.value.root, s, branches);
      SegmentProperties.HeadsAscend(scope.value.AsGraph(), scope.value.root, s, branches);
    }
  }
}
