/** The requests that use the delta memo, two that add nodes and one that removes them, and why using it
    changes no answer. */
module DeltaRequests {
  import opened DeltaMemo
  import opened NearbyFilter
  import opened Options
  import opened Sets

  /** What the surroundings do to one request: whether there is a store, and which of its accesses and of
      the messages to the calculation succeed. */
  datatype Env = Env(storeOn: bool, readOk: bool, sendOk: bool, writeOk: bool)

  /** `branches` are node lists removed together; their deltas are not memoised. */
  datatype Request = Request(kind: Kind, build: string, ids: seq<int>, stats: seq<string>, branches: seq<seq<int>>,
      env: Env)

  datatype Response = Failed | Answered(deltas: Deltas, branchDeltas: seq<map<string, Delta>>)

  // ---------------------------------------------------------------- specification

  predicate Usable(q: Request) {
    q.env.storeOn && q.env.readOk && q.build != "" && q.ids != [] && q.stats != []
  }

  predicate AllCached(t: Table, build: string, n: int, stats: seq<string>) {
    forall m | m in stats :: (build, n, m) in t
  }

  function Uncached(t: Table, build: string, ids: seq<int>, stats: seq<string>): (r: seq<int>)
    ensures forall n :: n in r <==> n in ids && !AllCached(t, build, n, stats)
  {
    if ids == [] then []
    else
      var last := ids[|ids| - 1];
      Uncached(t, build, ids[..|ids| - 1], stats) + if AllCached(t, build, last, stats) then [] else [last]
  }

  /** The nodes that are calculated. */
  function Sent(t: Table, q: Request): seq<int> {
    if Usable(q) then Uncached(t, q.build, q.ids, q.stats) else q.ids
  }

  /** What the calculation answers. */
  function Reply(c: Calc, kind: Kind, build: string, ids: seq<int>, stats: seq<string>): Deltas {
    map n | n in ids :: map m | m in stats && c.delta(kind, build, n, m).Some? :: c.delta(kind, build, n, m).value
  }

  function BranchReplies(c: Calc, build: string, branches: seq<seq<int>>, stats: seq<string>): seq<map<string, Delta>> {
    seq(|branches|, i requires 0 <= i < |branches| => c.branch(build, branches[i], stats))
  }

  function Fresh(c: Calc, t: Table, q: Request, n: int, m: string): Option<Delta> {
    if n in Sent(t, q) && m in q.stats then c.delta(q.kind, q.build, n, m) else None
  }

  function Cached(t: Table, q: Request, n: int, m: string): Option<Delta> {
    if Usable(q) && n in q.ids && m in q.stats then Row(t, q.build, n, m) else None
  }

  /** Adding requests skip the message when every node is memoised; removing requests only when there is
      nothing to do. */
  predicate MustSend(t: Table, q: Request) {
    if q.kind.Add? then Sent(t, q) != [] else q.branches != [] || q.ids != []
  }

  /** What a request answers, by the table `t` that it reads. */
  ghost predicate Answers(c: Calc, t: Table, q: Request, r: Response) {
    if MustSend(t, q) && !q.env.sendOk then r.Failed?
    else
      && r.Answered?
      && (forall n, m :: Get(r.deltas, n, m) == Or(Fresh(c, t, q, n, m), Cached(t, q, n, m)))
      && r.branchDeltas == (if q.kind.Add? then [] else BranchReplies(c, q.build, q.branches, q.stats))
  }

  predicate Remembers(q: Request) {
    q.env.storeOn && q.env.writeOk && q.build != ""
  }

  /** What an answered request writes: `seen` is the table it read, `t` the one it finds when it writes. */
  ghost predicate Writes(c: Calc, seen: Table, t: Table, t': Table, q: Request) {
    forall b, n, m ::
      Row(t', b, n, m) == Or(if Remembers(q) && b == q.build then Fresh(c, seen, q, n, m) else None, Row(t, b, n, m))
  }

  /** One request on its own. */
  ghost predicate Serves(c: Calc, t: Table, t': Table, q: Request, r: Response) {
    Answers(c, t, q, r) && if r.Failed? then t' == t else Writes(c, t, t, t', q)
  }

  // ---------------------------------------------------------------- the program

  /** Fresh values win. */
  method MergeDeltaMaps(cached: Deltas, computed: Deltas) returns (out: Deltas)
    ensures forall n, m :: Get(out, n, m) == Or(Get(computed, n, m), Get(cached, n, m))
  {
    out := map[];
    var nodes := cached.Keys;
    while nodes != {}
      invariant nodes <= cached.Keys && out == cached - nodes
      decreases nodes
    {
      ghost var some := SomeElement(nodes);
      var n :| n in nodes;
      nodes := nodes - {n};
      out := out[n := cached[n]];
    }
    nodes := computed.Keys;
    while nodes != {}
      invariant nodes <= computed.Keys
      invariant forall n, m :: Get(out, n, m) == Or(Get(computed - nodes, n, m), Get(cached, n, m))
      decreases nodes
    {
      ghost var some := SomeElement(nodes);
      var n :| n in nodes;
      nodes := nodes - {n};
      out := out[n := (if n in out then out[n] else map[]) + computed[n]];
    }
    assert computed - nodes == computed;
  }

  /** Every node with every metric. */
  method Lookups(ids: seq<int>, stats: seq<string>) returns (lookups: seq<Lookup>)
    ensures forall l :: l in lookups <==> l.node in ids && l.metric in stats
  {
    lookups := [];
    for i := 0 to |ids|
      invariant forall l :: l in lookups <==> l.node in ids[..i] && l.metric in stats
    {
      for j := 0 to |stats|
        invariant forall l :: l in lookups <==>
            (l.node in ids[..i] && l.metric in stats)
            || (l.node == ids[i] && l.metric in stats[..j])
      {
        lookups := lookups + [Lookup(ids[i], stats[j])];
      }
      assert stats[..|stats|] == stats;
    }
    assert ids[..|ids|] == ids;
  }

  method FullyCached(cached: Deltas, n: int, stats: seq<string>) returns (full: bool)
    ensures full <==> forall m | m in stats :: Get(cached, n, m).Some?
  {
    for j := 0 to |stats|
      invariant forall m | m in stats[..j] :: Get(cached, n, m).Some?
    {
      if n !in cached || stats[j] !in cached[n] {
        assert stats[j] in stats && Get(cached, n, stats[j]).None?;
        return false;
      }
    }
    assert stats[..|stats|] == stats;
    return true;
  }

  lemma NotUsable(t: Table, q: Request)
    ensures !Usable(q) ==> forall n, m :: Cached(t, q, n, m) == None
  {
  }

  lemma HitMeansCached(t: Table, q: Request, lookups: seq<Lookup>, cached: Deltas, n: int)
    requires Hits(t, q.build, lookups, cached) && n in q.ids
    requires forall l :: l in lookups <==> l.node in q.ids && l.metric in q.stats
    ensures AllCached(t, q.build, n, q.stats) <==> forall m | m in q.stats :: Get(cached, n, m).Some?
  {
    forall m | m in q.stats ensures Get(cached, n, m).Some? <==> (q.build, n, m) in t {
      assert Lookup(n, m) in lookups;
    }
  }

  lemma UncachedNone(t: Table, build: string, stats: seq<string>)
    ensures Uncached(t, build, [], stats) == []
  {
  }

  lemma UncachedStep(t: Table, build: string, ids: seq<int>, i: nat, stats: seq<string>)
    requires i < |ids|
    ensures Uncached(t, build, ids[..i + 1], stats) == Uncached(t, build, ids[..i], stats)
        + if AllCached(t, build, ids[i], stats) then [] else [ids[i]]
  {
    assert ids[..i + 1][..i] == ids[..i];
  }

  lemma CachedIsHits(t: Table, q: Request, lookups: seq<Lookup>, cached: Deltas)
    requires Usable(q) && Hits(t, q.build, lookups, cached)
    requires forall l :: l in lookups <==> l.node in q.ids && l.metric in q.stats
    ensures forall n, m :: Get(cached, n, m) == Cached(t, q, n, m)
  {
  }

  class Server {
    const engine: Calc
    const store: DeltaStore

    constructor (c: Calc, s: DeltaStore)
      ensures engine == c && store == s
    {
      engine, store := c, s;
    }

    /** The memoised part of the answer, and the nodes with a metric missing. */
    method SplitByCache(q: Request) returns (cached: Deltas, perturb: seq<int>)
      ensures perturb == Sent(store.table, q)
      ensures forall n, m :: Get(cached, n, m) == Cached(store.table, q, n, m)
    {
      hide AllCached, Uncached, Hits, Cached;
      cached, perturb := map[], q.ids;
      NotUsable(store.table, q);
      if !q.env.storeOn || q.build == "" || |q.ids| == 0 || |q.stats| == 0 {
        return;
      }
      var lookups := Lookups(q.ids, q.stats);
      if !q.env.readOk {
        return;
      }
      var misses;
      cached, misses := store.GetDeltasBatch(q.build, lookups);
      perturb := [];
      UncachedNone(store.table, q.build, q.stats);
      for i := 0 to |q.ids|
        invariant perturb == Uncached(store.table, q.build, q.ids[..i], q.stats)
      {
        var full := FullyCached(cached, q.ids[i], q.stats);
        HitMeansCached(store.table, q, lookups, cached, q.ids[i]);
        UncachedStep(store.table, q.build, q.ids, i, q.stats);
        if !full {
          perturb := perturb + [q.ids[i]];
        }
      }
      assert q.ids[..|q.ids|] == q.ids;
      CachedIsHits(store.table, q, lookups, cached);
    }

    method Remember(q: Request, computed: Deltas)
      modifies store
      ensures if Remembers(q) then PutEffect(old(store.table), store.table, q.build, computed)
              else store.table == old(store.table)
    {
      if q.env.storeOn && q.build != "" && computed != map[] {
        var done := store.PutDeltasBatch(q.build, computed, q.env.writeOk);
      }
    }

    /** The memo is asked first, what it lacks is calculated and remembered. */
    method Perturb(q: Request) returns (r: Response)
      requires q.kind.Add?
      modifies store
      ensures Serves(engine, old(store.table), store.table, q, r)
    {
      hide Reply, Cached, Usable, PutEffect;
      var cached, perturb := SplitByCache(q);
      var computed: Deltas := map[];
      NothingPut(store.table, q.build);
      if |perturb| > 0 {
        if !q.env.sendOk {
          return Failed;
        }
        computed := Reply(engine, q.kind, q.build, perturb, q.stats);
        Remember(q, computed);
      }
      FreshIs(engine, old(store.table), q, perturb, computed);
      StoredRows(old(store.table), store.table, q, computed);
      var merged := MergeDeltaMaps(cached, computed);
      return Answered(merged, []);
    }

    method RunNearbyPerturb(build: string, candidates: seq<Candidate>, index: Index, stats: seq<string>, env: Env)
      returns (r: Response)
      modifies store
      ensures Serves(engine, old(store.table), store.table,
          AddRequest(build, Affecting(candidates, index, stats), stats, env), r)
    {
      hide Serves;
      if |candidates| == 0 {
        NothingServed(engine, store.table, build, stats, env);
        return Answered(map[], []);
      }
      var passing := FilterByModIndex(candidates, index, stats);
      if |passing| == 0 {
        NothingServed(engine, store.table, build, stats, env);
        return Answered(map[], []);
      }
      var ids := [];
      for i := 0 to |passing|
        invariant ids == IdsOf(passing[..i]) && store.table == old(store.table)
      {
        assert passing[..i + 1][..i] == passing[..i];
        ids := ids + [passing[i].id];
      }
      assert passing[..|passing|] == passing;
      r := Perturb(Request(Add, build, ids, stats, [], env));
    }

    method RunAuditPerturb(q: Request) returns (r: Response)
      requires q.kind.Remove?
      modifies store
      ensures Serves(engine, old(store.table), store.table, q, r)
    {
      hide Reply, Cached, Usable, PutEffect;
      if |q.branches| == 0 && |q.ids| == 0 {
        NothingAsked(store.table, q);
        return Answered(map[], []);
      }
      var cached, perturb := SplitByCache(q);
      if !q.env.sendOk {
        return Failed;
      }
      var branchDeltas := BranchReplies(engine, q.build, q.branches, q.stats);
      var computed := Reply(engine, q.kind, q.build, perturb, q.stats);
      Remember(q, computed);
      FreshIs(engine, old(store.table), q, perturb, computed);
      StoredRows(old(store.table), store.table, q, computed);
      var merged := MergeDeltaMaps(cached, computed);
      return Answered(merged, branchDeltas);
    }
  }

  lemma NothingAsked(t: Table, q: Request)
    requires q.ids == []
    ensures Sent(t, q) == [] && forall n, m :: Cached(t, q, n, m) == None
  {
  }

  function AddRequest(build: string, passing: seq<Candidate>, stats: seq<string>, env: Env): Request {
    Request(Add, build, IdsOf(passing), stats, [], env)
  }

  lemma NothingServed(c: Calc, t: Table, build: string, stats: seq<string>, env: Env)
    ensures Serves(c, t, t, AddRequest(build, [], stats, env), Answered(map[], []))
  {
    NothingAsked(t, AddRequest(build, [], stats, env));
  }

  lemma NothingPut(t: Table, build: string)
    ensures PutEffect(t, t, build, map[])
  {
  }

  lemma FreshIs(c: Calc, t: Table, q: Request, perturb: seq<int>, computed: Deltas)
    requires perturb == Sent(t, q)
    requires computed == Reply(c, q.kind, q.build, perturb, q.stats) || (perturb == [] && computed == map[])
    ensures forall n, m :: Get(computed, n, m) == Fresh(c, t, q, n, m)
  {
  }

  lemma StoredRows(t: Table, t': Table, q: Request, computed: Deltas)
    requires if Remembers(q) then PutEffect(t, t', q.build, computed) else t' == t
    ensures forall b, n, m :: Row(t', b, n, m)
              == Or(if Remembers(q) && b == q.build then Get(computed, n, m) else None, Row(t, b, n, m))
  {
  }

  // ---------------------------------------------------------------- the memo never shows

  /** Which kind of delta a node of a build has: removal for allocated nodes, addition for the others. */
  function KindOf(alloc: string -> set<int>, build: string, n: int): Kind {
    if n in alloc(build) then Remove else Add
  }

  /** Adding requests ask about unallocated candidates, removing requests about allocated leaves. */
  predicate Proper(alloc: string -> set<int>, q: Request) {
    forall n | n in q.ids :: KindOf(alloc, q.build, n) == q.kind
  }

  /** Every row is the delta that its node's kind has. */
  ghost predicate Sound(c: Calc, alloc: string -> set<int>, t: Table) {
    forall b, n, m :: Row(t, b, n, m).Some? ==> Row(t, b, n, m) == c.delta(KindOf(alloc, b, n), b, n, m)
  }

  /** The full recomputation: every node asked for, every metric asked for. */
  function Recomputed(c: Calc, q: Request, n: int, m: string): Option<Delta> {
    if n in q.ids && m in q.stats then c.delta(q.kind, q.build, n, m) else None
  }

  /** A true table gives true answers. */
  lemma AnswerTrue(c: Calc, alloc: string -> set<int>, t: Table, q: Request, r: Response)
    requires Sound(c, alloc, t) && Proper(alloc, q) && Answers(c, t, q, r) && r.Answered?
    ensures forall n, m :: Get(r.deltas, n, m) == Recomputed(c, q, n, m)
  {
    hide Or, Sent;
    forall n, m ensures Get(r.deltas, n, m) == Recomputed(c, q, n, m) {
      OneAnswer(c, alloc, t, q, n, m);
    }
  }

  /** What is written is true, whatever the others wrote in the meantime. */
  lemma WriteSound(c: Calc, alloc: string -> set<int>, seen: Table, t: Table, t': Table, q: Request)
    requires Sound(c, alloc, t) && Proper(alloc, q) && Writes(c, seen, t, t', q)
    ensures Sound(c, alloc, t')
  {
    hide Or, Sent;
    forall b, n, m | Row(t', b, n, m).Some? ensures Row(t', b, n, m) == c.delta(KindOf(alloc, b, n), b, n, m) {
      OneRow(c, alloc, seen, t, q, b, n, m);
    }
  }

  lemma StepSound(c: Calc, alloc: string -> set<int>, t: Table, t': Table, q: Request, r: Response)
    requires Sound(c, alloc, t) && Proper(alloc, q) && Serves(c, t, t', q, r)
    ensures Sound(c, alloc, t')
    ensures r.Answered? ==> forall n, m :: Get(r.deltas, n, m) == Recomputed(c, q, n, m)
  {
    hide Sound, Proper, Answers, Writes;
    if r.Answered? {
      AnswerTrue(c, alloc, t, q, r);
      WriteSound(c, alloc, t, t, t', q);
    }
  }

  lemma SentFacts(t: Table, q: Request)
    ensures forall n | n in Sent(t, q) :: n in q.ids
    ensures forall n, m | n in q.ids && n !in Sent(t, q) && m in q.stats :: Usable(q) && Row(t, q.build, n, m).Some?
  {
  }

  lemma OneAnswer(c: Calc, alloc: string -> set<int>, t: Table, q: Request, n: int, m: string)
    requires Sound(c, alloc, t) && Proper(alloc, q)
    ensures Or(Fresh(c, t, q, n, m), Cached(t, q, n, m)) == Recomputed(c, q, n, m)
  {
    SentFacts(t, q);
    assert n in q.ids ==> KindOf(alloc, q.build, n) == q.kind;
    assert Row(t, q.build, n, m).Some? ==> Row(t, q.build, n, m) == c.delta(KindOf(alloc, q.build, n), q.build, n, m);
  }

  lemma OneRow(c: Calc, alloc: string -> set<int>, seen: Table, t: Table, q: Request, b: string, n: int, m: string)
    requires Sound(c, alloc, t) && Proper(alloc, q)
    requires Or(if Remembers(q) && b == q.build then Fresh(c, seen, q, n, m) else None, Row(t, b, n, m)).Some?
    ensures Or(if Remembers(q) && b == q.build then Fresh(c, seen, q, n, m) else None, Row(t, b, n, m))
            == c.delta(KindOf(alloc, b, n), b, n, m)
  {
    SentFacts(seen, q);
    assert n in q.ids ==> KindOf(alloc, q.build, n) == q.kind;
    assert Row(t, b, n, m).Some? ==> Row(t, b, n, m) == c.delta(KindOf(alloc, b, n), b, n, m);
  }

  /** With the store working, an answered request leaves every delta it reported in the table, and no row
      that it did not ask about is touched. */
  lemma Remembered(c: Calc, alloc: string -> set<int>, t: Table, t': Table, q: Request, r: Response)
    requires Sound(c, alloc, t) && Proper(alloc, q) && Serves(c, t, t', q, r) && r.Answered?
    requires q.env.storeOn && q.env.writeOk && q.build != ""
    ensures forall n, m | n in q.ids && m in q.stats && c.delta(q.kind, q.build, n, m).Some? ::
              Row(t', q.build, n, m) == c.delta(q.kind, q.build, n, m)
    ensures forall b, n, m | !(b == q.build && n in q.ids && m in q.stats) :: Row(t', b, n, m) == Row(t, b, n, m)
  {
    hide Sent, Get;
    SentFacts(t, q);
    forall n, m | n in q.ids && m in q.stats && c.delta(q.kind, q.build, n, m).Some?
      ensures Row(t', q.build, n, m) == c.delta(q.kind, q.build, n, m)
    {
      OneRow(c, alloc, t, t, q, q.build, n, m);
      assert KindOf(alloc, q.build, n) == q.kind;
    }
  }

  /** So an adding request that asks for nothing new is answered without the calculation, even when no
      message gets through. */
  lemma RepeatIsFree(c: Calc, alloc: string -> set<int>, t: Table, t': Table, q: Request, r: Response, t'': Table,
                     again: Request, r': Response)
    requires Sound(c, alloc, t) && Proper(alloc, q) && Serves(c, t, t', q, r) && r.Answered?
    requires q.env.storeOn && q.env.writeOk && q.build != "" && q.kind.Add?
    requires forall n, m | n in q.ids && m in q.stats :: c.delta(Add, q.build, n, m).Some?
    requires again.kind == Add && again.build == q.build && again.env.storeOn && again.env.readOk
    requires (forall n | n in again.ids :: n in q.ids) && (forall m | m in again.stats :: m in q.stats)
    requires again.stats != [] && Serves(c, t', t'', again, r')
    ensures r'.Answered?
  {
    hide Serves, Sound, Proper;
    Remembered(c, alloc, t, t', q, r);
    forall n | n in again.ids ensures AllCached(t', again.build, n, again.stats) {
      forall m | m in again.stats ensures (again.build, n, m) in t' {
        assert Row(t', q.build, n, m).Some?;
      }
    }
    NothingSent(t', again);
    AnsweredWithout(c, t', t'', again, r');
  }

  lemma NothingSent(t: Table, q: Request)
    requires q.env.storeOn && q.env.readOk && q.build != "" && q.stats != []
    requires forall n | n in q.ids :: AllCached(t, q.build, n, q.stats)
    ensures Sent(t, q) == []
  {
    hide AllCached;
    NoneUncached(t, q.build, q.ids, q.stats);
  }

  lemma {:induction false} NoneUncached(t: Table, build: string, ids: seq<int>, stats: seq<string>)
    requires forall n | n in ids :: AllCached(t, build, n, stats)
    ensures Uncached(t, build, ids, stats) == []
  {
    hide AllCached;
    if ids != [] {
      assert ids[|ids| - 1] in ids;
      NoneUncached(t, build, ids[..|ids| - 1], stats);
    }
  }

  lemma AnsweredWithout(c: Calc, t: Table, t': Table, q: Request, r: Response)
    requires q.kind.Add? && Sent(t, q) == [] && Serves(c, t, t', q, r)
    ensures r.Answered?
  {
    hide Sent, Fresh, Cached, Get;
  }

  // ---------------------------------------------------------------- requests served side by side

  /** A request reads the table in one query and later writes it in one transaction. */
  datatype Access = Read(request: nat) | Write(request: nat)

  ghost predicate Accessed(c: Calc, tables: seq<Table>, accesses: seq<Access>, qs: seq<Request>, rs: seq<Response>,
                           i: nat)
    requires i < |accesses| < |tables|
  {
    var k := accesses[i].request;
    && k < |qs| && k < |rs|
    && match accesses[i]
       case Read(_) => tables[i + 1] == tables[i] && Answers(c, tables[i], qs[k], rs[k])
       case Write(_) =>
         && rs[k].Answered?
         && exists j :: 0 <= j < i && accesses[j] == Read(k) && Writes(c, tables[j], tables[i], tables[i + 1], qs[k])
  }

  /** Each request reads at most once and writes at most once, after it has read. Between the two, others may
      read and write as they like; some may never get to write. */
  ghost predicate Run(c: Calc, tables: seq<Table>, accesses: seq<Access>, qs: seq<Request>, rs: seq<Response>) {
    && |tables| == |accesses| + 1 && tables[0] == map[] && |rs| == |qs|
    && (forall i, j | 0 <= i < j < |accesses| :: accesses[i] != accesses[j])
    && forall i | 0 <= i < |accesses| :: Accessed(c, tables, accesses, qs, rs, i)
  }

  lemma {:induction false} RunSound(c: Calc, alloc: string -> set<int>, tables: seq<Table>, accesses: seq<Access>,
                                    qs: seq<Request>, rs: seq<Response>, i: nat)
    requires Run(c, tables, accesses, qs, rs) && i <= |accesses|
    requires forall j | 0 <= j < |qs| :: Proper(alloc, qs[j])
    ensures Sound(c, alloc, tables[i])
  {
    hide Answers, Writes, Sound, Proper;
    if i == 0 {
      EmptySound(c, alloc);
    } else {
      RunSound(c, alloc, tables, accesses, qs, rs, i - 1);
      assert Accessed(c, tables, accesses, qs, rs, i - 1);
      if accesses[i - 1].Write? {
        var k := accesses[i - 1].request;
        var j :| 0 <= j < i - 1 && accesses[j] == Read(k) && Writes(c, tables[j], tables[i - 1], tables[i], qs[k]);
        WriteSound(c, alloc, tables[j], tables[i - 1], tables[i], qs[k]);
      }
    }
  }

  lemma EmptySound(c: Calc, alloc: string -> set<int>)
    ensures Sound(c, alloc, map[])
  {
  }

  /** Over any interleaving of both kinds of request, over any builds and with any failures, whatever was
      memoised, each answer is the full recomputation. */
  lemma Invisible(c: Calc, alloc: string -> set<int>, tables: seq<Table>, accesses: seq<Access>, qs: seq<Request>,
                  rs: seq<Response>, k: nat)
    requires Run(c, tables, accesses, qs, rs) && Read(k) in accesses && k < |qs| && rs[k].Answered?
    requires forall j | 0 <= j < |qs| :: Proper(alloc, qs[j])
    ensures forall n, m :: Get(rs[k].deltas, n, m) == Recomputed(c, qs[k], n, m)
  {
    hide Answers, Sound, Proper;
    var i :| 0 <= i < |accesses| && accesses[i] == Read(k);
    assert Accessed(c, tables, accesses, qs, rs, i);
    RunSound(c, alloc, tables, accesses, qs, rs, i);
    AnswerTrue(c, alloc, tables[i], qs[k], rs[k]);
  }

  /** The two kinds could not share the table if they could ask about the same node of one build: the
      second would be given the first one's delta. */
  lemma SharedKeyLeaks(c: Calc, t: Table, t1: Table, t2: Table, first: Request, second: Request, r1: Response,
                       r2: Response,
                       n: int, m: string)
    requires Serves(c, t, t1, first, r1) && r1.Answered? && Serves(c, t1, t2, second, r2) && r2.Answered?
    requires first.build == second.build != "" && first.kind != second.kind
    requires Remembers(first) && second.env.storeOn && second.env.readOk
    requires n in Sent(t, first) && m in first.stats && c.delta(first.kind, first.build, n, m).Some?
    requires second.ids == [n] && second.stats == [m]
    ensures Get(r2.deltas, n, m) == c.delta(first.kind, first.build, n, m)
  {
    assert Row(t1, first.build, n, m) == Fresh(c, t, first, n, m);
    assert AllCached(t1, second.build, n, second.stats);
    assert Fresh(c, t1, second, n, m) == None;
  }

  // ---------------------------------------------------------------- branch deltas by position

  /** Tree branches first, then ascendancy branches. */
  function BuildBranchRemoves(tree: seq<seq<int>>, asc: seq<seq<int>>): seq<seq<int>> {
    tree + asc
  }

  function Padded(all: seq<map<string, Delta>>, n: nat): seq<map<string, Delta>> {
    if |all| < n then all + seq(n - |all|, _ => map[]) else all
  }

  function SplitBranchDeltas(all: seq<map<string, Delta>>, treeLen: nat, ascLen: nat): (seq<map<string, Delta>>,
      seq<map<string, Delta>>)
  {
    var full := Padded(all, treeLen + ascLen);
    (full[..treeLen], full[treeLen..treeLen + ascLen])
  }

  /** Each scope gets back the deltas of its own branches, in its own order; where the calculation reported
      too few, the missing ones are empty, and nothing moves from one scope to the other. */
  lemma BranchDeltasAligned(c: Calc, build: string, tree: seq<seq<int>>, asc: seq<seq<int>>, stats: seq<string>,
      reported: nat)
    requires reported <= |tree| + |asc|
    ensures var all := BranchReplies(c, build, BuildBranchRemoves(tree, asc), stats);
            var (t, a) := SplitBranchDeltas(all[..reported], |tree|, |asc|);
            && |t| == |tree| && |a| == |asc|
            && (forall i | 0 <= i < |tree| :: t[i] == if i < reported then c.branch(build, tree[i], stats) else map[])
            && (forall i | 0 <= i < |asc| :: a[i] == if |tree| + i < reported then c.branch(build, asc[i], stats)
                else map[])
  {
    var all := BranchReplies(c, build, BuildBranchRemoves(tree, asc), stats);
    forall i | 0 <= i < |asc| && |tree| + i < reported ensures all[|tree| + i] == c.branch(build, asc[i], stats) {
      assert BuildBranchRemoves(tree, asc)[|tree| + i] == asc[i];
    }
  }
}
