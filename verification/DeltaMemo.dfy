/** The memo of per-node deltas: a table shared by two kinds of request, which must never show. */
module DeltaMemo {
  import opened Options
  import opened Sets

  type Delta = real
  type Deltas = map<int, map<string, Delta>>
  type Table = map<(string, int, string), Delta>

  /** Unallocated nodes are tried by adding them, allocated ones by removing them. */
  datatype Kind = Add | Remove

  datatype Lookup = Lookup(node: int, metric: string)

  /** The calculation: what adding or removing a node does to a metric of a build, if it reports one. */
  datatype Calc = Calc(delta: (Kind, string, int, string) -> Option<Delta>,
      branch: (string, seq<int>, seq<string>) -> map<string, Delta>)

  function Get(d: Deltas, n: int, m: string): Option<Delta> {
    if n in d && m in d[n] then Some(d[n][m]) else None
  }

  function Row(t: Table, build: string, n: int, m: string): Option<Delta> {
    if (build, n, m) in t then Some(t[(build, n, m)]) else None
  }

  function Or<T>(first: Option<T>, second: Option<T>): Option<T> {
    if first.Some? then first else second
  }

  // ---------------------------------------------------------------- the store

  ghost predicate PutEffect(t: Table, t': Table, build: string, deltas: Deltas) {
    forall b, n, m :: Row(t', b, n, m) == Or(if b == build then Get(deltas, n, m) else None, Row(t, b, n, m))
  }

  /** The rows asked for, and nothing else. */
  ghost predicate Hits(t: Table, build: string, lookups: seq<Lookup>, hits: Deltas) {
    forall n, m :: Get(hits, n, m) == if Lookup(n, m) in lookups then Row(t, build, n, m) else None
  }

  /** The lookups without a row, in the caller's order and with its repetitions. */
  function Misses(t: Table, build: string, lookups: seq<Lookup>): seq<Lookup> {
    if lookups == [] then []
    else
      var last := lookups[|lookups| - 1];
      Misses(t, build, lookups[..|lookups| - 1]) + if (build, last.node, last.metric) in t then [] else [last]
  }

  class DeltaStore {
    var table: Table

    constructor ()
      ensures table == map[]
    {
      table := map[];
    }

    /** All rows are written, or, when the transaction fails, none. */
    method PutDeltasBatch(build: string, deltas: Deltas, ok: bool) returns (done: bool)
      modifies this
      ensures done == (ok || deltas == map[])
      ensures if ok then PutEffect(old(table), table, build, deltas) else table == old(table)
    {
      if deltas == map[] {
        return true;
      }
      if !ok {
        return false;
      }
      var nodes := deltas.Keys;
      while nodes != {}
        invariant nodes <= deltas.Keys
        invariant PutEffect(old(table), table, build, deltas - nodes)
        decreases nodes
      {
        ghost var some := SomeElement(nodes);
        var n :| n in nodes;
        ghost var before := table;
        PutRow(build, n, deltas[n]);
        OneNode(old(table), before, table, build, deltas, nodes, n);
        nodes := nodes - {n};
      }
      assert deltas - nodes == deltas;
      return true;
    }

    method PutRow(build: string, n: int, byMetric: map<string, Delta>)
      modifies this
      ensures PutEffect(old(table), table, build, map[n := byMetric])
    {
      var metrics := byMetric.Keys;
      while metrics != {}
        invariant metrics <= byMetric.Keys
        invariant PutEffect(old(table), table, build, map[n := byMetric - metrics])
        decreases metrics
      {
        ghost var some := SomeElement(metrics);
        var m :| m in metrics;
        table := table[(build, n, m) := byMetric[m]];
        metrics := metrics - {m};
      }
      assert byMetric - metrics == byMetric;
    }

    method GetDeltasBatch(build: string, lookups: seq<Lookup>) returns (hits: Deltas, misses: seq<Lookup>)
      ensures Hits(table, build, lookups, hits) && misses == Misses(table, build, lookups)
    {
      hits, misses := map[], [];
      if |lookups| == 0 {
        return;
      }
      var want := set l | l in lookups;
      var found: set<Lookup> := {};
      while want != {}
        invariant want <= set l | l in lookups
        invariant forall l :: l in found <==> l in lookups && l !in want && (build, l.node, l.metric) in table
        invariant forall n, m :: Get(hits, n, m) == if Lookup(n, m) in found then Row(table, build, n, m) else None
        decreases want
      {
        ghost var some := SomeElement(want);
        var l :| l in want;
        want := want - {l};
        if (build, l.node, l.metric) in table {
          var byMetric := if l.node in hits then hits[l.node] else map[];
          hits := hits[l.node := byMetric[l.metric := table[(build, l.node, l.metric)]]];
          found := found + {l};
        }
      }
      for i := 0 to |lookups|
        invariant misses == Misses(table, build, lookups[..i])
      {
        assert lookups[..i + 1][..i] == lookups[..i];
        if lookups[i] !in found {
          misses := misses + [lookups[i]];
        }
      }
      assert lookups[..|lookups|] == lookups;
    }
  }

  lemma OneNode(t0: Table, t: Table, t': Table, build: string, deltas: Deltas, nodes: set<int>, n: int)
    requires n in nodes && nodes <= deltas.Keys
    requires PutEffect(t0, t, build, deltas - nodes) && PutEffect(t, t', build, map[n := deltas[n]])
    ensures PutEffect(t0, t', build, deltas - (nodes - {n}))
  {
    forall b, k, m ensures Row(t', b, k, m) == Or(if b == build then Get(deltas - (nodes - {n}), k, m) else None,
        Row(t0, b, k, m))
    {
      assert Row(t', b, k, m) == Or(if b == build then Get(map[n := deltas[n]], k, m) else None, Row(t, b, k, m));
      assert Row(t, b, k, m) == Or(if b == build then Get(deltas - nodes, k, m) else None, Row(t0, b, k, m));
    }
  }
}
