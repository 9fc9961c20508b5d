/** Comparing the allocated nodes of the builds of one request, some of which may have failed. */
module TreeDiff {
  import opened Options
  import opened Sets
  import opened Sorting

  datatype Node = Node(id: int, name: string)

  /** One build of the request; `nodes` is missing when the response carried no tree. */
  datatype Entry = Entry(error: string, nodes: Option<seq<Node>>)

  datatype Diff = Diff(allocatedOnlyIn: seq<seq<Node>>, common: seq<Node>)

  function Successful(entries: seq<Entry>): seq<Entry> {
    if entries == [] then []
    else Successful(entries[..|entries| - 1]) + if entries[|entries| - 1].error == "" then [entries[|entries| - 1]]
        else []
  }

  function Ids(e: Entry): set<int> {
    if e.nodes.None? then {} else set n | n in e.nodes.value :: n.id
  }

  predicate ById(a: Node, b: Node) {
    a.id < b.id
  }

  // ---------------------------------------------------------------- what the diff is

  /** The entry is a success and no other success has the node. */
  ghost predicate OnlyHere(entries: seq<Entry>, i: nat, id: int) {
    forall j | 0 <= j < |entries| && j != i && entries[j].error == "" :: id !in Ids(entries[j])
  }

  ghost predicate Everywhere(entries: seq<Entry>, id: int) {
    forall j | 0 <= j < |entries| && entries[j].error == "" :: id in Ids(entries[j])
  }

  ghost predicate IsSlot(entries: seq<Entry>, i: nat, only: seq<Node>)
    requires i < |entries|
  {
    if entries[i].error != "" || entries[i].nodes.None? then only == []
    else Sorted(ById, only) && forall n :: multiset(only)[n] == if OnlyHere(entries, i, n.id)
        then multiset(entries[i].nodes.value)[n] else 0
  }

  ghost predicate IsCommon(entries: seq<Entry>, common: seq<Node>)
    requires Successful(entries) != [] && Successful(entries)[0].nodes.Some?
  {
    && (forall a, b | 0 <= a < b < |common| :: common[a].id < common[b].id)
    && (forall id :: Everywhere(entries, id) <==> exists n :: n in common && n.id == id)
    && (forall n | n in common :: n in Successful(entries)[0].nodes.value)
  }

  // ---------------------------------------------------------------- positions among the successes

  lemma {:induction false} PrefixOfSuccesses(entries: seq<Entry>, i: nat)
    requires i <= |entries|
    ensures Successful(entries[..i]) <= Successful(entries)
  {
    if i < |entries| {
      var init := entries[..|entries| - 1];
      PrefixOfSuccesses(init, i);
      assert init[..i] == entries[..i];
    } else {
      assert entries[..i] == entries;
    }
  }

  /** The counter that the loop over all entries keeps is the entry's place among the successes. */
  lemma AtPlace(entries: seq<Entry>, i: nat)
    requires i < |entries| && entries[i].error == ""
    ensures |Successful(entries[..i])| < |Successful(entries)|
        && Successful(entries)[|Successful(entries[..i])|] == entries[i]
  {
    PrefixOfSuccesses(entries, i + 1);
    assert entries[..i + 1][..i] == entries[..i];
    var p := |Successful(entries[..i])|;
    assert Successful(entries[..i + 1])[p] == entries[i];
  }

  lemma PlacesGrow(entries: seq<Entry>, i: nat, j: nat)
    requires i < j <= |entries| && entries[i].error == ""
    ensures |Successful(entries[..i])| < |Successful(entries[..j])|
  {
    var upTo := entries[..j];
    assert upTo[..i] == entries[..i];
    AtPlace(upTo, i);
  }

  lemma {:induction false} EveryPlace(entries: seq<Entry>, p: nat) returns (i: nat)
    requires p < |Successful(entries)|
    ensures i < |entries| && entries[i].error == "" && |Successful(entries[..i])| == p
  {
    var init := entries[..|entries| - 1];
    if p < |Successful(init)| {
      i := EveryPlace(init, p);
      assert init[..i] == entries[..i];
    } else {
      i := |entries| - 1;
    }
  }

  /** Looking at the other successes is looking at the other successful entries. */
  lemma OthersAreOthers(entries: seq<Entry>, i: nat, id: int)
    requires i < |entries| && entries[i].error == ""
    ensures OnlyHere(entries, i, id) <==>
              forall p | 0 <= p < |Successful(entries)| && p != |Successful(entries[..i])| ::
                  id !in Ids(Successful(entries)[p])
  {
    hide Successful, Ids;
    var at := |Successful(entries[..i])|;
    forall p | 0 <= p < |Successful(entries)| && p != at
      ensures exists j :: 0 <= j < |entries| && j != i && entries[j].error == "" && entries[j] == Successful(entries)[p]
    {
      var j := EveryPlace(entries, p);
      AtPlace(entries, j);
    }
    forall j | 0 <= j < |entries| && j != i && entries[j].error == ""
      ensures exists p :: 0 <= p < |Successful(entries)| && p != at && Successful(entries)[p] == entries[j]
    {
      AtPlace(entries, j);
      if i < j { PlacesGrow(entries, i, j); } else { PlacesGrow(entries, j, i); }
    }
  }

  lemma EverywhereIsAll(entries: seq<Entry>, id: int)
    ensures Everywhere(entries, id) <==> forall p | 0 <= p < |Successful(entries)| :: id in Ids(Successful(entries)[p])
  {
    hide Successful, Ids;
    forall p | 0 <= p < |Successful(entries)|
      ensures exists j :: 0 <= j < |entries| && entries[j].error == "" && entries[j] == Successful(entries)[p]
    {
      var j := EveryPlace(entries, p);
      AtPlace(entries, j);
    }
    forall j | 0 <= j < |entries| && entries[j].error == ""
      ensures exists p :: 0 <= p < |Successful(entries)| && Successful(entries)[p] == entries[j]
    {
      AtPlace(entries, j);
    }
  }

  // ---------------------------------------------------------------- the program

  method BuildAllocatedNodeSets(successful: seq<Entry>) returns (sets: seq<set<int>>)
    requires forall e | e in successful :: e.nodes.Some?
    ensures |sets| == |successful| && forall i | 0 <= i < |sets| :: sets[i] == Ids(successful[i])
  {
    sets := [];
    for i := 0 to |successful|
      invariant |sets| == i && forall k | 0 <= k < i :: sets[k] == Ids(successful[k])
    {
      var nodes, ids := successful[i].nodes.value, {};
      for j := 0 to |nodes|
        invariant ids == set n | n in nodes[..j] :: n.id
      {
        assert nodes[..j + 1] == nodes[..j] + [nodes[j]];
        ids := ids + {nodes[j].id};
      }
      assert nodes[..|nodes|] == nodes;
      sets := sets + [ids];
    }
  }

  ghost predicate AllHave(sets: seq<set<int>>, id: int) {
    forall p | 0 <= p < |sets| :: id in sets[p]
  }

  method PresentInAll(id: int, rest: seq<set<int>>) returns (all: bool)
    ensures all <==> AllHave(rest, id)
  {
    for p := 0 to |rest|
      invariant forall q | 0 <= q < p :: id in rest[q]
    {
      if id !in rest[p] {
        return false;
      }
    }
    return true;
  }

  method UniqueToBuild(id: int, idx: nat, sets: seq<set<int>>) returns (unique: bool)
    ensures unique <==> forall p | 0 <= p < |sets| && p != idx :: id !in sets[p]
  {
    for p := 0 to |sets|
      invariant forall q | 0 <= q < p && q != idx :: id !in sets[q]
    {
      if p == idx {
        continue;
      }
      if id in sets[p] {
        return false;
      }
    }
    return true;
  }

  method NamesOf(nodes: seq<Node>) returns (nameByID: map<int, string>)
    ensures forall n | n in nodes :: n.id in nameByID
    ensures forall id | id in nameByID :: Node(id, nameByID[id]) in nodes
  {
    nameByID := map[];
    for j := 0 to |nodes|
      invariant forall n | n in nodes[..j] :: n.id in nameByID
      invariant forall id | id in nameByID :: Node(id, nameByID[id]) in nodes
    {
      nameByID := nameByID[nodes[j].id := nodes[j].name];
    }
    assert nodes[..|nodes|] == nodes;
  }

  method CommonAllocatedNodes(successful: seq<Entry>, sets: seq<set<int>>) returns (common: seq<Node>)
    requires successful != [] && |sets| == |successful| && forall i | 0 <= i < |sets| :: sets[i] == Ids(successful[i])
    requires successful[0].nodes.Some?
    ensures forall a, b | 0 <= a < b < |common| :: common[a].id < common[b].id
    ensures forall id :: AllHave(sets, id) <==> exists n :: n in common && n.id == id
    ensures forall n | n in common :: n in successful[0].nodes.value
  {
    hide AllHave, Sorted, Ids;
    var nameByID := NamesOf(successful[0].nodes.value);
    FirstSet(successful[0], sets);
    var found: set<Node> := {};
    common := [];
    var todo := sets[0];
    while todo != {}
      invariant todo <= sets[0]
      invariant multiset(common) == multiset(found)
      invariant forall n | n in found ::
          n.id !in todo && n.id in nameByID && n.name == nameByID[n.id]
          && AllHave(sets, n.id)
      invariant forall id | id in sets[0] && id !in todo && AllHave(sets, id) :: Node(id, nameByID[id]) in found
      decreases todo
    {
      ghost var some := SomeElement(todo);
      var id :| id in todo;
      todo := todo - {id};
      var all := PresentInAll(id, sets[1..]);
      InFirst(sets, id);
      if all {
        var n := Node(id, nameByID[id]);
        assert multiset(found + {n}) == multiset(found) + multiset{n};
        common := common + [n];
        found := found + {n};
      }
    }
    ByIdCompares();
    SortSorts(ById, common);
    common := Sort(ById, common);
    OnePerId(common, found, nameByID);
    forall id ensures AllHave(sets, id) <==> exists n :: n in common && n.id == id {
      NeedsFirst(sets, id);
      assert AllHave(sets, id) ==> Node(id, nameByID[id]) in common;
    }
  }

  lemma ByIdCompares()
    ensures Comparison(ById)
  {
  }

  lemma FirstSet(e: Entry, sets: seq<set<int>>)
    requires e.nodes.Some? && sets != [] && sets[0] == Ids(e)
    ensures forall id | id in sets[0] :: exists n :: n in e.nodes.value && n.id == id
  {
  }

  lemma InFirst(sets: seq<set<int>>, id: int)
    requires sets != [] && id in sets[0]
    ensures AllHave(sets, id) <==> AllHave(sets[1..], id)
  {
    assert forall p | 0 < p < |sets| :: sets[p] == sets[1..][p - 1];
  }

  lemma NeedsFirst(sets: seq<set<int>>, id: int)
    requires sets != []
    ensures AllHave(sets, id) ==> id in sets[0]
  {
  }

  lemma OnePerId(s: seq<Node>, found: set<Node>, nameByID: map<int, string>)
    requires Sorted(ById, s) && multiset(s) == multiset(found)
    requires forall n | n in found :: n.id in nameByID && n.name == nameByID[n.id]
    ensures forall a, b | 0 <= a < b < |s| :: s[a].id < s[b].id
    ensures forall n :: n in s <==> n in found
  {
    forall n ensures n in s <==> n in found {
      assert n in s <==> n in multiset(s);
    }
    forall i, j | 0 <= i < j < |s| ensures s[i].id < s[j].id {
      assert s == s[..j] + [s[j]] + s[j + 1..];
      assert multiset(s) == multiset(s[..j]) + multiset{s[j]} + multiset(s[j + 1..]);
      assert s[i] == s[..j][i] && s[i] in multiset(s[..j]);
      assert multiset(s)[s[j]] <= 1;
      assert s[i] in s && s[j] in s;
    }
  }

  method OnlyNodes(nodes: seq<Node>, idx: nat, sets: seq<set<int>>) returns (only: seq<Node>)
    ensures Sorted(ById, only)
    ensures forall n :: multiset(only)[n] == if forall p | 0 <= p < |sets| && p != idx :: n.id !in sets[p]
        then multiset(nodes)[n] else 0
  {
    only := [];
    for j := 0 to |nodes|
      invariant forall n :: multiset(only)[n] == if forall p | 0 <= p < |sets| && p != idx :: n.id !in sets[p]
          then multiset(nodes[..j])[n] else 0
    {
      assert nodes[..j + 1] == nodes[..j] + [nodes[j]];
      var unique := UniqueToBuild(nodes[j].id, idx, sets);
      if unique {
        only := only + [nodes[j]];
      }
    }
    assert nodes[..|nodes|] == nodes;
    SortSorts(ById, only);
    only := Sort(ById, only);
  }

  method UniqueAllocatedNodesPerBuild(entries: seq<Entry>, sets: seq<set<int>>) returns (out: seq<seq<Node>>)
    requires |sets| == |Successful(entries)| && forall p | 0 <= p < |sets| :: sets[p] == Ids(Successful(entries)[p])
    ensures |out| == |entries| && forall i | 0 <= i < |out| :: IsSlot(entries, i, out[i])
  {
    hide Ids, Successful, OnlyHere;
    out := [];
    var sIdx := 0;
    NoPlaces(entries);
    for i := 0 to |entries|
      invariant |out| == i && forall k | 0 <= k < i :: IsSlot(entries, k, out[k])
      invariant sIdx == |Successful(entries[..i])|
    {
      NextPlace(entries, i);
      if entries[i].error != "" {
        out := out + [[]];
        continue;
      }
      forall id ensures OnlyHere(entries, i, id) <==> forall p | 0 <= p < |sets| && p != sIdx :: id !in sets[p] {
        OthersAreOthers(entries, i, id);
      }
      var only := [];
      if entries[i].nodes.Some? {
        only := OnlyNodes(entries[i].nodes.value, sIdx, sets);
      }
      out := out + [only];
      sIdx := sIdx + 1;
    }
  }

  lemma NoPlaces(entries: seq<Entry>)
    ensures |Successful(entries[..0])| == 0
  {
  }

  lemma NextPlace(entries: seq<Entry>, i: nat)
    requires i < |entries|
    ensures |Successful(entries[..i + 1])| == |Successful(entries[..i])| + if entries[i].error == "" then 1 else 0
  {
    assert entries[..i + 1][..i] == entries[..i];
  }

  /** Nothing is reported when fewer than two builds succeeded or one of them came without a tree. */
  method ComputeTreeDiff(entries: seq<Entry>, successful: seq<Entry>) returns (r: Option<Diff>)
    requires successful == Successful(entries)
    ensures r.None? <==> |successful| < 2 || exists e :: e in successful && e.nodes.None?
    ensures r.Some? ==> IsCommon(entries, r.value.common)
    ensures r.Some? ==> |r.value.allocatedOnlyIn| == |entries|
                        && forall i | 0 <= i < |entries| :: IsSlot(entries, i, r.value.allocatedOnlyIn[i])
  {
    hide Ids, Successful, Everywhere, IsSlot;
    if |successful| < 2 {
      return None;
    }
    for i := 0 to |successful|
      invariant forall k | 0 <= k < i :: successful[k].nodes.Some?
    {
      if successful[i].nodes.None? {
        return None;
      }
    }
    var sets := BuildAllocatedNodeSets(successful);
    var common := CommonAllocatedNodes(successful, sets);
    forall id ensures Everywhere(entries, id) <==> AllHave(sets, id) {
      EverywhereIsAll(entries, id);
    }
    var allocatedOnlyIn := UniqueAllocatedNodesPerBuild(entries, sets);
    return Some(Diff(allocatedOnlyIn, common));
  }

  /** Lists of different builds share no node, and no list has a common node. */
  lemma ListsDisjoint(entries: seq<Entry>, d: Diff, i: nat, j: nat, n: Node, m: Node)
    requires Successful(entries) != [] && Successful(entries)[0].nodes.Some? && IsCommon(entries, d.common)
    requires |d.allocatedOnlyIn| == |entries| && forall i | 0 <= i < |entries| ::
        IsSlot(entries, i, d.allocatedOnlyIn[i])
    requires i < |entries| && j < |entries| && i != j && entries[j].error == ""
    requires n in d.allocatedOnlyIn[i] && (m in d.allocatedOnlyIn[j] || m in d.common)
    ensures n.id != m.id
  {
    assert n in multiset(d.allocatedOnlyIn[i]);
    assert OnlyHere(entries, i, n.id);
    if m in d.common {
      assert Everywhere(entries, m.id);
    } else {
      assert m in multiset(d.allocatedOnlyIn[j]);
      assert m in entries[j].nodes.value;
    }
  }

  /** Whether an entry's tree has a node of this id. */
  ghost predicate HasId(e: Entry, id: int) {
    e.nodes.Some? && exists n :: n in e.nodes.value && n.id == id
  }

  /** A build's list in terms of the entries: exactly its nodes that no other success has, each as often as the
      build lists it and by ascending id. A failed build has an empty list. */
  lemma SlotMeans(entries: seq<Entry>, i: nat, only: seq<Node>)
    requires i < |entries| && IsSlot(entries, i, only)
    ensures entries[i].error != "" ==> only == []
    ensures entries[i].error == "" && entries[i].nodes.Some? ==> forall n ::
              multiset(only)[n] ==
              if (forall j | 0 <= j < |entries| && j != i && entries[j].error == "" :: !HasId(entries[j], n.id))
              then multiset(entries[i].nodes.value)[n] else 0
    ensures forall a, b | 0 <= a < b < |only| :: only[a].id <= only[b].id
  {
    hide Ids, HasId;
    forall e: Entry, id ensures id in Ids(e) <==> HasId(e, id) {
      IdsAre(e, id);
    }
    forall n: Node
      ensures OnlyHere(entries, i, n.id)
              <==> forall j | 0 <= j < |entries| && j != i && entries[j].error == "" :: !HasId(entries[j], n.id)
    {
    }
  }

  ghost predicate EverySuccessHas(entries: seq<Entry>, id: int) {
    forall j | 0 <= j < |entries| && entries[j].error == "" :: HasId(entries[j], id)
  }

  ghost predicate Lists(ns: seq<Node>, id: int) {
    exists n :: n in ns && n.id == id
  }

  /** The common list: the ids that every success has, once each and ascending, named as in the first success,
      entry `k`. */
  lemma CommonMeans(entries: seq<Entry>, common: seq<Node>) returns (k: nat)
    requires Successful(entries) != [] && Successful(entries)[0].nodes.Some? && IsCommon(entries, common)
    ensures forall id :: Lists(common, id) <==> EverySuccessHas(entries, id)
    ensures forall a, b | 0 <= a < b < |common| :: common[a].id < common[b].id
    ensures k < |entries| && entries[k].error == "" && entries[k].nodes.Some?
    ensures forall j | 0 <= j < k :: entries[j].error != ""
    ensures forall n | n in common :: n in entries[k].nodes.value
  {
    hide Ids, HasId, Successful;
    forall id ensures Lists(common, id) <==> EverySuccessHas(entries, id) {
      forall e: Entry ensures id in Ids(e) <==> HasId(e, id) {
        IdsAre(e, id);
      }
      assert Everywhere(entries, id) <==> EverySuccessHas(entries, id);
    }
    k := FirstSuccess(entries);
  }

  lemma {:induction false} FirstSuccess(entries: seq<Entry>) returns (k: nat)
    requires Successful(entries) != []
    ensures k < |entries| && entries[k].error == "" && Successful(entries)[0] == entries[k]
    ensures forall j | 0 <= j < k :: entries[j].error != ""
  {
    var init := entries[..|entries| - 1];
    if Successful(init) != [] {
      k := FirstSuccess(init);
    } else {
      k := |entries| - 1;
      NoSuccess(init);
    }
  }

  lemma {:induction false} NoSuccess(entries: seq<Entry>)
    requires Successful(entries) == []
    ensures forall j | 0 <= j < |entries| :: entries[j].error != ""
  {
    if entries != [] { NoSuccess(entries[..|entries| - 1]); }
  }

  lemma IdsAre(e: Entry, id: int)
    ensures id in Ids(e) <==> HasId(e, id)
  {
  }
}
