/** Which branches are evaluated, and how a limited number of drill-down slots is handed to them in turn. */
module LeafBudget {
  import opened Arithmetic
  import opened Branches
  import opened Sorting

  // ---------------------------------------------------------------- which branches

  predicate Larger(a: Branch, b: Branch) {
    a.nodeCount > b.nodeCount || (a.nodeCount == b.nodeCount && a.head < b.head)
  }

  /** The evaluation budget: twice the limit, or all branches when that is too many or not positive. */
  function Budget(branchLimit: int, count: nat): nat {
    if branchLimit * 2 <= 0 || branchLimit * 2 > count then count else branchLimit * 2
  }

  /** A selection: as many branches as the budget allows, largest first, none left out larger than one taken. */
  ghost predicate IsSelection(bs: seq<Branch>, branchLimit: int, r: seq<Branch>) {
    && |r| == Budget(branchLimit, |bs|)
    && Sorted(Larger, r)
    && exists rest :: IsRest(bs, r, rest)
  }

  ghost predicate IsRest(bs: seq<Branch>, r: seq<Branch>, rest: seq<Branch>) {
    multiset(r) + multiset(rest) == multiset(bs) && forall a, b | a in r && b in rest :: !Larger(b, a)
  }

  method SelectBranchesToEvaluate(bs: seq<Branch>, branchLimit: int) returns (r: seq<Branch>)
    ensures IsSelection(bs, branchLimit, r)
  {
    hide Comparison, Sorted, Larger;
    if |bs| == 0 {
      NoneToSelect(bs, branchLimit);
      return [];
    }
    var budget := branchLimit * 2;
    if budget <= 0 || budget > |bs| {
      budget := |bs|;
    }
    var ordered := Sort(Larger, bs);
    assert |multiset(ordered)| == |multiset(bs)|;
    LargerCompares();
    SortSorts(Larger, bs);
    LeadingSelected(bs, ordered, budget);
    return ordered[..budget];
  }

  lemma NoneToSelect(bs: seq<Branch>, branchLimit: int)
    requires bs == []
    ensures IsSelection(bs, branchLimit, [])
  {
    assert IsRest(bs, [], []);
  }

  lemma LeadingSelected(bs: seq<Branch>, ordered: seq<Branch>, n: nat)
    requires Sorted(Larger, ordered) && multiset(ordered) == multiset(bs) && n <= |ordered|
    ensures Sorted(Larger, ordered[..n]) && IsRest(bs, ordered[..n], ordered[n..])
  {
    assert ordered == ordered[..n] + ordered[n..];
    forall a, b | a in ordered[..n] && b in ordered[n..] ensures !Larger(b, a) {
      var i :| 0 <= i < n && ordered[..n][i] == a;
      var j :| 0 <= j < |ordered| - n && ordered[n..][j] == b;
      assert ordered[i] == a && ordered[n + j] == b;
    }
  }

  lemma LargerCompares()
    ensures Comparison(Larger)
  {
  }

  /** Between branches with different heads there is only one selection, whatever order they come in. */
  lemma SelectionUnique(bs: seq<Branch>, bs': seq<Branch>, branchLimit: int, r: seq<Branch>, r': seq<Branch>)
    requires multiset(bs) == multiset(bs')
    requires forall a, b | a in bs && b in bs && a.head == b.head :: a == b
    requires IsSelection(bs, branchLimit, r) && IsSelection(bs', branchLimit, r')
    ensures r == r'
  {
    hide Comparison, Sorted, IsRest;
    LargerCompares();
    var rest :| IsRest(bs, r, rest);
    var rest' :| IsRest(bs', r', rest');
    assert |multiset(bs)| == |bs| && |multiset(bs')| == |bs'|;
    SelectedFirst(bs, r, rest);
    SelectedFirst(bs', r', rest');
    var s, s' := r + Sort(Larger, rest), r' + Sort(Larger, rest');
    forall a, b | a in s && b in s && !Larger(a, b) && !Larger(b, a) ensures a == b {
      assert a in multiset(s) && b in multiset(s);
    }
    SortedUnique(Larger, s, s');
    assert r == s[..|r|] && r' == s'[..|r'|];
  }

  lemma SelectedFirst(bs: seq<Branch>, r: seq<Branch>, rest: seq<Branch>)
    requires Sorted(Larger, r) && IsRest(bs, r, rest)
    ensures Sorted(Larger, r + Sort(Larger, rest)) && multiset(r + Sort(Larger, rest)) == multiset(bs)
  {
    LargerCompares();
    SortSorts(Larger, rest);
    var t := Sort(Larger, rest);
    forall i, j | 0 <= i < |r| && 0 <= j < |t| ensures !Larger(t[j], r[i]) {
      assert t[j] in multiset(t);
      assert t[j] in rest;
    }
  }

  /** Branches with different heads stay so in a selection. */
  lemma SelectedDistinct(bs: seq<Branch>, branchLimit: int, r: seq<Branch>)
    requires forall i, j | 0 <= i < j < |bs| :: bs[i].head != bs[j].head
    requires IsSelection(bs, branchLimit, r)
    ensures DistinctIds(r)
  {
    var rest :| IsRest(bs, r, rest);
    SelectedAmong(bs, branchLimit, r);
    forall i, j | 0 <= i < j < |r| ensures Key(r[i]) != Key(r[j]) {
      TwiceInSeq(r, i, j);
      OnceInSeq(bs, r[i]);
      assert multiset(bs)[r[i]] >= multiset(r)[r[i]];
      assert r[i] in bs && r[j] in bs;
    }
  }

  lemma SelectedAmong(bs: seq<Branch>, branchLimit: int, r: seq<Branch>)
    requires IsSelection(bs, branchLimit, r)
    ensures forall b | b in r :: b in bs
  {
    var rest :| IsRest(bs, r, rest);
    forall b | b in r ensures b in bs {
      assert b in multiset(r) && b in multiset(bs);
    }
  }

  lemma TwiceInSeq(s: seq<Branch>, i: nat, j: nat)
    requires i < j < |s|
    ensures s[i] == s[j] ==> multiset(s)[s[i]] >= 2
  {
    assert s == s[..j] + [s[j]] + s[j + 1..];
    assert multiset(s) == multiset(s[..j]) + multiset{s[j]} + multiset(s[j + 1..]);
    assert s[i] == s[..j][i] && s[i] in multiset(s[..j]);
  }

  lemma {:induction false} OnceInSeq(s: seq<Branch>, b: Branch)
    requires forall i, j | 0 <= i < j < |s| :: s[i].head != s[j].head
    ensures multiset(s)[b] <= 1
    ensures b !in s ==> multiset(s)[b] == 0
  {
    if s != [] {
      var last, init := s[|s| - 1], s[..|s| - 1];
      OnceInSeq(init, b);
      assert s == init + [last];
    }
  }

  // ---------------------------------------------------------------- how many leaves of each

  function Total(bs: seq<Branch>): nat {
    if bs == [] then 0 else Total(bs[..|bs| - 1]) + |bs[|bs| - 1].leaves|
  }

  /** What the first `k` branches give in round `r`. */
  function Turn(bs: seq<Branch>, r: nat, k: nat): seq<int>
    requires k <= |bs|
    decreases k
  {
    if k == 0 then []
    else Turn(bs, r, k - 1) + (if r < |bs[k - 1].leaves| then [bs[k - 1].leaves[r]] else [])
  }

  /** Everything given in the first `r` rounds. */
  function Rounds(bs: seq<Branch>, r: nat): seq<int>
    decreases r
  {
    if r == 0 then [] else Rounds(bs, r - 1) + Turn(bs, r - 1, |bs|)
  }

  /** How many leaves branch `i` has given after `r` full rounds and `k` further turns. */
  function Share(bs: seq<Branch>, r: nat, k: nat, i: nat): nat
    requires i < |bs|
  {
    Min(|bs[i].leaves|, if i < k then r + 1 else r)
  }

  /** What a branch is filed under. */
  function Key(b: Branch): (int, int) {
    (b.anchor, b.head)
  }

  ghost predicate DistinctIds(bs: seq<Branch>) {
    forall i, j | 0 <= i < j < |bs| :: Key(bs[i]) != Key(bs[j])
  }

  ghost predicate Recorded(bs: seq<Branch>, r: nat, k: nat, byBranch: map<(int, int), seq<int>>) {
    && (forall id | id in byBranch :: exists i :: 0 <= i < |bs| && Key(bs[i]) == id)
    && (forall i | 0 <= i < |bs| ::
          if Share(bs, r, k, i) == 0 then Key(bs[i]) !in byBranch
          else Key(bs[i]) in byBranch && byBranch[Key(bs[i])] == bs[i].leaves[..Share(bs, r, k, i)])
  }

  method GatherLeaves(bs: seq<Branch>, nodeLimit: int)
    returns (byBranch: map<(int, int), seq<int>>, all: seq<int>, ghost r: nat, ghost k: nat)
    requires DistinctIds(bs)
    ensures k <= |bs| && all == Rounds(bs, r) + Turn(bs, r, k)
    ensures |all| == Min(if nodeLimit < 0 then 0 else nodeLimit, Total(bs))
    ensures Recorded(bs, r, k, byBranch)
  {
    hide Recorded, Total, DistinctIds, Turn, Rounds, Share;
    byBranch, all, r, k := map[], [], 0, 0;
    RecordedNone(bs);
    var budget := if nodeLimit < 0 then 0 else nodeLimit;
    ghost var whole := budget;
    if budget == 0 || |bs| == 0 {
      Empty(bs);
      return;
    }
    Empty(bs);
    var cursors := new nat[|bs|](_ => 0);
    while budget > 0
      invariant budget >= 0 && k == 0 && all == Rounds(bs, r) + Turn(bs, r, 0) && budget + |all| == whole
      invariant Recorded(bs, r, 0, byBranch) && |all| <= Total(bs)
      invariant forall i | 0 <= i < |bs| :: cursors[i] == Share(bs, r, 0, i)
      decreases budget
    {
      var progress := false;
      NoTurn(bs, r);
      for i := 0 to |bs|
        invariant budget >= 0 && k == i && all == Rounds(bs, r) + Turn(bs, r, k) && budget + |all| == whole
        invariant Recorded(bs, r, k, byBranch) && |all| <= Total(bs)
        invariant progress <==> Turn(bs, r, k) != []
        invariant forall j | 0 <= j < |bs| :: cursors[j] == Share(bs, r, k, j)
      {
        if budget == 0 {
          break;
        }
        StartShare(bs, r, i);
        if cursors[i] >= |bs[i].leaves| {
          SkipRecorded(bs, r, i, byBranch);
          k := k + 1;
          continue;
        }
        var id := bs[i].leaves[cursors[i]];
        TakeRecorded(bs, r, i, byBranch);
        TakenBound(bs, r, i);
        byBranch := byBranch[Key(bs[i]) := (if Key(bs[i]) in byBranch then byBranch[Key(bs[i])] else []) + [id]];
        all := all + [id];
        cursors[i] := cursors[i] + 1;
        budget := budget - 1;
        progress := true;
        k := k + 1;
      }
      if budget == 0 {
        TakenAtMost(bs, r, k);
        return;
      }
      if !progress {
        Drained(bs, r);
        break;
      }
      NextRound(bs, r, byBranch);
      r, k := r + 1, 0;
    }
  }

  lemma Empty(bs: seq<Branch>)
    ensures bs == [] ==> Total(bs) == 0
    ensures Rounds(bs, 0) + Turn(bs, 0, 0) == []
  {
  }

  lemma NoTurn(bs: seq<Branch>, r: nat)
    ensures Turn(bs, r, 0) == []
  {
  }

  lemma StartShare(bs: seq<Branch>, r: nat, i: nat)
    requires i < |bs|
    ensures Share(bs, r, i, i) == Min(|bs[i].leaves|, r)
  {
  }

  lemma RecordedNone(bs: seq<Branch>)
    ensures Recorded(bs, 0, 0, map[])
    ensures forall i | 0 <= i < |bs| :: Share(bs, 0, 0, i) == 0
  {
  }

  lemma SkipShares(bs: seq<Branch>, r: nat, i: nat)
    requires i < |bs| && |bs[i].leaves| <= Share(bs, r, i, i)
    ensures Turn(bs, r, i + 1) == Turn(bs, r, i)
    ensures forall j | 0 <= j < |bs| :: Share(bs, r, i + 1, j) == Share(bs, r, i, j)
  {
  }

  lemma SkipRecorded(bs: seq<Branch>, r: nat, i: nat, byBranch: map<(int, int), seq<int>>)
    requires i < |bs| && Recorded(bs, r, i, byBranch) && |bs[i].leaves| <= Share(bs, r, i, i)
    ensures Turn(bs, r, i + 1) == Turn(bs, r, i)
    ensures Recorded(bs, r, i + 1, byBranch)
    ensures forall j | 0 <= j < |bs| :: Share(bs, r, i + 1, j) == Share(bs, r, i, j)
  {
    hide Turn, Share;
    SkipShares(bs, r, i);
  }

  lemma TakeShares(bs: seq<Branch>, r: nat, i: nat)
    requires i < |bs| && Share(bs, r, i, i) < |bs[i].leaves|
    ensures Share(bs, r, i, i) == r && Turn(bs, r, i + 1) == Turn(bs, r, i) + [bs[i].leaves[r]]
    ensures forall j | 0 <= j < |bs| :: Share(bs, r, i + 1, j) == Share(bs, r, i, j) + if j == i then 1 else 0
  {
  }

  lemma TakeRecorded(bs: seq<Branch>, r: nat, i: nat, byBranch: map<(int, int), seq<int>>)
    requires DistinctIds(bs) && i < |bs| && Recorded(bs, r, i, byBranch) && Share(bs, r, i, i) < |bs[i].leaves|
    ensures Share(bs, r, i, i) == r && Turn(bs, r, i + 1) == Turn(bs, r, i) + [bs[i].leaves[r]]
    ensures Recorded(bs, r, i + 1, byBranch[Key(bs[i]) := (if Key(bs[i]) in byBranch then byBranch[Key(bs[i])] else [])
        + [bs[i].leaves[r]]])
    ensures forall j | 0 <= j < |bs| :: Share(bs, r, i + 1, j) == Share(bs, r, i, j) + if j == i then 1 else 0
  {
    hide Turn, Share;
    TakeShares(bs, r, i);
    assert bs[i].leaves[..r] + [bs[i].leaves[r]] == bs[i].leaves[..r + 1];
    var after := byBranch[Key(bs[i]) := (if Key(bs[i]) in byBranch then byBranch[Key(bs[i])] else [])
        + [bs[i].leaves[r]]];
    forall j | 0 <= j < |bs| && j != i ensures Key(bs[j]) != Key(bs[i]) {
    }
  }

  lemma NextRound(bs: seq<Branch>, r: nat, byBranch: map<(int, int), seq<int>>)
    requires Recorded(bs, r, |bs|, byBranch)
    ensures Recorded(bs, r + 1, 0, byBranch)
    ensures Rounds(bs, r + 1) + Turn(bs, r + 1, 0) == Rounds(bs, r) + Turn(bs, r, |bs|)
    ensures forall j | 0 <= j < |bs| :: Share(bs, r, |bs|, j) == Share(bs, r + 1, 0, j)
  {
  }

  // ---------------------------------------------------------------- how much is taken

  /** The number taken is the sum of the shares. */
  function Shares(bs: seq<Branch>, r: nat, k: nat, n: nat): nat
    requires n <= |bs|
  {
    if n == 0 then 0 else Shares(bs, r, k, n - 1) + Share(bs, r, k, n - 1)
  }

  lemma {:induction false} SharesStep(bs: seq<Branch>, r: nat, k: nat, n: nat)
    requires k < |bs| && n <= |bs|
    ensures Shares(bs, r, k + 1, n) == Shares(bs, r, k, n) + if k < n && r < |bs[k].leaves| then 1 else 0
  {
    if n > 0 { SharesStep(bs, r, k, n - 1); }
  }

  lemma {:induction false} SharesRound(bs: seq<Branch>, r: nat, n: nat)
    requires n <= |bs|
    ensures Shares(bs, r, |bs|, n) == Shares(bs, r + 1, 0, n)
  {
    if n > 0 { SharesRound(bs, r, n - 1); }
  }

  lemma {:induction false} TurnShares(bs: seq<Branch>, r: nat, k: nat)
    requires k <= |bs| && |Rounds(bs, r)| == Shares(bs, r, 0, |bs|)
    ensures |Rounds(bs, r)| + |Turn(bs, r, k)| == Shares(bs, r, k, |bs|)
    decreases k
  {
    if k > 0 {
      TurnShares(bs, r, k - 1);
      SharesStep(bs, r, k - 1, |bs|);
    }
  }

  lemma {:induction false} NoShares(bs: seq<Branch>, n: nat)
    requires n <= |bs|
    ensures Shares(bs, 0, 0, n) == 0
  {
    if n > 0 { NoShares(bs, n - 1); }
  }

  lemma {:induction false} TakenIsShares(bs: seq<Branch>, r: nat, k: nat)
    requires k <= |bs|
    ensures |Rounds(bs, r) + Turn(bs, r, k)| == Shares(bs, r, k, |bs|)
    decreases r
  {
    if r == 0 {
      NoShares(bs, |bs|);
    } else {
      TakenIsShares(bs, r - 1, |bs|);
      SharesRound(bs, r - 1, |bs|);
    }
    TurnShares(bs, r, k);
  }

  lemma {:induction false} SharesAtMost(bs: seq<Branch>, r: nat, k: nat, n: nat)
    requires n <= |bs|
    ensures Shares(bs, r, k, n) <= Total(bs[..n])
    ensures (forall i | 0 <= i < n :: Share(bs, r, k, i) == |bs[i].leaves|) ==> Shares(bs, r, k, n) == Total(bs[..n])
  {
    if n > 0 {
      SharesAtMost(bs, r, k, n - 1);
      assert bs[..n][..n - 1] == bs[..n - 1];
    }
  }

  lemma TakenAtMost(bs: seq<Branch>, r: nat, k: nat)
    requires k <= |bs|
    ensures |Rounds(bs, r) + Turn(bs, r, k)| <= Total(bs)
  {
    TakenIsShares(bs, r, k);
    SharesAtMost(bs, r, k, |bs|);
    assert bs[..|bs|] == bs;
  }

  lemma TakenBound(bs: seq<Branch>, r: nat, i: nat)
    requires i < |bs|
    ensures |Rounds(bs, r) + Turn(bs, r, i + 1)| <= Total(bs)
  {
    TakenAtMost(bs, r, i + 1);
  }

  lemma {:induction false} EmptyTurn(bs: seq<Branch>, r: nat, k: nat)
    requires k <= |bs| && Turn(bs, r, k) == []
    ensures forall i | 0 <= i < k :: |bs[i].leaves| <= r
    decreases k
  {
    if k > 0 { EmptyTurn(bs, r, k - 1); }
  }

  lemma Drained(bs: seq<Branch>, r: nat)
    requires Turn(bs, r, |bs|) == []
    ensures |Rounds(bs, r) + Turn(bs, r, |bs|)| == Total(bs)
  {
    EmptyTurn(bs, r, |bs|);
    TakenIsShares(bs, r, |bs|);
    SharesAtMost(bs, r, |bs|, |bs|);
    assert bs[..|bs|] == bs;
  }

  /** Every leaf handed out is a leaf of one of the branches. */
  lemma {:induction false} TurnLeaves(bs: seq<Branch>, r: nat, k: nat, n: int)
    requires k <= |bs| && n in Turn(bs, r, k)
    ensures exists b :: b in bs && n in b.leaves
    decreases k
  {
    if n in Turn(bs, r, k - 1) {
      TurnLeaves(bs, r, k - 1, n);
    } else {
      assert bs[k - 1] in bs && n in bs[k - 1].leaves;
    }
  }

  lemma {:induction false} RoundsLeaves(bs: seq<Branch>, r: nat, n: int)
    requires n in Rounds(bs, r)
    ensures exists b :: b in bs && n in b.leaves
    decreases r
  {
    hide Turn;
    if n in Rounds(bs, r - 1) {
      RoundsLeaves(bs, r - 1, n);
    } else {
      TurnLeaves(bs, r - 1, |bs|, n);
    }
  }

  lemma GatheredIsLeaf(bs: seq<Branch>, r: nat, k: nat, n: int)
    requires k <= |bs| && n in Rounds(bs, r) + Turn(bs, r, k)
    ensures exists b :: b in bs && n in b.leaves
  {
    hide Rounds, Turn;
    if n in Rounds(bs, r) { RoundsLeaves(bs, r, n); } else { TurnLeaves(bs, r, k, n); }
  }

  // ---------------------------------------------------------------- fairness

  /** No branch falls behind another by more than one leaf unless it has none left, and an earlier branch
      never falls behind a later one. */
  lemma NoStarvation(bs: seq<Branch>, r: nat, k: nat, i: nat, j: nat)
    requires i < |bs| && j < |bs| && Share(bs, r, k, i) < |bs[i].leaves|
    ensures Share(bs, r, k, j) <= Share(bs, r, k, i) + 1
    ensures i < j ==> Share(bs, r, k, j) <= Share(bs, r, k, i)
  {
  }

  /** The leaves handed out are a prefix of the full round-robin order, whatever the limit. */
  lemma {:induction false} RoundsGrow(bs: seq<Branch>, r: nat, k: nat, r': nat)
    requires k <= |bs| && r < r'
    ensures Rounds(bs, r) + Turn(bs, r, k) <= Rounds(bs, r')
    decreases r'
  {
    hide Turn;
    if r + 1 == r' {
      TurnGrows(bs, r, k, |bs|);
    } else {
      RoundsGrow(bs, r, k, r' - 1);
    }
  }

  lemma {:induction false} TurnGrows(bs: seq<Branch>, r: nat, k: nat, n: nat)
    requires k <= n <= |bs|
    ensures Turn(bs, r, k) <= Turn(bs, r, n)
    decreases n
  {
    if k < n { TurnGrows(bs, r, k, n - 1); }
  }

  // ---------------------------------------------------------------- in plain numbers

  /** A selection is as long as twice the limit allows, has the branches with the most nodes first, the
      smaller head among equals, and whatever it leaves out has no more nodes than anything in it. */
  lemma SelectionMeans(bs: seq<Branch>, branchLimit: int, r: seq<Branch>)
    requires IsSelection(bs, branchLimit, r)
    ensures |r| == if 0 < 2 * branchLimit <= |bs| then 2 * branchLimit else |bs|
    ensures multiset(r) <= multiset(bs)
    ensures forall i, j | 0 <= i < j < |r| ::
              r[i].nodeCount > r[j].nodeCount || (r[i].nodeCount == r[j].nodeCount && r[i].head <= r[j].head)
    ensures forall a, b | a in r && multiset(r)[b] < multiset(bs)[b] ::
              a.nodeCount > b.nodeCount || (a.nodeCount == b.nodeCount && a.head <= b.head)
  {
    var rest :| IsRest(bs, r, rest);
    forall a, b | a in r && multiset(r)[b] < multiset(bs)[b] ensures !Larger(b, a) {
      assert multiset(rest)[b] > 0 && b in rest;
    }
  }

  /** What each branch is given: its leading leaves, all of them or one per round it took part in. */
  lemma SharesMean(bs: seq<Branch>, r: nat, k: nat, byBranch: map<(int, int), seq<int>>, i: nat)
    requires Recorded(bs, r, k, byBranch) && i < |bs|
    ensures var id, n := (bs[i].anchor, bs[i].head), if i < k then r + 1 else r;
            var given := if id in byBranch then byBranch[id] else [];
            given == if |bs[i].leaves| <= n then bs[i].leaves else bs[i].leaves[..n]
  {
  }

  /** The leaf taken by branch `i` in round `j`, as (j, i), in the order of taking. */
  ghost function Slots(bs: seq<Branch>, r: nat, k: nat): seq<(nat, nat)>
    requires k <= |bs|
    decreases r, k
  {
    if k > 0 then Slots(bs, r, k - 1) + (if r < |bs[k - 1].leaves| then [(r, k - 1)] else [])
    else if r > 0 then Slots(bs, r - 1, |bs|)
    else []
  }

  predicate Sooner(a: (nat, nat), b: (nat, nat)) {
    a.0 < b.0 || (a.0 == b.0 && a.1 < b.1)
  }

  /** `all` are the leaves of `slots`, which are in order and are all there are before the slot (r, k). */
  ghost predicate InOrder(bs: seq<Branch>, all: seq<int>, slots: seq<(nat, nat)>, r: nat, k: nat) {
    && |all| == |slots|
    && (forall x | 0 <= x < |slots| ::
          slots[x].1 < |bs| && slots[x].0 < |bs[slots[x].1].leaves|
          && all[x] == bs[slots[x].1].leaves[slots[x].0] && Sooner(slots[x], (r, k)))
    && (forall x, y | 0 <= x < y < |slots| :: Sooner(slots[x], slots[y]))
    && (forall j: nat, i: nat | i < |bs| && j < |bs[i].leaves| && Sooner((j, i), (r, k)) :: (j, i) in slots)
  }

  lemma SlotAdded(bs: seq<Branch>, all: seq<int>, slots: seq<(nat, nat)>, r: nat, k: nat)
    requires k < |bs| && InOrder(bs, all, slots, r, k) && r < |bs[k].leaves|
    ensures InOrder(bs, all + [bs[k].leaves[r]], slots + [(r, k)], r, k + 1)
  {
    forall j: nat, i: nat | i < |bs| && j < |bs[i].leaves| && Sooner((j, i), (r, k + 1))
      ensures (j, i) in slots + [(r, k)]
    {
      assert (j, i) == (r, k) || Sooner((j, i), (r, k));
      assert (r, k) in [(r, k)];
    }
  }

  lemma SlotSkipped(bs: seq<Branch>, all: seq<int>, slots: seq<(nat, nat)>, r: nat, k: nat)
    requires k < |bs| && InOrder(bs, all, slots, r, k) && r >= |bs[k].leaves|
    ensures InOrder(bs, all, slots, r, k + 1)
  {
    forall j: nat, i: nat | i < |bs| && j < |bs[i].leaves| && Sooner((j, i), (r, k + 1)) ensures (j, i) in slots {
      assert Sooner((j, i), (r, k));
    }
  }

  lemma RoundOver(bs: seq<Branch>, all: seq<int>, slots: seq<(nat, nat)>, r: nat)
    requires InOrder(bs, all, slots, r, |bs|)
    ensures InOrder(bs, all, slots, r + 1, 0)
  {
  }

  /** The leaves are taken round by round, and within a round branch by branch: leaf `j` of a branch is taken in
      round `j`, and everything before the point where the budget ran out is taken. */
  lemma {:induction false} TakenInTurn(bs: seq<Branch>, r: nat, k: nat)
    requires k <= |bs|
    ensures InOrder(bs, Rounds(bs, r) + Turn(bs, r, k), Slots(bs, r, k), r, k)
    decreases r, k
  {
    hide InOrder, Slots, Turn, Rounds;
    if k > 0 {
      TakenInTurn(bs, r, k - 1);
      OneTurn(bs, r, k - 1, k);
      var before, taken := Slots(bs, r, k - 1), Rounds(bs, r) + Turn(bs, r, k - 1);
      if r < |bs[k - 1].leaves| {
        SlotAdded(bs, taken, before, r, k - 1);
      } else {
        assert taken + [] == taken && before + [] == before;
        SlotSkipped(bs, taken, before, r, k - 1);
      }
    } else if r > 0 {
      TakenInTurn(bs, r - 1, |bs|);
      OneRound(bs, r - 1, r);
      RoundOver(bs, Rounds(bs, r - 1) + Turn(bs, r - 1, |bs|), Slots(bs, r, 0), r - 1);
    } else {
      NothingTaken(bs);
    }
  }

  lemma OneTurn(bs: seq<Branch>, r: nat, k: nat, k': nat)
    requires k' == k + 1 <= |bs|
    ensures Rounds(bs, r) + Turn(bs, r, k')
            == Rounds(bs, r) + Turn(bs, r, k) + if r < |bs[k].leaves| then [bs[k].leaves[r]] else []
    ensures Slots(bs, r, k') == Slots(bs, r, k) + if r < |bs[k].leaves| then [(r, k)] else []
  {
    hide Rounds;
  }

  lemma OneRound(bs: seq<Branch>, r: nat, r': nat)
    requires r' == r + 1
    ensures Rounds(bs, r') + Turn(bs, r', 0) == Rounds(bs, r) + Turn(bs, r, |bs|)
    ensures Slots(bs, r', 0) == Slots(bs, r, |bs|)
  {
  }

  lemma NothingTaken(bs: seq<Branch>)
    ensures InOrder(bs, Rounds(bs, 0) + Turn(bs, 0, 0), Slots(bs, 0, 0), 0, 0)
  {
  }
}
