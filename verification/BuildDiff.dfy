/** Comparing any number of builds: what all share, and what sets each apart. */
module BuildDiff {
  import opened Alphabet
  import opened Sets
  import opened Sorting

  // ---------------------------------------------------------------- item mods

  /** How many of the builds have the mod. */
  function Having(builds: seq<seq<string>>, m: string): nat {
    if builds == [] then 0
    else Having(builds[..|builds| - 1], m) + if m in builds[|builds| - 1] then 1 else 0
  }

  ghost predicate InAll(builds: seq<seq<string>>, m: string) {
    forall i | 0 <= i < |builds| :: m in builds[i]
  }

  ghost predicate StrictlyAscending(s: seq<string>) {
    forall i, j | 0 <= i < j < |s| :: Less(s[i], s[j])
  }

  lemma {:induction false} HavingAll(builds: seq<seq<string>>, m: string)
    ensures Having(builds, m) <= |builds|
    ensures Having(builds, m) == |builds| <==> InAll(builds, m)
    ensures Having(builds, m) == 0 <==> forall i | 0 <= i < |builds| :: m !in builds[i]
  {
    if builds != [] {
      var init := builds[..|builds| - 1];
      assert forall i | 0 <= i < |init| :: init[i] == builds[i];
      HavingAll(init, m);
      assert InAll(builds, m) <==> InAll(init, m) && m in builds[|builds| - 1];
    }
  }

  /** What each build adds to the tally. */
  method Tally(perBuildMods: seq<seq<string>>) returns (tally: map<string, nat>)
    ensures forall m :: (if m in tally then tally[m] else 0) == Having(perBuildMods, m)
    ensures forall m | m in tally :: tally[m] > 0
  {
    tally := map[];
    for i := 0 to |perBuildMods|
      invariant forall m :: (if m in tally then tally[m] else 0) == Having(perBuildMods[..i], m)
      invariant forall m | m in tally :: tally[m] > 0
    {
      var mods, seen := perBuildMods[i], {};
      assert perBuildMods[..i + 1][..i] == perBuildMods[..i];
      for j := 0 to |mods|
        invariant forall m :: m in seen <==> m in mods[..j]
        invariant forall m :: (if m in tally then tally[m] else 0) == Having(perBuildMods[..i], m) + if m in seen then 1
            else 0
        invariant forall m | m in tally :: tally[m] > 0
      {
        var m := mods[j];
        if m in seen {
          continue;
        }
        seen := seen + {m};
        tally := tally[m := (if m in tally then tally[m] else 0) + 1];
      }
      assert mods[..|mods|] == mods;
    }
    assert perBuildMods[..|perBuildMods|] == perBuildMods;
  }

  /** Adjacent repetitions removed. */
  method DedupSorted(sorted: seq<string>) returns (out: seq<string>)
    requires Sorted(Less, sorted)
    ensures StrictlyAscending(out) && forall m :: m in out <==> m in sorted
  {
    if |sorted| == 0 {
      return sorted;
    }
    out := [sorted[0]];
    for i := 1 to |sorted|
      invariant |out| > 0 && out[|out| - 1] == sorted[i - 1]
      invariant StrictlyAscending(out) && forall m :: m in out <==> m in sorted[..i]
    {
      assert sorted[..i + 1] == sorted[..i] + [sorted[i]];
      if sorted[i] != out[|out| - 1] {
        LessTrichotomy(sorted[i - 1], sorted[i]);
        Appended(out, sorted[i]);
        out := out + [sorted[i]];
      }
    }
    assert sorted[..|sorted|] == sorted;
  }

  lemma Appended(s: seq<string>, m: string)
    requires StrictlyAscending(s) && s != [] && Less(s[|s| - 1], m)
    ensures StrictlyAscending(s + [m])
  {
    forall i | 0 <= i < |s| ensures Less(s[i], m) {
      if i < |s| - 1 { LessTransitive(s[i], s[|s| - 1], m); }
    }
  }

  /** Sorting texts without repetitions. */
  lemma SortedSet(s: seq<string>, elements: set<string>)
    requires Sorted(Less, s) && multiset(s) == multiset(elements)
    ensures StrictlyAscending(s) && forall m :: m in s <==> m in elements
  {
    forall i, j | 0 <= i < j < |s| ensures Less(s[i], s[j]) {
      assert s == s[..j] + [s[j]] + s[j + 1..];
      assert multiset(s) == multiset(s[..j]) + multiset{s[j]} + multiset(s[j + 1..]);
      assert s[i] == s[..j][i] && s[i] in multiset(s[..j]);
      assert multiset(s)[s[j]] <= 1;
      LessTrichotomy(s[i], s[j]);
    }
    forall m ensures m in s <==> m in elements {
      assert m in s <==> m in multiset(s);
    }
  }

  /** What the item diff is: each list ascending without repetitions, the common one the intersection, the
      others what each build has beyond it. */
  ghost predicate IsModsDiff(builds: seq<seq<string>>, perBuild: seq<seq<string>>, common: seq<string>) {
    && StrictlyAscending(common) && (forall m :: m in common <==> builds != [] && InAll(builds, m))
    && |perBuild| == |builds|
    && forall i | 0 <= i < |builds| ::
        && StrictlyAscending(perBuild[i])
        && forall m :: m in perBuild[i] <==> m in builds[i] && m !in common
  }

  method ComputeGearModsDiff(perBuildMods: seq<seq<string>>) returns (perBuild: seq<seq<string>>, common: seq<string>)
    ensures IsModsDiff(perBuildMods, perBuild, common)
  {
    hide Having, InAll, StrictlyAscending, Sorted, Comparison;
    LessCompares();
    var tally := Tally(perBuildMods);
    TallyFacts(perBuildMods, tally);
    common := CommonMods(tally, |perBuildMods|);
    perBuild := [];
    for i := 0 to |perBuildMods|
      invariant |perBuild| == i
      invariant forall k | 0 <= k < i ::
          && StrictlyAscending(perBuild[k])
          && forall m :: m in perBuild[k] <==> m in perBuildMods[k] && m !in common
    {
      var uniqueToI := Uncommon(perBuildMods[i], tally, |perBuildMods|);
      SortSorts(Less, uniqueToI);
      var sorted := Sort(Less, uniqueToI);
      var deduped := DedupSorted(sorted);
      SameElements(sorted, uniqueToI);
      perBuild := perBuild + [deduped];
    }
  }

  method CommonMods(tally: map<string, nat>, builds: nat) returns (common: seq<string>)
    ensures StrictlyAscending(common) && forall m :: m in common <==> m in tally && tally[m] == builds
  {
    hide StrictlyAscending, Sorted, Comparison;
    common := [];
    ghost var found: set<string> := {};
    var todo := tally.Keys;
    while todo != {}
      invariant todo <= tally.Keys
      invariant multiset(common) == multiset(found)
      invariant forall m :: m in found <==> m in tally && m !in todo && tally[m] == builds
      decreases todo
    {
      ghost var some := SomeElement(todo);
      var m :| m in todo;
      todo := todo - {m};
      if tally[m] == builds {
        assert multiset(found + {m}) == multiset(found) + multiset{m};
        common := common + [m];
        found := found + {m};
      }
    }
    LessCompares();
    SortSorts(Less, common);
    common := Sort(Less, common);
    SortedSet(common, found);
  }

  method Uncommon(mods: seq<string>, tally: map<string, nat>, builds: nat) returns (r: seq<string>)
    requires forall m | m in mods :: m in tally
    ensures forall m :: m in r <==> m in mods && tally[m] != builds
  {
    r := [];
    for j := 0 to |mods|
      invariant forall m :: m in r <==> m in mods[..j] && tally[m] != builds
    {
      if tally[mods[j]] != builds {
        r := r + [mods[j]];
      }
    }
    assert mods[..|mods|] == mods;
  }

  lemma SameElements(s: seq<string>, t: seq<string>)
    requires multiset(s) == multiset(t)
    ensures forall m :: m in s <==> m in t
  {
    forall m ensures m in s <==> m in t {
      assert (m in s <==> m in multiset(s)) && (m in t <==> m in multiset(t));
    }
  }

  lemma TallyFacts(builds: seq<seq<string>>, tally: map<string, nat>)
    requires forall m :: (if m in tally then tally[m] else 0) == Having(builds, m)
    requires forall m | m in tally :: tally[m] > 0
    ensures forall m :: m in tally && tally[m] == |builds| <==> builds != [] && InAll(builds, m)
    ensures forall i, m | 0 <= i < |builds| && m in builds[i] :: m in tally
  {
    forall m ensures m in tally && tally[m] == |builds| <==> builds != [] && InAll(builds, m) {
      HavingAll(builds, m);
    }
    forall i, m | 0 <= i < |builds| && m in builds[i] ensures m in tally {
      HavingAll(builds, m);
    }
  }

  /** The common mods and a build's own list together are the build's mods, with nothing in both. */
  lemma ModsPartition(builds: seq<seq<string>>, perBuild: seq<seq<string>>, common: seq<string>, i: nat)
    requires IsModsDiff(builds, perBuild, common) && i < |builds|
    ensures forall m :: m in builds[i] <==> m in common || m in perBuild[i]
    ensures forall m | m in common :: m !in perBuild[i]
  {
    forall m | m in common ensures m in builds[i] {
      assert InAll(builds, m);
    }
  }

  lemma {:induction false} AscendingUnique(s: seq<string>, t: seq<string>)
    requires StrictlyAscending(s) && StrictlyAscending(t) && forall m :: m in s <==> m in t
    ensures s == t
  {
    assert (s != [] ==> s[0] in s) && (t != [] ==> t[0] in t);
    if s != [] && t != [] {
      LessTrichotomy(s[0], t[0]);
      forall m ensures m in s[1..] <==> m in t[1..] {
        LessTrichotomy(m, m);
        assert m in s <==> m == s[0] || m in s[1..];
        assert m in t <==> m == t[0] || m in t[1..];
      }
      AscendingUnique(s[1..], t[1..]);
      assert s == [s[0]] + s[1..] && t == [t[0]] + t[1..];
    }
  }

  /** There is one diff, whatever order the tally is walked in. */
  lemma ModsDiffUnique(builds: seq<seq<string>>, p: seq<seq<string>>, c: seq<string>, p': seq<seq<string>>,
      c': seq<string>)
    requires IsModsDiff(builds, p, c) && IsModsDiff(builds, p', c')
    ensures p == p' && c == c'
  {
    hide StrictlyAscending;
    AscendingUnique(c, c');
    forall i | 0 <= i < |builds| ensures p[i] == p'[i] {
      AscendingUnique(p[i], p'[i]);
    }
  }

  /** In this build and in no other. */
  ghost predicate OnlyIn(builds: seq<seq<string>>, i: nat, m: string)
    requires i < |builds|
  {
    m in builds[i] && forall j | 0 <= j < |builds| && j != i :: m !in builds[j]
  }

  /** A build's own list is what that build alone has exactly when no mod is shared by some builds, at least
      two, but not by all. With two builds that is always so. */
  lemma OwnListsAreUniqueExactly(builds: seq<seq<string>>, perBuild: seq<seq<string>>, common: seq<string>)
    requires IsModsDiff(builds, perBuild, common) && |builds| >= 2
    ensures (forall i, m | 0 <= i < |builds| :: m in perBuild[i] <==> OnlyIn(builds, i, m))
       <==> (forall i, j, m | 0 <= i < j < |builds| && m in builds[i] && m in builds[j] :: InAll(builds, m))
  {
    if forall i, m | 0 <= i < |builds| :: m in perBuild[i] <==> OnlyIn(builds, i, m) {
      forall i, j, m | 0 <= i < j < |builds| && m in builds[i] && m in builds[j] ensures InAll(builds, m) {
        assert !OnlyIn(builds, i, m);
        assert m !in perBuild[i];
      }
    }
    if forall i, j, m | 0 <= i < j < |builds| && m in builds[i] && m in builds[j] :: InAll(builds, m) {
      forall i, m | 0 <= i < |builds| ensures m in perBuild[i] <==> OnlyIn(builds, i, m) {
        OwnList(builds, perBuild, common, i, m);
      }
    }
  }

  /** With three builds, two of which share a mod, both list it as their own. */
  lemma SharedModListedTwice(perBuild: seq<seq<string>>, common: seq<string>)
    requires IsModsDiff([["a"], ["a"], []], perBuild, common)
    ensures "a" in perBuild[0] && "a" in perBuild[1] && !OnlyIn([["a"], ["a"], []], 0, "a")
  {
    var builds: seq<seq<string>> := [["a"], ["a"], []];
    assert "a" in builds[0] && "a" in builds[1] && "a" !in builds[2];
    assert !InAll(builds, "a");
  }

  lemma OwnList(builds: seq<seq<string>>, perBuild: seq<seq<string>>, common: seq<string>, i: nat, m: string)
    requires IsModsDiff(builds, perBuild, common) && |builds| >= 2 && i < |builds|
    requires forall i, j, m | 0 <= i < j < |builds| && m in builds[i] && m in builds[j] :: InAll(builds, m)
    ensures m in perBuild[i] <==> OnlyIn(builds, i, m)
  {
    hide StrictlyAscending;
    forall j | 0 <= j < |builds| && j != i && m in builds[i] && m in builds[j] ensures InAll(builds, m) {
    }
    if OnlyIn(builds, i, m) {
      var j := if i == 0 then 1 else 0;
      assert m !in builds[j];
    }
  }

  /** The diff in terms of the builds: what all have is common, and a build's own list has what it has and
      some other build has not; each list once and in alphabetical order. */
  lemma DiffMeans(builds: seq<seq<string>>, perBuild: seq<seq<string>>, common: seq<string>)
    requires IsModsDiff(builds, perBuild, common)
    ensures forall m :: m in common <==> builds != [] && forall j | 0 <= j < |builds| :: m in builds[j]
    ensures |perBuild| == |builds|
    ensures forall i, m | 0 <= i < |builds| ::
              m in perBuild[i] <==> m in builds[i] && exists j :: 0 <= j < |builds| && m !in builds[j]
    ensures forall a, b | 0 <= a < b < |common| :: Less(common[a], common[b])
    ensures forall i, a, b | 0 <= i < |builds| && 0 <= a < b < |perBuild[i]| :: Less(perBuild[i][a], perBuild[i][b])
  {
    hide Less;
  }
}
