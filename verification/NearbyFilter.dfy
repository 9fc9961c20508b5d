/** Which unallocated nodes near a build are worth a calculation. */
module NearbyFilter {
  import opened Options

  /** A node as extracted from the build; a distance or path that was not computed is missing. */
  datatype Candidate = Candidate(id: int, kind: string, alloc: bool, pathDist: Option<int>, path: Option<seq<string>>,
                                 modKey: string, ascendancy: string, stats: seq<string>)

  /** The mod-source index, if it is wired up: whether a node can affect a metric. */
  type Index = Option<(Candidate, string) -> bool>

  predicate ShouldEvaluate(c: Candidate, radius: int, categories: set<string>) {
    && !c.alloc
    && c.pathDist.Some? && c.pathDist.value <= radius
    && c.path.Some?
    && c.kind in categories
    && c.modKey != ""
    && c.ascendancy == ""
  }

  /** The candidates that pass, in their order. */
  function Passing(cs: seq<Candidate>, radius: int, categories: set<string>): (r: seq<Candidate>)
    ensures forall c :: c in r <==> c in cs && ShouldEvaluate(c, radius, categories)
  {
    if cs == [] then []
    else
      var last := cs[|cs| - 1];
      Passing(cs[..|cs| - 1], radius, categories) + if ShouldEvaluate(last, radius, categories) then [last] else []
  }

  /** Those that can affect the leading metric; all of them without an index or a metric. */
  function Affecting(cs: seq<Candidate>, index: Index, stats: seq<string>): (r: seq<Candidate>)
    ensures forall c :: c in r <==> c in cs && (index.None? || stats == [] || index.value(c, stats[0]))
  {
    if index.None? || stats == [] then cs
    else if cs == [] then []
    else
      var last := cs[|cs| - 1];
      Affecting(cs[..|cs| - 1], index, stats) + if index.value(last, stats[0]) then [last] else []
  }

  function IdsOf(cs: seq<Candidate>): (r: seq<int>)
    ensures forall n :: n in r <==> exists c :: c in cs && c.id == n
  {
    if cs == [] then [] else IdsOf(cs[..|cs| - 1]) + [cs[|cs| - 1].id]
  }

  method PassingCandidates(cs: seq<Candidate>, radius: int, categories: set<string>) returns (passing: seq<Candidate>)
    ensures passing == Passing(cs, radius, categories)
  {
    passing := [];
    for i := 0 to |cs|
      invariant passing == Passing(cs[..i], radius, categories)
    {
      assert cs[..i + 1][..i] == cs[..i];
      if ShouldEvaluate(cs[i], radius, categories) {
        passing := passing + [cs[i]];
      }
    }
    assert cs[..|cs|] == cs;
  }

  method FilterByModIndex(cs: seq<Candidate>, index: Index, stats: seq<string>) returns (out: seq<Candidate>)
    ensures out == Affecting(cs, index, stats)
  {
    if index.None? || |stats| == 0 {
      return cs;
    }
    out := [];
    for i := 0 to |cs|
      invariant out == Affecting(cs[..i], index, stats)
    {
      assert cs[..i + 1][..i] == cs[..i];
      if index.value(cs[i], stats[0]) {
        out := out + [cs[i]];
      }
    }
    assert cs[..|cs|] == cs;
  }
}
