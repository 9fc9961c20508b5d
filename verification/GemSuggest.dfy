/** The names offered when a gem is not found: the closest ones, in an order that does not depend on the input order. */
module GemSuggest {
  import opened Alphabet
  import opened EditDistance
  import opened Sorting

  datatype Scored = Scored(name: string, dist: nat)

  predicate Before(x: Scored, y: Scored) {
    x.dist < y.dist || (x.dist == y.dist && Less(x.name, y.name))
  }

  lemma BeforeCompares()
    ensures Comparison(Before)
  {
    forall x: Scored, y: Scored ensures Before(x, y) ==> !Before(y, x) {
      LessTrichotomy(x.name, y.name);
    }
    forall x: Scored, y: Scored, z: Scored | !Before(y, x) && !Before(z, y) ensures !Before(z, x) {
      NotBeforeTransitive(x, y, z);
    }
  }

  lemma NotBeforeTransitive(x: Scored, y: Scored, z: Scored)
    requires !Before(y, x) && !Before(z, y)
    ensures !Before(z, x)
  {
    LessTrichotomy(x.name, y.name);
    LessTrichotomy(y.name, z.name);
    LessTrichotomy(x.name, z.name);
    if Less(x.name, y.name) && Less(y.name, z.name) { LessTransitive(x.name, y.name, z.name); }
  }

  lemma TiesAreEqual(x: Scored, y: Scored)
    requires !Before(x, y) && !Before(y, x)
    ensures x == y
  {
    LessTrichotomy(x.name, y.name);
  }

  // ---------------------------------------------------------------- suggestions

  /** Letter case and the width of a text in bytes come from the text library. */
  datatype Text = Text(lower: string -> string, width: string -> nat)

  function Score(t: Text, query: string, name: string): Scored {
    Scored(name, Dist(t.lower(query), t.lower(name)))
  }

  function Scores(t: Text, query: string, all: seq<string>): (r: seq<Scored>)
    ensures |r| == |all| && forall i | 0 <= i < |all| :: r[i] == Score(t, query, all[i])
  {
    if all == [] then [] else Scores(t, query, all[..|all| - 1]) + [Score(t, query, all[|all| - 1])]
  }

  function Cap(t: Text, query: string): nat {
    if t.width(t.lower(query)) / 3 > 3 then t.width(t.lower(query)) / 3 else 3
  }

  /** The leading entries that are close enough, at most `limit` of them. */
  function Leading(ranked: seq<Scored>, cap: nat, limit: nat): seq<string> {
    if ranked == [] || limit == 0 || ranked[0].dist > cap then []
        else [ranked[0].name] + Leading(ranked[1..], cap, limit - 1)
  }

  function Suggestions(t: Text, query: string, all: seq<string>, limit: int): seq<string> {
    if limit <= 0 then [] else Leading(Sort(Before, Scores(t, query, all)), Cap(t, query), limit)
  }

  lemma NoScores(t: Text, query: string)
    ensures Scores(t, query, []) == []
  {
  }

  lemma ScoresStep(t: Text, query: string, all: seq<string>, i: nat, d: nat)
    requires i < |all| && d == Dist(t.lower(query), t.lower(all[i]))
    ensures Scores(t, query, all[..i + 1]) == Scores(t, query, all[..i]) + [Scored(all[i], d)]
  {
    hide Dist;
    assert all[..i + 1][..i] == all[..i];
  }

  lemma LeadingStep(ranked: seq<Scored>, i: nat, cap: nat, room: nat, out: seq<string>)
    requires i < |ranked| && room > 0
    ensures out + Leading(ranked[i..], cap, room) ==
            if ranked[i].dist > cap then out else out + [ranked[i].name] + Leading(ranked[i + 1..], cap, room - 1)
  {
    assert ranked[i..][1..] == ranked[i + 1..];
  }

  lemma LeadingEnds(ranked: seq<Scored>, cap: nat, room: nat, out: seq<string>)
    requires ranked == [] || room == 0
    ensures out + Leading(ranked, cap, room) == out
  {
  }

  lemma NothingScored(t: Text, query: string, limit: int)
    ensures Suggestions(t, query, [], limit) == []
  {
  }

  method SuggestGemNames(t: Text, query: string, allNames: seq<string>, limit: int) returns (out: seq<string>)
    ensures out == Suggestions(t, query, allNames, limit)
  {
    hide Sort, Before, Dist, Leading, Scores, Score;
    if limit <= 0 || |allNames| == 0 {
      NothingScored(t, query, limit);
      return [];
    }
    var lowerQuery := t.lower(query);
    var ranked := [];
    NoScores(t, query);
    for i := 0 to |allNames|
      invariant ranked == Scores(t, query, allNames[..i])
    {
      var d := Levenshtein(lowerQuery, t.lower(allNames[i]));
      ScoresStep(t, query, allNames, i, d);
      ranked := ranked + [Scored(allNames[i], d)];
    }
    assert allNames[..|allNames|] == allNames;
    ranked := Sort(Before, ranked);
    var maxDist := if t.width(lowerQuery) / 3 > 3 then t.width(lowerQuery) / 3 else 3;
    out := [];
    assert ranked[0..] == ranked && [] + Leading(ranked, maxDist, limit) == Leading(ranked, maxDist, limit);
    for i := 0 to |ranked|
      invariant |out| < limit
      invariant Leading(ranked, maxDist, limit) == out + Leading(ranked[i..], maxDist, limit - |out|)
    {
      LeadingStep(ranked, i, maxDist, limit - |out|, out);
      if ranked[i].dist > maxDist {
        return;
      }
      out := out + [ranked[i].name];
      if |out| >= limit {
        LeadingEnds(ranked[i + 1..], maxDist, 0, out);
        return;
      }
    }
    LeadingEnds(ranked[|ranked|..], maxDist, limit - |out|, out);
  }

  /** The order in which the names are listed does not matter. */
  lemma OrderIrrelevant(t: Text, query: string, a: seq<string>, b: seq<string>, limit: int)
    requires multiset(a) == multiset(b)
    ensures Suggestions(t, query, a, limit) == Suggestions(t, query, b, limit)
  {
    var x, y := Scores(t, query, a), Scores(t, query, b);
    ScoresOf(t, query, a, b);
    BeforeCompares();
    SortSorts(Before, x);
    SortSorts(Before, y);
    forall p, q | p in Sort(Before, x) && q in Sort(Before, x) && !Before(p, q) && !Before(q, p) ensures p == q {
      TiesAreEqual(p, q);
    }
    SortedUnique(Before, Sort(Before, x), Sort(Before, y));
  }

  lemma {:induction false} ScoresCount(t: Text, query: string, a: seq<string>, n: Scored)
    ensures multiset(Scores(t, query, a))[n] == if n == Score(t, query, n.name) then multiset(a)[n.name] else 0
  {
    if a != [] {
      var init, last := a[..|a| - 1], a[|a| - 1];
      ScoresCount(t, query, init, n);
      assert a == init + [last];
    }
  }

  lemma ScoresOf(t: Text, query: string, a: seq<string>, b: seq<string>)
    requires multiset(a) == multiset(b)
    ensures multiset(Scores(t, query, a)) == multiset(Scores(t, query, b))
  {
    forall n ensures multiset(Scores(t, query, a))[n] == multiset(Scores(t, query, b))[n] {
      ScoresCount(t, query, a, n);
      ScoresCount(t, query, b, n);
    }
  }

  /** Which names are offered: `kept` of the ranking, all close enough; a name passed over is either too far
      away, or the offer is full and every name in it ranks at least as well. */
  lemma {:induction false} LeadingBest(ranked: seq<Scored>, cap: nat, limit: nat) returns (kept: nat)
    requires Sorted(Before, ranked)
    ensures kept <= |ranked| && |Leading(ranked, cap, limit)| == kept <= limit
    ensures forall i | 0 <= i < kept :: Leading(ranked, cap, limit)[i] == ranked[i].name && ranked[i].dist <= cap
    ensures forall j | kept <= j < |ranked| ::
        ranked[j].dist > cap
        || (kept == limit && forall i | 0 <= i < kept :: !Before(ranked[j], ranked[i]))
  {
    if ranked == [] || limit == 0 || ranked[0].dist > cap {
      kept := 0;
    } else {
      kept := LeadingBest(ranked[1..], cap, limit - 1);
      kept := kept + 1;
    }
  }

  // ---------------------------------------------------------------- what is suggested

  function NamesOf(s: seq<Scored>): seq<string> {
    if s == [] then [] else NamesOf(s[..|s| - 1]) + [s[|s| - 1].name]
  }

  lemma {:induction false} NamesCount(t: Text, query: string, s: seq<Scored>, n: string)
    requires forall x | x in s :: x == Score(t, query, x.name)
    ensures |NamesOf(s)| == |s| && multiset(NamesOf(s))[n] == multiset(s)[Score(t, query, n)]
  {
    if s != [] {
      var init, last := s[..|s| - 1], s[|s| - 1];
      NamesCount(t, query, init, n);
      assert s == init + [last];
      assert NamesOf(s) == NamesOf(init) + [last.name];
      assert last in s;
    }
  }

  lemma {:induction false} NamesAppend(a: seq<Scored>, b: seq<Scored>)
    ensures NamesOf(a + b) == NamesOf(a) + NamesOf(b)
  {
    if b == [] {
      assert a + b == a;
    } else {
      assert (a + b)[..|a + b| - 1] == a + b[..|b| - 1];
      NamesAppend(a, b[..|b| - 1]);
    }
  }

  lemma {:induction false} NamesAt(s: seq<Scored>, i: nat)
    requires i < |s|
    ensures |NamesOf(s)| == |s| && NamesOf(s)[i] == s[i].name
  {
    if i < |s| - 1 {
      NamesAt(s[..|s| - 1], i);
    } else if |s| > 1 {
      NamesAt(s[..|s| - 1], 0);
    }
  }

  /** How far a name is from the query, letter case aside. */
  function Distance(t: Text, query: string, name: string): nat {
    Dist(t.lower(query), t.lower(name))
  }

  /** At most 3, or at most a third of the width of the query. */
  predicate CloseEnough(t: Text, query: string, d: nat) {
    d <= 3 || d <= t.width(t.lower(query)) / 3
  }

  /** Closer, or as close and not later in the alphabet. */
  predicate NoWorse(t: Text, query: string, a: string, b: string) {
    || Distance(t, query, a) < Distance(t, query, b)
    || (Distance(t, query, a) == Distance(t, query, b) && !Less(b, a))
  }

  /** What is suggested: names of the list, each as often as there, all close enough and the closest first;
      a name left out is too far away, or there was no room and none of those suggested is worse. */
  ghost predicate Offered(t: Text, query: string, all: seq<string>, limit: nat, out: seq<string>) {
    && |out| <= limit && multiset(out) <= multiset(all)
    && (forall i | 0 <= i < |out| :: CloseEnough(t, query, Distance(t, query, out[i])))
    && (forall i, j | 0 <= i < j < |out| :: NoWorse(t, query, out[i], out[j]))
    && (forall n | multiset(out)[n] < multiset(all)[n] ::
          || !CloseEnough(t, query, Distance(t, query, n))
          || (|out| == limit && forall i | 0 <= i < |out| :: NoWorse(t, query, out[i], n)))
  }

  lemma ScoresCompare(t: Text, query: string, x: Scored, y: Scored)
    requires x == Score(t, query, x.name) && y == Score(t, query, y.name)
    ensures !Before(y, x) <==> NoWorse(t, query, x.name, y.name)
    ensures x.dist <= Cap(t, query) <==> CloseEnough(t, query, Distance(t, query, x.name))
  {
    hide Dist, Less;
  }

  lemma SuggestionsMean(t: Text, query: string, all: seq<string>, limit: int)
    ensures Offered(t, query, all, if limit < 0 then 0 else limit, Suggestions(t, query, all, limit))
  {
    hide Leading, Sort, Dist, Scores, Before, Offered, Sorted, Cap;
    if limit > 0 {
      var ranked := Sort(Before, Scores(t, query, all));
      BeforeCompares();
      SortSorts(Before, Scores(t, query, all));
      var kept := LeadingBest(ranked, Cap(t, query), limit);
      forall x | x in ranked ensures x == Score(t, query, x.name) {
        assert x in multiset(ranked) && x in multiset(Scores(t, query, all));
      }
      RankingOffers(t, query, all, limit, ranked, kept, Suggestions(t, query, all, limit));
    } else {
      NothingOffered(t, query, all);
    }
  }

  lemma NothingOffered(t: Text, query: string, all: seq<string>)
    ensures Offered(t, query, all, 0, [])
  {
  }

  lemma RankingOffers(t: Text, query: string, all: seq<string>, limit: nat, ranked: seq<Scored>, kept: nat,
                      out: seq<string>)
    requires multiset(ranked) == multiset(Scores(t, query, all)) && Sorted(Before, ranked)
    requires forall x | x in ranked :: x == Score(t, query, x.name)
    requires kept <= |ranked| && |out| == kept <= limit
    requires forall i | 0 <= i < kept :: out[i] == ranked[i].name && ranked[i].dist <= Cap(t, query)
    requires forall j | kept <= j < |ranked| ::
        ranked[j].dist > Cap(t, query) || (kept == limit && forall i | 0 <= i < kept :: !Before(ranked[j], ranked[i]))
    ensures Offered(t, query, all, limit, out)
  {
    hide Score, Cap, Before, NoWorse, CloseEnough, Distance, Scores, Comparison;
    forall i | 0 <= i < kept ensures CloseEnough(t, query, Distance(t, query, out[i])) {
      ScoresCompare(t, query, ranked[i], ranked[i]);
    }
    forall i, j | 0 <= i < j < kept ensures NoWorse(t, query, out[i], out[j]) {
      ScoresCompare(t, query, ranked[i], ranked[j]);
    }
    forall n ensures multiset(out)[n] + multiset(NamesOf(ranked[kept..]))[n] == multiset(all)[n] {
      CountSplit(t, query, all, ranked, kept, out, n);
    }
    forall n | multiset(out)[n] < multiset(all)[n]
      ensures !CloseEnough(t, query, Distance(t, query, n))
              || (kept == limit && forall i | 0 <= i < kept :: NoWorse(t, query, out[i], n))
    {
      var j := LeftOut(ranked, kept, n);
      ScoresCompare(t, query, ranked[j], ranked[j]);
      forall i | 0 <= i < kept ensures !Before(ranked[j], ranked[i]) <==> NoWorse(t, query, out[i], n) {
        ScoresCompare(t, query, ranked[i], ranked[j]);
      }
    }
  }

  lemma CountSplit(t: Text, query: string, all: seq<string>, ranked: seq<Scored>, kept: nat, out: seq<string>,
      n: string)
    requires multiset(ranked) == multiset(Scores(t, query, all)) && forall x | x in ranked ::
        x == Score(t, query, x.name)
    requires kept <= |ranked| && |out| == kept && forall i | 0 <= i < kept :: out[i] == ranked[i].name
    ensures multiset(out)[n] + multiset(NamesOf(ranked[kept..]))[n] == multiset(all)[n]
  {
    hide Scores, Score, NamesOf;
    NamesCount(t, query, ranked, n);
    ScoreNamed(t, query, n);
    ScoresCount(t, query, all, Score(t, query, n));
    NamesParts(ranked, kept, out);
    assert multiset(out + NamesOf(ranked[kept..]))[n] == multiset(NamesOf(ranked))[n];
  }

  lemma ScoreNamed(t: Text, query: string, n: string)
    ensures Score(t, query, n).name == n
  {
  }

  lemma NamesParts(ranked: seq<Scored>, kept: nat, out: seq<string>)
    requires kept <= |ranked| && |out| == kept && forall i | 0 <= i < kept :: out[i] == ranked[i].name
    ensures NamesOf(ranked) == out + NamesOf(ranked[kept..])
  {
    hide NamesOf;
    var head, tail := ranked[..kept], ranked[kept..];
    assert ranked == head + tail;
    NamesAppend(head, tail);
    KeptNames(ranked, out, kept);
  }

  lemma KeptNames(ranked: seq<Scored>, out: seq<string>, kept: nat)
    requires kept <= |ranked| && |out| == kept && forall i | 0 <= i < kept :: out[i] == ranked[i].name
    ensures NamesOf(ranked[..kept]) == out
  {
    if kept > 0 {
      forall i | 0 <= i < kept ensures |NamesOf(ranked[..kept])| == kept && NamesOf(ranked[..kept])[i] == out[i] {
        NamesAt(ranked[..kept], i);
      }
      assert |NamesOf(ranked[..kept])| == kept by { NamesAt(ranked[..kept], 0); }
    }
  }

  /** A name that was left out is the name of a later entry of the ranking. */
  lemma LeftOut(ranked: seq<Scored>, kept: nat, n: string) returns (j: nat)
    requires kept <= |ranked| && multiset(NamesOf(ranked[kept..]))[n] > 0
    ensures kept <= j < |ranked| && ranked[j].name == n
  {
    var rest := ranked[kept..];
    assert n in NamesOf(rest);
    var i :| 0 <= i < |NamesOf(rest)| && NamesOf(rest)[i] == n;
    NamesLength(rest);
    NamesAt(rest, i);
    j := kept + i;
  }

  lemma {:induction false} NamesLength(s: seq<Scored>)
    ensures |NamesOf(s)| == |s|
  {
    if s != [] { NamesLength(s[..|s| - 1]); }
  }
}
