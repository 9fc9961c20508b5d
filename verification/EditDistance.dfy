/** Edit distance by two rolling rows, what it measures, and the suggestions ranked by it. */
module EditDistance {
  import opened Arithmetic

  function Init(s: string): string
    requires s != ""
  {
    s[..|s| - 1]
  }

  function Last(s: string): char
    requires s != ""
  {
    s[|s| - 1]
  }

  /** The distance of two texts, by their last letters. */
  function Dist(a: string, b: string): nat
    decreases |a| + |b|
  {
    if a == "" then |b|
    else if b == "" then |a|
    else
      Min(Min(Dist(Init(a), b) + 1, Dist(a, Init(b)) + 1),
          Dist(Init(a), Init(b)) + if Last(a) == Last(b) then 0 else 1)
  }

  // ---------------------------------------------------------------- the program

  method Levenshtein(a: string, b: string) returns (d: nat)
    ensures d == Dist(a, b)
  {
    hide Dist;
    Edges(a, b);
    var la, lb := |a|, |b|;
    if la == 0 {
      return lb;
    }
    if lb == 0 {
      return la;
    }
    var prev, curr := new nat[lb + 1], new nat[lb + 1];
    for j := 0 to lb + 1
      invariant forall k | 0 <= k < j :: prev[k] == k
    {
      prev[j] := j;
    }
    for i := 1 to la + 1
      invariant prev != curr && fresh(prev) && fresh(curr) && prev.Length == curr.Length == lb + 1
      invariant forall k | 0 <= k <= lb :: prev[k] == Dist(a[..i - 1], b[..k])
    {
      curr[0] := i;
      for j := 1 to lb + 1
        invariant forall k | 0 <= k <= lb :: prev[k] == Dist(a[..i - 1], b[..k])
        invariant forall k | 0 <= k < j :: curr[k] == Dist(a[..i], b[..k])
      {
        Cell(a, b, i, j);
        assert prev[j] == Dist(a[..i - 1], b[..j]) && prev[j - 1] == Dist(a[..i - 1], b[..j - 1]);
        assert curr[j - 1] == Dist(a[..i], b[..j - 1]);
        var cost := 1;
        if a[i - 1] == b[j - 1] {
          cost := 0;
        }
        curr[j] := Min(Min(prev[j] + 1, curr[j - 1] + 1), prev[j - 1] + cost);
      }
      prev, curr := curr, prev;
    }
    assert a[..la] == a && b[..lb] == b;
    return prev[lb];
  }

  lemma Edges(a: string, b: string)
    ensures forall i | 0 <= i <= |a| :: Dist(a[..i], b[..0]) == i
    ensures forall j | 0 <= j <= |b| :: Dist(a[..0], b[..j]) == j
    ensures a == "" ==> Dist(a, b) == |b|
    ensures b == "" ==> Dist(a, b) == |a|
  {
  }

  lemma Cell(a: string, b: string, i: nat, j: nat)
    requires 0 < i <= |a| && 0 < j <= |b|
    ensures Dist(a[..i], b[..j]) == Min(Min(Dist(a[..i - 1], b[..j]) + 1, Dist(a[..i], b[..j - 1]) + 1),
                                        Dist(a[..i - 1], b[..j - 1]) + if a[i - 1] == b[j - 1] then 0 else 1)
  {
    hide Dist;
    Unfold(a[..i], b[..j]);
    assert Init(a[..i]) == a[..i - 1] && Init(b[..j]) == b[..j - 1];
  }

  lemma Unfold(a: string, b: string)
    requires a != "" && b != ""
    ensures Dist(a, b) == Min(Min(Dist(Init(a), b) + 1, Dist(a, Init(b)) + 1),
                              Dist(Init(a), Init(b)) + if Last(a) == Last(b) then 0 else 1)
  {
    hide Min, Init, Last;
  }

  // ---------------------------------------------------------------- edit scripts

  /** How to turn one text into another, described from the last letter back. */
  datatype Script = Done | Keep(rest: Script) | Replace(rest: Script, c: char) | Insert(rest: Script, c: char)
      | Delete(rest: Script)

  function Cost(s: Script): nat {
    match s
    case Done => 0
    case Keep(r) => Cost(r)
    case Replace(r, _) => Cost(r) + 1
    case Insert(r, _) => Cost(r) + 1
    case Delete(r) => Cost(r) + 1
  }

  ghost predicate Turns(s: Script, a: string, b: string)
    decreases s
  {
    match s
    case Done => a == "" && b == ""
    case Keep(r) => a != "" && b != "" && Last(a) == Last(b) && Turns(r, Init(a), Init(b))
    case Replace(r, c) => a != "" && b != "" && Last(b) == c && Turns(r, Init(a), Init(b))
    case Insert(r, c) => b != "" && Last(b) == c && Turns(r, a, Init(b))
    case Delete(r) => a != "" && Turns(r, Init(a), b)
  }

  lemma {:induction false} NotCheaper(s: Script, a: string, b: string)
    requires Turns(s, a, b)
    ensures Dist(a, b) <= Cost(s)
    decreases s
  {
    match s
    case Done =>
    case Keep(r) => NotCheaper(r, Init(a), Init(b));
    case Replace(r, c) => NotCheaper(r, Init(a), Init(b));
    case Insert(r, c) => NotCheaper(r, a, Init(b));
    case Delete(r) => NotCheaper(r, Init(a), b);
  }

  function Best(a: string, b: string): (s: Script)
    ensures Turns(s, a, b) && Cost(s) == Dist(a, b)
    decreases |a| + |b|
  {
    if a == "" then if b == "" then Done else Insert(Best(a, Init(b)), Last(b))
    else if b == "" then Delete(Best(Init(a), b))
    else if Dist(a, b) == Dist(Init(a), b) + 1 then Delete(Best(Init(a), b))
    else if Dist(a, b) == Dist(a, Init(b)) + 1 then Insert(Best(a, Init(b)), Last(b))
    else if Last(a) == Last(b) then Keep(Best(Init(a), Init(b)))
    else Replace(Best(Init(a), Init(b)), Last(b))
  }

  /** One script after another. */
  function Then(s: Script, t: Script): Script
    decreases s, t
  {
    if t.Insert? then Insert(Then(s, t.rest), t.c)
    else if s.Delete? then Delete(Then(s.rest, t))
    else if s.Done? || t.Done? then Done
    else if s.Insert? then
      match t
      case Keep(r) => Insert(Then(s.rest, r), s.c)
      case Replace(r, c) => Insert(Then(s.rest, r), c)
      case Delete(r) => Then(s.rest, r)
    else
      match t
      case Keep(r) => if s.Keep? then Keep(Then(s.rest, r)) else Replace(Then(s.rest, r), s.c)
      case Replace(r, c) => Replace(Then(s.rest, r), c)
      case Delete(r) => Delete(Then(s.rest, r))
  }

  lemma {:induction false} ThenTurns(s: Script, t: Script, a: string, b: string, c: string)
    requires Turns(s, a, b) && Turns(t, b, c)
    ensures Turns(Then(s, t), a, c) && Cost(Then(s, t)) <= Cost(s) + Cost(t)
    decreases s, t
  {
    if t.Insert? {
      ThenTurns(s, t.rest, a, b, Init(c));
    } else if s.Delete? {
      ThenTurns(s.rest, t, Init(a), b, c);
    } else if s.Done? || t.Done? {
    } else if s.Insert? {
      ThenTurns(s.rest, t.rest, a, Init(b), if t.Delete? then c else Init(c));
    } else {
      ThenTurns(s.rest, t.rest, Init(a), Init(b), if t.Delete? then c else Init(c));
    }
  }

  // ---------------------------------------------------------------- a metric

  lemma {:induction false} ZeroExactly(a: string, b: string)
    ensures Dist(a, b) == 0 <==> a == b
    decreases |a| + |b|
  {
    if a != "" && b != "" {
      ZeroExactly(Init(a), Init(b));
      assert a == Init(a) + [Last(a)] && b == Init(b) + [Last(b)];
    }
  }

  lemma {:induction false} Symmetric(a: string, b: string)
    ensures Dist(a, b) == Dist(b, a)
    decreases |a| + |b|
  {
    if a != "" && b != "" {
      Symmetric(Init(a), b);
      Symmetric(a, Init(b));
      Symmetric(Init(a), Init(b));
    }
  }

  lemma Triangle(a: string, b: string, c: string)
    ensures Dist(a, c) <= Dist(a, b) + Dist(b, c)
  {
    var s, t := Best(a, b), Best(b, c);
    ThenTurns(s, t, a, b, c);
    NotCheaper(Then(s, t), a, c);
  }

  // ---------------------------------------------------------------- counting single edits

  /** One letter inserted, deleted or replaced, anywhere. */
  ghost predicate OneEdit(a: string, b: string) {
    exists i: nat, c :: EditAt(a, b, i, c)
  }

  ghost predicate EditAt(a: string, b: string, i: nat, c: char) {
    || (i <= |a| && b == a[..i] + [c] + a[i..])
    || (i <= |b| && a == b[..i] + [c] + b[i..])
    || (i < |a| && b == a[i := c])
  }

  /** A chain of texts, each one edit from the one before. */
  ghost predicate Chain(ws: seq<string>, a: string, b: string) {
    && |ws| > 0 && ws[0] == a && ws[|ws| - 1] == b
    && forall k | 0 <= k < |ws| - 1 :: OneEdit(ws[k], ws[k + 1])
  }

  lemma {:induction false} SameSuffix(a: string, b: string, t: string)
    ensures Dist(a + t, b + t) <= Dist(a, b)
    decreases |t|
  {
    hide Dist;
    if t == "" {
      assert a + t == a && b + t == b;
    } else {
      SameSuffix(a, b, Init(t));
      Unfold(a + t, b + t);
      assert Init(a + t) == a + Init(t) && Init(b + t) == b + Init(t);
    }
  }

  lemma OneMoreLetter(s: string, c: char)
    ensures Dist(s, s + [c]) <= 1 && Dist(s + [c], s) <= 1
  {
    assert Init(s + [c]) == s;
    ZeroExactly(s, s);
  }

  lemma OtherLetter(s: string, x: char, c: char)
    ensures Dist(s + [x], s + [c]) <= 1
  {
    hide Dist;
    Unfold(s + [x], s + [c]);
    assert Init(s + [x]) == s && Init(s + [c]) == s;
    ZeroExactly(s, s);
  }

  lemma OneEditCostsOne(a: string, b: string)
    requires OneEdit(a, b)
    ensures Dist(a, b) <= 1
  {
    hide Dist;
    var i: nat, c :| EditAt(a, b, i, c);
    if i <= |a| && b == a[..i] + [c] + a[i..] {
      OneMoreLetter(a[..i], c);
      SameSuffix(a[..i], a[..i] + [c], a[i..]);
      assert a == a[..i] + a[i..];
    } else if i <= |b| && a == b[..i] + [c] + b[i..] {
      OneMoreLetter(b[..i], c);
      SameSuffix(b[..i] + [c], b[..i], b[i..]);
      assert b == b[..i] + b[i..];
    } else {
      OtherLetter(a[..i], a[i], c);
      SameSuffix(a[..i] + [a[i]], a[..i] + [c], a[i + 1..]);
      assert a == a[..i] + [a[i]] + a[i + 1..] && b == a[..i] + [c] + a[i + 1..];
    }
  }

  /** No chain of single edits is shorter than the distance. */
  lemma {:induction false} ChainNotShorter(ws: seq<string>, a: string, b: string)
    requires Chain(ws, a, b)
    ensures Dist(a, b) <= |ws| - 1
    decreases |ws|
  {
    if |ws| == 1 {
      ZeroExactly(a, b);
    } else {
      var mid := ws[|ws| - 2];
      ChainNotShorter(ws[..|ws| - 1], a, mid);
      assert OneEdit(ws[|ws| - 2], ws[|ws| - 1]);
      OneEditCostsOne(mid, b);
      Triangle(a, mid, b);
    }
  }

  function Each(ws: seq<string>, c: char): (r: seq<string>)
    ensures |r| == |ws| && forall k | 0 <= k < |ws| :: r[k] == ws[k] + [c]
  {
    seq(|ws|, k requires 0 <= k < |ws| => ws[k] + [c])
  }

  lemma EachStep(a: string, b: string, c: char)
    requires OneEdit(a, b)
    ensures OneEdit(a + [c], b + [c])
  {
    var i: nat, x :| EditAt(a, b, i, x);
    assert EditAt(a + [c], b + [c], i, x) by {
      if i <= |a| && b == a[..i] + [x] + a[i..] {
        assert b + [c] == (a + [c])[..i] + [x] + (a + [c])[i..];
      } else if i <= |b| && a == b[..i] + [x] + b[i..] {
        assert a + [c] == (b + [c])[..i] + [x] + (b + [c])[i..];
      } else {
        assert b + [c] == (a + [c])[i := x];
      }
    }
  }

  lemma EachChain(ws: seq<string>, a: string, b: string, c: char)
    requires Chain(ws, a, b)
    ensures Chain(Each(ws, c), a + [c], b + [c])
  {
    forall k | 0 <= k < |ws| - 1 ensures OneEdit(Each(ws, c)[k], Each(ws, c)[k + 1]) {
      EachStep(ws[k], ws[k + 1], c);
    }
  }

  /** Some chain is exactly as long as the distance. */
  lemma {:induction false} ShortestChain(s: Script, a: string, b: string) returns (ws: seq<string>)
    requires Turns(s, a, b)
    ensures Chain(ws, a, b) && |ws| <= Cost(s) + 1
    decreases s
  {
    match s
    case Done => ws := [a];
    case Keep(r) =>
      ws := ShortestChain(r, Init(a), Init(b));
      EachChain(ws, Init(a), Init(b), Last(a));
      assert a == Init(a) + [Last(a)] && b == Init(b) + [Last(b)];
      ws := Each(ws, Last(a));
    case Replace(r, c) =>
      ws := ShortestChain(r, Init(a), Init(b));
      EachChain(ws, Init(a), Init(b), Last(a));
      assert a == Init(a) + [Last(a)] && b == Init(b) + [Last(b)];
      var almost := Init(b) + [Last(a)];
      assert b == almost[|almost| - 1 := c];
      assert EditAt(almost, b, |almost| - 1, c);
      ws := Each(ws, Last(a)) + [b];
    case Insert(r, c) =>
      ws := ShortestChain(r, a, Init(b));
      assert b == Init(b)[..|b| - 1] + [c] + Init(b)[|b| - 1..];
      assert EditAt(Init(b), b, |b| - 1, c);
      ws := ws + [b];
    case Delete(r) =>
      ws := ShortestChain(r, Init(a), b);
      assert a == Init(a)[..|a| - 1] + [Last(a)] + Init(a)[|a| - 1..];
      assert EditAt(a, Init(a), |a| - 1, Last(a));
      ws := [a] + ws;
  }

  /** The distance is the length of the shortest chain of single-letter edits. */
  lemma DistanceIsShortest(a: string, b: string) returns (ws: seq<string>)
    ensures Chain(ws, a, b) && |ws| == Dist(a, b) + 1
    ensures forall other | Chain(other, a, b) :: |ws| <= |other|
  {
    ws := ShortestChain(Best(a, b), a, b);
    ChainNotShorter(ws, a, b);
    forall other | Chain(other, a, b) ensures |ws| <= |other| {
      ChainNotShorter(other, a, b);
    }
  }
}
