/** The library sort, as what it returns: the elements rearranged so that none comes after one it should precede. */
module Sorting {

  /** A comparison a sort can work with: asymmetric, and never contradicting itself along a chain. */
  ghost predicate Comparison<T(!new)>(before: (T, T) -> bool) {
    && (forall x, y :: before(x, y) ==> !before(y, x))
    && (forall x, y, z :: !before(y, x) && !before(z, y) ==> !before(z, x))
  }

  ghost predicate Sorted<T>(before: (T, T) -> bool, s: seq<T>) {
    forall i, j | 0 <= i < j < |s| :: !before(s[j], s[i])
  }

  /** Before all elements it need not follow. */
  function Place<T>(before: (T, T) -> bool, x: T, s: seq<T>): (r: seq<T>)
    ensures multiset(r) == multiset(s) + multiset{x}
  {
    if s == [] then [x]
    else if before(s[0], x) then assert s == [s[0]] + s[1..]; [s[0]] + Place(before, x, s[1..])
    else [x] + s
  }

  function Sort<T>(before: (T, T) -> bool, s: seq<T>): (r: seq<T>)
    ensures multiset(r) == multiset(s)
  {
    if s == [] then [] else assert s == [s[0]] + s[1..]; Place(before, s[0], Sort(before, s[1..]))
  }

  lemma {:induction false} PlaceSorted<T(!new)>(before: (T, T) -> bool, x: T, s: seq<T>)
    requires Comparison(before) && Sorted(before, s)
    ensures Sorted(before, Place(before, x, s))
  {
    if s != [] {
      if before(s[0], x) {
        PlaceSorted(before, x, s[1..]);
        var rest := Place(before, x, s[1..]);
        forall j | 0 <= j < |rest| ensures !before(rest[j], s[0]) {
          assert rest[j] in multiset(rest);
          assert rest[j] == x || rest[j] in s[1..];
        }
      } else {
        forall j | 0 <= j < |s| ensures !before(s[j], x) {
          assert j > 0 ==> !before(s[j], s[0]);
        }
      }
    }
  }

  lemma {:induction false} SortSorts<T(!new)>(before: (T, T) -> bool, s: seq<T>)
    requires Comparison(before)
    ensures Sorted(before, Sort(before, s))
  {
    if s != [] {
      SortSorts(before, s[1..]);
      PlaceSorted(before, s[0], Sort(before, s[1..]));
    }
  }

  /** Where ties are between equal elements there is only one sorted arrangement, so the result depends
      neither on the input order nor on the sorting method. */
  lemma {:induction false} SortedUnique<T(!new)>(before: (T, T) -> bool, s: seq<T>, t: seq<T>)
    requires Comparison(before) && Sorted(before, s) && Sorted(before, t) && multiset(s) == multiset(t)
    requires forall x, y | x in s && y in s && !before(x, y) && !before(y, x) :: x == y
    ensures s == t
  {
    hide Sorted, Comparison;
    assert |multiset(t)| == |t| && |multiset(s)| == |s|;
    if s != [] {
      SameHead(before, s, t);
      assert s == [s[0]] + s[1..] && t == [t[0]] + t[1..];
      assert multiset(s[1..]) == multiset(s) - multiset{s[0]};
      assert multiset(t[1..]) == multiset(t) - multiset{t[0]};
      SortedTail(before, s);
      SortedTail(before, t);
      SortedUnique(before, s[1..], t[1..]);
    }
  }

  lemma SortedTail<T>(before: (T, T) -> bool, s: seq<T>)
    requires Sorted(before, s) && s != []
    ensures Sorted(before, s[1..])
  {
  }

  lemma SameHead<T(!new)>(before: (T, T) -> bool, s: seq<T>, t: seq<T>)
    requires Comparison(before) && Sorted(before, s) && Sorted(before, t) && multiset(s) == multiset(t) && s != []
        && t != []
    requires forall x, y | x in s && y in s && !before(x, y) && !before(y, x) :: x == y
    ensures s[0] == t[0]
  {
    hide Sorted, Comparison;
    assert s[0] in multiset(t) && t[0] in multiset(s);
    var i, j :| 0 <= i < |t| && t[i] == s[0] && 0 <= j < |s| && s[j] == t[0];
    HeadFirst(before, s, j);
    HeadFirst(before, t, i);
  }

  lemma HeadFirst<T(!new)>(before: (T, T) -> bool, s: seq<T>, j: nat)
    requires Comparison(before) && Sorted(before, s) && j < |s|
    ensures !before(s[j], s[0])
  {
  }
}
