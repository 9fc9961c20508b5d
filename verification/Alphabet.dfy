/** Alphabetical order of texts. */
module Alphabet {
  import opened Sorting

  /** Alphabetical order, by code. */
  predicate Less(a: string, b: string) {
    b != "" && (a == "" || a[0] < b[0] || (a[0] == b[0] && Less(a[1..], b[1..])))
  }

  lemma {:induction false} LessTrichotomy(a: string, b: string)
    ensures a == b || Less(a, b) || Less(b, a)
    ensures !(Less(a, b) && Less(b, a))
  {
    if a != "" && b != "" && a[0] == b[0] {
      LessTrichotomy(a[1..], b[1..]);
      assert a == [a[0]] + a[1..] && b == [b[0]] + b[1..];
    }
  }

  lemma {:induction false} LessTransitive(a: string, b: string, c: string)
    requires Less(a, b) && Less(b, c)
    ensures Less(a, c)
  {
    if a != "" && a[0] == b[0] == c[0] {
      LessTransitive(a[1..], b[1..], c[1..]);
    }
  }

  lemma LessCompares()
    ensures Comparison(Less)
  {
    forall x, y ensures Less(x, y) ==> !Less(y, x) {
      LessTrichotomy(x, y);
    }
    forall x, y, z | !Less(y, x) && !Less(z, y) ensures !Less(z, x) {
      LessTrichotomy(x, y);
      LessTrichotomy(y, z);
      LessTrichotomy(x, z);
      if Less(x, y) && Less(y, z) { LessTransitive(x, y, z); }
    }
  }

  /** The texts agree before place `i`, and there the first is smaller. */
  predicate SmallerAt(a: string, b: string, i: nat) {
    i < |a| && i < |b| && a[..i] == b[..i] && a[i] < b[i]
  }

  lemma {:induction false} LessIf(a: string, b: string, i: nat)
    requires a < b || SmallerAt(a, b, i)
    ensures Less(a, b)
  {
    assert i > 0 && SmallerAt(a, b, i) ==> a[..i][0] == b[..i][0];
    if a != "" && a[0] == b[0] {
      if a < b {
        LessIf(a[1..], b[1..], 0);
      } else {
        assert a[..i][1..] == a[1..][..i - 1] && b[..i][1..] == b[1..][..i - 1];
        LessIf(a[1..], b[1..], i - 1);
      }
    }
  }

  lemma {:induction false} OnlyIf(a: string, b: string) returns (i: nat)
    requires Less(a, b)
    ensures a < b || SmallerAt(a, b, i)
  {
    i := 0;
    if a != "" && a[0] == b[0] {
      i := OnlyIf(a[1..], b[1..]);
      assert a == [a[0]] + a[1..] && b == [b[0]] + b[1..];
      if !(a[1..] < b[1..]) {
        assert a[..i + 1] == [a[0]] + a[1..][..i] && b[..i + 1] == [b[0]] + b[1..][..i];
      }
      i := i + 1;
    }
  }

  /** One text is before another if it is a proper beginning of it, or smaller at the first difference. */
  lemma LessMeans(a: string, b: string)
    ensures Less(a, b) <==> a < b || exists i: nat :: SmallerAt(a, b, i)
  {
    hide Less;
    if Less(a, b) { var i := OnlyIf(a, b); }
    if a < b { LessIf(a, b, 0); }
    if i: nat :| SmallerAt(a, b, i) { LessIf(a, b, i); }
  }
}
