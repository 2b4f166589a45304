/** Go's `<` on strings: byte-wise lexicographic order. */
module Lex {
  import opened Base

  /** `a < b` on Go strings: the first differing byte decides; a proper prefix comes first. */
  predicate LexLess(a: Bytes, b: Bytes)
  {
    if |a| == 0 then |b| > 0
    else if |b| == 0 then false
    else a[0] < b[0] || (a[0] == b[0] && LexLess(a[1..], b[1..]))
  }

  /** The textbook description of the same order, used as its reference. */
  ghost predicate FirstDifferenceLess(a: Bytes, b: Bytes)
  {
    || (|a| < |b| && a == b[..|a|])
    || exists i :: 0 <= i < |a| && i < |b| && a[..i] == b[..i] && a[i] < b[i]
  }

  lemma {:induction false} LexLessToFirstDifference(a: Bytes, b: Bytes)
    requires LexLess(a, b)
    ensures FirstDifferenceLess(a, b)
  {
    if |a| == 0 {
    } else if a[0] < b[0] {
      assert a[..0] == b[..0];
    } else {
      LexLessToFirstDifference(a[1..], b[1..]);
      if |a[1..]| < |b[1..]| && a[1..] == b[1..][..|a[1..]|] {
        assert a == [a[0]] + a[1..] == [b[0]] + b[1..][..|a[1..]|] == b[..|a|];
      } else {
        var i :| 0 <= i < |a[1..]| && i < |b[1..]| && a[1..][..i] == b[1..][..i] && a[1..][i] < b[1..][i];
        assert a[..i + 1] == [a[0]] + a[1..][..i] == [b[0]] + b[1..][..i] == b[..i + 1];
      }
    }
  }

  lemma {:induction false} FirstDifferenceToLexLess(a: Bytes, b: Bytes)
    requires FirstDifferenceLess(a, b)
    ensures LexLess(a, b)
  {
    if |a| > 0 {
      assert |b| > 0;
      if |a| < |b| && a == b[..|a|] {
        assert a[0] == b[0];
        assert a[1..] == b[1..][..|a[1..]|];
        FirstDifferenceToLexLess(a[1..], b[1..]);
      } else {
        var i :| 0 <= i < |a| && i < |b| && a[..i] == b[..i] && a[i] < b[i];
        if i > 0 {
          assert a[0] == a[..i][0] == b[..i][0] == b[0];
          assert a[1..][..i - 1] == a[..i][1..] == b[..i][1..] == b[1..][..i - 1];
          assert a[1..][i - 1] < b[1..][i - 1];
          FirstDifferenceToLexLess(a[1..], b[1..]);
        }
      }
    }
  }

  /** LexLess is exactly the textbook order: both directions. */
  lemma LexLessMeaning(a: Bytes, b: Bytes)
    ensures LexLess(a, b) <==> FirstDifferenceLess(a, b)
  {
    if LexLess(a, b) {
      LexLessToFirstDifference(a, b);
    }
    if FirstDifferenceLess(a, b) {
      FirstDifferenceToLexLess(a, b);
    }
  }

  lemma {:induction false} LexIrreflexive(a: Bytes)
    ensures !LexLess(a, a)
  {
    if |a| > 0 {
      LexIrreflexive(a[1..]);
    }
  }

  lemma {:induction false} LexTransitive(a: Bytes, b: Bytes, c: Bytes)
    requires LexLess(a, b) && LexLess(b, c)
    ensures LexLess(a, c)
  {
    if |a| > 0 && a[0] == b[0] && b[0] == c[0] {
      LexTransitive(a[1..], b[1..], c[1..]);
    }
  }

  /** Any two different strings are ordered one way or the other. */
  lemma {:induction false} LexTotal(a: Bytes, b: Bytes)
    ensures a == b || LexLess(a, b) || LexLess(b, a)
  {
    if |a| > 0 && |b| > 0 && a[0] == b[0] {
      LexTotal(a[1..], b[1..]);
      if a[1..] == b[1..] {
        assert a == [a[0]] + a[1..] == [b[0]] + b[1..] == b;
      }
    }
  }

  lemma LexAsymmetric(a: Bytes, b: Bytes)
    requires LexLess(a, b)
    ensures !LexLess(b, a)
  {
    if LexLess(b, a) {
      LexTransitive(a, b, a);
      LexIrreflexive(a);
    }
  }
}
