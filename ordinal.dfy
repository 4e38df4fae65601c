/** Python's `<` on `str`: lexicographic comparison of code points, where a
    proper prefix is smaller than the longer string. */
module Ordinal {

  predicate Less(a: string, b: string)
  {
    if |b| == 0 then false
    else if |a| == 0 then true
    else if a[0] != b[0] then a[0] < b[0]
    else Less(a[1..], b[1..])
  }

  /** The textbook definition: `a` is a proper prefix of `b`, or the two
      agree up to a first position where `a` has the smaller character. */
  predicate LessByFirstDifference(a: string, b: string)
  {
    (|a| < |b| && a == b[..|a|]) ||
    exists k :: 0 <= k < |a| && k < |b| && a[..k] == b[..k] && a[k] < b[k]
  }

  lemma {:induction false} LessIsFirstDifference(a: string, b: string)
    ensures Less(a, b) <==> LessByFirstDifference(a, b)
    decreases |a|
  {
    if |b| == 0 {
      assert !LessByFirstDifference(a, b);
    } else if |a| == 0 {
      assert a == b[..0];
    } else if a[0] != b[0] {
      FirstDifferenceAtHead(a, b);
    } else {
      LessIsFirstDifference(a[1..], b[1..]);
      FirstDifferenceOfTails(a, b);
    }
  }

  lemma FirstDifferenceAtHead(a: string, b: string)
    requires |a| > 0 && |b| > 0 && a[0] != b[0]
    ensures LessByFirstDifference(a, b) <==> a[0] < b[0]
  {
    if a[0] < b[0] {
      assert a[..0] == b[..0];
    }
    if k :| 0 <= k < |a| && k < |b| && a[..k] == b[..k] && a[k] < b[k] {
      if k > 0 {
        assert a[..k][0] == b[..k][0];
      }
    }
  }

  lemma FirstDifferenceOfTails(a: string, b: string)
    requires |a| > 0 && |b| > 0 && a[0] == b[0]
    ensures LessByFirstDifference(a, b) <==> LessByFirstDifference(a[1..], b[1..])
  {
    var a', b' := a[1..], b[1..];
    if |a'| < |b'| && a' == b'[..|a'|] {
      assert a == [a[0]] + a' && b[..|a|] == [b[0]] + b'[..|a'|];
    }
    if |a| < |b| && a == b[..|a|] {
      assert a' == b[..|a|][1..];
    }
    if k :| 0 <= k < |a'| && k < |b'| && a'[..k] == b'[..k] && a'[k] < b'[k] {
      assert a[..k + 1] == [a[0]] + a'[..k];
      assert b[..k + 1] == [b[0]] + b'[..k];
    }
    if k :| 0 <= k < |a| && k < |b| && a[..k] == b[..k] && a[k] < b[k] {
      assert k > 0;
      assert a'[..k - 1] == a[..k][1..];
      assert b'[..k - 1] == b[..k][1..];
    }
  }

  lemma {:induction false} LessIrreflexive(a: string)
    ensures !Less(a, a)
    decreases |a|
  {
    if |a| > 0 {
      LessIrreflexive(a[1..]);
    }
  }

  lemma {:induction false} LessTransitive(a: string, b: string, c: string)
    requires Less(a, b) && Less(b, c)
    ensures Less(a, c)
    decreases |a|
  {
    if |a| > 0 && a[0] == b[0] && b[0] == c[0] {
      LessTransitive(a[1..], b[1..], c[1..]);
    }
  }

  /** Any two strings are equal or ordered one way round. */
  lemma {:induction false} LessTrichotomy(a: string, b: string)
    ensures a == b || Less(a, b) || Less(b, a)
    decreases |a|
  {
    if |a| > 0 && |b| > 0 && a[0] == b[0] {
      LessTrichotomy(a[1..], b[1..]);
      if a[1..] == b[1..] {
        assert a == [a[0]] + a[1..];
        assert b == [b[0]] + b[1..];
      }
    }
  }

  lemma LessAsymmetric(a: string, b: string)
    requires Less(a, b)
    ensures !Less(b, a)
  {
    if Less(b, a) {
      LessTransitive(a, b, a);
      LessIrreflexive(a);
    }
  }
}
