/** Python's ordering of `str` values: lexicographic by code point, a proper
    prefix sorting before every extension of it. Dafny's own `<` on sequences
    means "proper prefix", so the order used by `>` at lines 58 and 86 of the
    script is defined here and proved to be a strict total order. */
module LexOrder {

  /** `a < b` on Python strings. */
  predicate Less(a: string, b: string)
    decreases |a|
  {
    if |a| == 0 then |b| > 0
    else if |b| == 0 then false
    else if a[0] != b[0] then a[0] < b[0]
    else Less(a[1..], b[1..])
  }

  /** The textbook definition: `a` is a proper prefix of `b`, or the two agree
      up to a first differing position where `a` has the smaller character. */
  ghost predicate LessByFirstDifference(a: string, b: string)
  {
    (|a| < |b| && a == b[..|a|])
    || (exists k {:trigger a[k], b[k]} :: 0 <= k < |a| && k < |b| && a[..k] == b[..k] && a[k] < b[k])
  }

  lemma {:induction false} LessIrreflexive(a: string)
    ensures !Less(a, a)
    decreases |a|
  {
    if |a| > 0 {
      LessIrreflexive(a[1..]);
    }
  }

  lemma {:induction false} LessAsymmetric(a: string, b: string)
    ensures Less(a, b) ==> !Less(b, a)
    decreases |a|
  {
    if |a| > 0 && |b| > 0 && a[0] == b[0] {
      LessAsymmetric(a[1..], b[1..]);
    }
  }

  lemma {:induction false} LessTransitive(a: string, b: string, c: string)
    requires Less(a, b) && Less(b, c)
    ensures Less(a, c)
    decreases |a|
  {
    if |a| > 0 && a[0] == b[0] && b[0] == c[0] {
      LessTransitive(a[1..], b[1..], c[1..]);
    }
  }

  /** Any two distinct strings are ordered one way or the other. */
  lemma {:induction false} LessConnected(a: string, b: string)
    ensures a == b || Less(a, b) || Less(b, a)
    decreases |a|
  {
    if |a| > 0 && |b| > 0 && a[0] == b[0] {
      LessConnected(a[1..], b[1..]);
      if a[1..] == b[1..] {
        assert a == [a[0]] + a[1..] && b == [b[0]] + b[1..];
      }
    }
  }

  /** Exactly one of `a == b`, `a < b`, `b < a` holds. */
  lemma Trichotomy(a: string, b: string)
    ensures a == b <==> !Less(a, b) && !Less(b, a)
    ensures Less(a, b) ==> !Less(b, a)
  {
    LessConnected(a, b);
    LessAsymmetric(a, b);
    if a == b {
      LessIrreflexive(a);
    }
  }

  lemma {:induction false} LessHasFirstDifference(a: string, b: string)
    requires Less(a, b)
    ensures LessByFirstDifference(a, b)
    decreases |a|
  {
    if |a| == 0 {
      assert a == b[..0];
    } else if a[0] != b[0] {
      assert a[..0] == b[..0] && a[0] < b[0];
    } else {
      var a', b' := a[1..], b[1..];
      LessHasFirstDifference(a', b');
      if |a'| < |b'| && a' == b'[..|a'|] {
        assert a == [a[0]] + a' && b[..|a|] == [b[0]] + b'[..|a'|];
      } else {
        var k :| 0 <= k < |a'| && k < |b'| && a'[..k] == b'[..k] && a'[k] < b'[k];
        assert a[..k + 1] == [a[0]] + a'[..k] && b[..k + 1] == [b[0]] + b'[..k];
        assert a[k + 1] == a'[k] && b[k + 1] == b'[k];
      }
    }
  }

  lemma {:induction false} FirstDifferenceIsLess(a: string, b: string)
    requires LessByFirstDifference(a, b)
    ensures Less(a, b)
    decreases |a|
  {
    if |a| < |b| && a == b[..|a|] {
      if |a| > 0 {
        assert a[0] == b[0];
        assert a[1..] == b[1..][..|a| - 1];
        FirstDifferenceIsLess(a[1..], b[1..]);
      }
    } else {
      var k :| 0 <= k < |a| && k < |b| && a[..k] == b[..k] && a[k] < b[k];
      if k > 0 {
        assert a[0] == a[..k][0] && b[0] == b[..k][0];
        assert a[1..][..k - 1] == a[..k][1..] && b[1..][..k - 1] == b[..k][1..];
        assert a[1..][k - 1] == a[k] && b[1..][k - 1] == b[k];
        FirstDifferenceIsLess(a[1..], b[1..]);
      }
    }
  }

  /** The recursive definition agrees with the first-difference definition. */
  lemma LessIffFirstDifference(a: string, b: string)
    ensures Less(a, b) <==> LessByFirstDifference(a, b)
  {
    if Less(a, b) {
      LessHasFirstDifference(a, b);
    }
    if LessByFirstDifference(a, b) {
      FirstDifferenceIsLess(a, b);
    }
  }

  /** Version tags are not compared numerically. */
  lemma VersionExamples()
    ensures Less("v10", "v2")
    ensures Less("v1.10.0", "v1.2.0")
    ensures Less("v1", "v1.0")
  {
  }

  /** The two sentinels take part in the order like any other string. */
  lemma SentinelExamples()
    ensures Less("Error", "Not Found")
    ensures Less("Error", "v3")
    ensures Less("Not Found", "v3")
    ensures Less("1.4.2", "Error")
  {
  }
}
