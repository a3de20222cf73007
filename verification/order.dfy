/**
 Orderings used by the dashboard's data path: the numeric order on
 timestamps and Python's code-point lexicographic order on strings (the
 order in which a default `groupby` emits its keys).
 */
module Order {

  /** A sequence of timestamps in strictly increasing order (sorted, no duplicates). */
  predicate StrictlyIncreasing(s: seq<int>) {
    forall i, j :: 0 <= i < j < |s| ==> s[i] < s[j]
  }

  /** Python's `a < b` on `str`: lexicographic by code point, a proper prefix first. */
  predicate StrLess(a: string, b: string)
    decreases |a|
  {
    if |a| == 0 then |b| > 0
    else if |b| == 0 then false
    else a[0] < b[0] || (a[0] == b[0] && StrLess(a[1..], b[1..]))
  }

  /** A sequence of strings in strictly increasing StrLess order. */
  predicate StrStrictlySorted(s: seq<string>) {
    forall i, j :: 0 <= i < j < |s| ==> StrLess(s[i], s[j])
  }

  lemma {:induction false} StrLessIrreflexive(a: string)
    ensures !StrLess(a, a)
    decreases |a|
  {
    if |a| > 0 {
      StrLessIrreflexive(a[1..]);
    }
  }

  lemma {:induction false} StrLessTransitive(a: string, b: string, c: string)
    requires StrLess(a, b) && StrLess(b, c)
    ensures StrLess(a, c)
    decreases |a|
  {
    if |a| > 0 && a[0] == b[0] && b[0] == c[0] {
      StrLessTransitive(a[1..], b[1..], c[1..]);
    }
  }

  /** Any two distinct strings are comparable. */
  lemma {:induction false} StrLessTotal(a: string, b: string)
    ensures a == b || StrLess(a, b) || StrLess(b, a)
    decreases |a|
  {
    if |a| > 0 && |b| > 0 && a[0] == b[0] {
      StrLessTotal(a[1..], b[1..]);
      if a[1..] == b[1..] {
        assert a == [a[0]] + a[1..] && b == [b[0]] + b[1..];
      }
    }
  }

  lemma StrLessAsymmetric(a: string, b: string)
    requires StrLess(a, b)
    ensures !StrLess(b, a)
  {
    if StrLess(b, a) {
      StrLessTransitive(a, b, a);
      StrLessIrreflexive(a);
    }
  }

  /**
   Two strictly increasing timestamp sequences holding the same elements are
   equal: a sorted, de-duplicated axis is determined by its set of elements.
   */
  lemma {:induction false} StrictlyIncreasingUnique(a: seq<int>, b: seq<int>)
    requires StrictlyIncreasing(a) && StrictlyIncreasing(b)
    requires forall x :: x in a <==> x in b
    ensures a == b
    decreases |a|
  {
    SameElementsEmpty(a, b);
    if |a| > 0 {
      assert a[0] in a && a[0] in b;
      assert |b| > 0 && b[0] in b && b[0] in a;
      assert a[0] == b[0];
      var a', b' := a[1..], b[1..];
      assert forall x :: x in a' <==> x in b' by {
        forall x | x in a' ensures x in b' {
          assert x != a[0];
          assert x in b;
        }
        forall x | x in b' ensures x in a' {
          assert x != b[0];
          assert x in a;
        }
      }
      StrictlyIncreasingUnique(a', b');
      assert a == [a[0]] + a' && b == [b[0]] + b';
    }
  }

  /**
   Two StrLess-sorted string sequences holding the same elements are equal:
   a sorted list of distinct keys is determined by its set of keys.
   */
  lemma {:induction false} StrStrictlySortedUnique(a: seq<string>, b: seq<string>)
    requires StrStrictlySorted(a) && StrStrictlySorted(b)
    requires forall x :: x in a <==> x in b
    ensures a == b
    decreases |a|
  {
    SameElementsEmpty(a, b);
    if |a| > 0 {
      assert a[0] in a && a[0] in b;
      assert |b| > 0 && b[0] in b && b[0] in a;
      assert a[0] == b[0] by {
        SortedHeadIsLeast(b, a[0]);
        SortedHeadIsLeast(a, b[0]);
        if a[0] != b[0] {
          StrLessAsymmetric(b[0], a[0]);
        }
      }
      var a', b' := a[1..], b[1..];
      assert forall x :: x in a' <==> x in b' by {
        forall x | x in a' ensures x in b' {
          assert StrLess(a[0], x);
          StrLessIrreflexive(x);
          assert x in b;
        }
        forall x | x in b' ensures x in a' {
          assert StrLess(b[0], x);
          StrLessIrreflexive(x);
          assert x in a;
        }
      }
      StrStrictlySortedUnique(a', b');
      assert a == [a[0]] + a' && b == [b[0]] + b';
    }
  }

  /** The head of a StrLess-sorted sequence is below every other element. */
  lemma SortedHeadIsLeast(s: seq<string>, x: string)
    requires StrStrictlySorted(s) && x in s
    ensures x == s[0] || StrLess(s[0], x)
  {
  }

  /** Sequences with the same elements are empty together. */
  lemma SameElementsEmpty<T>(a: seq<T>, b: seq<T>)
    requires forall x :: x in a <==> x in b
    ensures |a| == 0 <==> |b| == 0
  {
    if |a| > 0 {
      assert a[0] in b;
    }
    if |b| > 0 {
      assert b[0] in a;
    }
  }

  /** A duplicate-free sequence has as many distinct elements as entries. */
  lemma {:induction false} DistinctCard<T>(s: seq<T>)
    requires forall i, j :: 0 <= i < j < |s| ==> s[i] != s[j]
    ensures |set x | x in s| == |s|
    decreases |s|
  {
    if |s| > 0 {
      var tail := s[1..];
      DistinctCard(tail);
      assert (set x | x in s) == (set x | x in tail) + {s[0]};
      assert s[0] !in (set x | x in tail);
    }
  }
}
