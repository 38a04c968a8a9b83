/** Go's ordering of strings, and the greatest name of a non-empty set of names.

    Go compares strings byte by byte.  On well-formed UTF-8 that order coincides
    with the order of the code points, so comparing `char`s one by one gives the
    same answer as Go's `<` and `>` on the encoded names. */
module LexOrder {

  /** `a` sorts strictly before `b`: the first differing character is smaller in
      `a`, or `a` is a proper prefix of `b`. */
  predicate Less(a: string, b: string)
    decreases |a|
  {
    |b| > 0 && (|a| == 0 || a[0] < b[0] || (a[0] == b[0] && Less(a[1..], b[1..])))
  }

  /** `a` and `b` agree on their first `i` characters, and at position `i` the
      string `a` has ended or holds the smaller character while `b` goes on. */
  predicate FirstDifferenceAt(a: string, b: string, i: nat)
  {
    i <= |a| && i < |b| && a[..i] == b[..i] && (i == |a| || a[i] < b[i])
  }

  /** `Less` is the usual lexicographic order: it holds exactly when there is a
      first position where `a` runs out or is smaller while `b` continues. */
  lemma {:induction false} LessIsFirstDifference(a: string, b: string)
    ensures Less(a, b) <==> exists i: nat :: FirstDifferenceAt(a, b, i)
    decreases |a|
  {
    if |b| == 0 {
    } else if |a| == 0 || a[0] < b[0] {
      assert FirstDifferenceAt(a, b, 0);
    } else if a[0] != b[0] {
      forall i: nat
        ensures !FirstDifferenceAt(a, b, i)
      {
        if 0 < i <= |a| && i <= |b| {
          assert a[..i][0] == a[0] && b[..i][0] == b[0];
        }
      }
    } else {
      LessIsFirstDifference(a[1..], b[1..]);
      if j: nat :| FirstDifferenceAt(a[1..], b[1..], j) {
        assert a[..j + 1] == [a[0]] + a[1..][..j];
        assert b[..j + 1] == [b[0]] + b[1..][..j];
        assert FirstDifferenceAt(a, b, j + 1);
      }
      if i: nat :| FirstDifferenceAt(a, b, i) {
        assert a[1..][..i - 1] == a[..i][1..];
        assert b[1..][..i - 1] == b[..i][1..];
        assert FirstDifferenceAt(a[1..], b[1..], i - 1);
      }
    }
  }

  predicate LessOrEqual(a: string, b: string)
  {
    a == b || Less(a, b)
  }

  lemma {:induction false} LessIrreflexive(a: string)
    ensures !Less(a, a)
    decreases |a|
  {
    if |a| > 0 {
      LessIrreflexive(a[1..]);
    }
  }

  lemma {:induction false} LessAsymmetric(a: string, b: string)
    requires Less(a, b)
    ensures !Less(b, a)
    decreases |a|
  {
    if |a| > 0 && a[0] == b[0] {
      LessAsymmetric(a[1..], b[1..]);
    }
  }

  lemma {:induction false} LessTransitive(a: string, b: string, c: string)
    requires Less(a, b) && Less(b, c)
    ensures Less(a, c)
    decreases |a|
  {
    if |a| > 0 && a[0] == b[0] && b[0] == c[0] {
      LessTransitive(a[1..], b[1..], c[1..]);
    }
  }

  /** Any two distinct strings are ordered one way or the other. */
  lemma {:induction false} LessTotal(a: string, b: string)
    ensures a == b || Less(a, b) || Less(b, a)
    decreases |a|
  {
    if |a| > 0 && |b| > 0 && a[0] == b[0] {
      LessTotal(a[1..], b[1..]);
      if a[1..] == b[1..] {
        assert a == [a[0]] + a[1..] && b == [b[0]] + b[1..];
      }
    }
  }

  lemma LessOrEqualTransitive(a: string, b: string, c: string)
    requires LessOrEqual(a, b) && LessOrEqual(b, c)
    ensures LessOrEqual(a, c)
  {
    if a != b && b != c {
      LessTransitive(a, b, c);
    }
  }

  /** Descending order, as `sort.SliceStable` with the comparator
      `fs[i].Name() > fs[j].Name()` leaves a slice of names. */
  ghost predicate SortedDescending(s: seq<string>)
  {
    forall p, q :: 0 <= p < q < |s| ==> LessOrEqual(s[q], s[p])
  }

  predicate IsGreatest(names: set<string>, g: string)
  {
    g in names && forall n :: n in names ==> LessOrEqual(n, g)
  }

  /** The lexicographically greatest of a non-empty set of names. */
  ghost function Greatest(names: set<string>): (g: string)
    requires names != {}
    ensures IsGreatest(names, g)
    decreases names
  {
    var n :| n in names;
    if names == {n} then n
    else
      var rest := Greatest(names - {n});
      if Less(n, rest) then rest
      else
        GreaterThanRest(names - {n}, rest, n);
        n
  }

  /** A name not below the greatest of a set bounds the whole set. */
  lemma GreaterThanRest(names: set<string>, g: string, n: string)
    requires IsGreatest(names, g) && !Less(n, g)
    ensures forall m :: m in names ==> LessOrEqual(m, n)
  {
    LessTotal(n, g);
    forall m | m in names
      ensures LessOrEqual(m, n)
    {
      LessOrEqualTransitive(m, g, n);
    }
  }

  /** At most one member of a set bounds all the others, so any such member is
      the one `Greatest` picks. */
  lemma GreatestUnique(names: set<string>, g: string)
    requires IsGreatest(names, g)
    ensures g == Greatest(names)
  {
    var h := Greatest(names);
    if g != h {
      assert Less(g, h) && Less(h, g);
      LessAsymmetric(g, h);
    }
  }

  /** The head of a descending listing of a non-empty set is its greatest name. */
  lemma SortedHeadIsGreatest(s: seq<string>, names: set<string>)
    requires names != {}
    requires SortedDescending(s) && multiset(s) == multiset(names)
    ensures |s| > 0 && s[0] == Greatest(names)
  {
    var n :| n in names;
    assert n in multiset(s);
    assert s[0] in multiset(s);
    forall m | m in names
      ensures LessOrEqual(m, s[0])
    {
      assert m in multiset(s);
      var k :| 0 <= k < |s| && s[k] == m;
      if k > 0 {
        assert LessOrEqual(s[k], s[0]);
      }
    }
    GreatestUnique(names, s[0]);
  }
}
