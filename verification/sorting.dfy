/** Sorting a list of strings by a caller-supplied "less" comparator, the
    contract of Go's `sort.Sort` over a `sort.Interface`. The comparator used
    for the asset lists (a natural-order comparison) is a parameter here. */
module Sorting {

  /** The requirement `sort.Sort` places on `Less`: a strict weak ordering,
      i.e. asymmetric, with "not less" transitive. */
  ghost predicate StrictWeakOrder(less: (string, string) -> bool) {
    && (forall a, b :: less(a, b) ==> !less(b, a))
    && (forall a, b, c :: !less(b, a) && !less(c, b) ==> !less(c, a))
  }

  /** A strict weak ordering in which distinct strings are never equivalent. */
  ghost predicate StrictTotalOrder(less: (string, string) -> bool) {
    && StrictWeakOrder(less)
    && (forall a, b :: a != b ==> less(a, b) || less(b, a))
  }

  /** No element is less than one that precedes it. */
  ghost predicate Sorted(s: seq<string>, less: (string, string) -> bool) {
    forall i, j :: 0 <= i < j < |s| ==> !less(s[j], s[i])
  }

  /** Prepending an element that no later element is less than keeps a
      list sorted. */
  lemma SortedCons(y: string, t: seq<string>, less: (string, string) -> bool)
    requires Sorted(t, less)
    requires forall k :: 0 <= k < |t| ==> !less(t[k], y)
    ensures Sorted([y] + t, less)
  {
    var r := [y] + t;
    forall i, j | 0 <= i < j < |r|
      ensures !less(r[j], r[i])
    {
      if i > 0 {
        assert r[i] == t[i - 1] && r[j] == t[j - 1];
      } else {
        assert r[j] == t[j - 1];
      }
    }
  }

  /** Put `x` into the sorted list `s` before the first element that is not
      less than it. */
  function Insert(x: string, s: seq<string>, less: (string, string) -> bool): (r: seq<string>)
    requires StrictWeakOrder(less) && Sorted(s, less)
    ensures multiset(r) == multiset(s) + multiset{x}
    ensures Sorted(r, less)
  {
    if |s| == 0 then [x]
    else if !less(s[0], x) then
      assert forall k :: 0 <= k < |s| ==> !less(s[k], x) by {
        forall k | 0 <= k < |s|
          ensures !less(s[k], x)
        {
          if k > 0 {
            assert !less(s[k], s[0]);
          }
        }
      }
      SortedCons(x, s, less);
      [x] + s
    else
      var rest := Insert(x, s[1..], less);
      assert s == [s[0]] + s[1..];
      assert forall k :: 0 <= k < |rest| ==> !less(rest[k], s[0]) by {
        forall k | 0 <= k < |rest|
          ensures !less(rest[k], s[0])
        {
          assert rest[k] in multiset(rest);
          if rest[k] != x {
            assert rest[k] in multiset(s[1..]);
            var m :| 0 <= m < |s[1..]| && s[1..][m] == rest[k];
            assert s[m + 1] == rest[k];
          }
        }
      }
      SortedCons(s[0], rest, less);
      [s[0]] + rest
  }

  /** The list sorted by `less`: a permutation of `s` in which no element is
      less than an earlier one. */
  function SortBy(s: seq<string>, less: (string, string) -> bool): (r: seq<string>)
    requires StrictWeakOrder(less)
    ensures multiset(r) == multiset(s)
    ensures |r| == |s|
    ensures Sorted(r, less)
  {
    if |s| == 0 then []
    else
      assert s == [s[0]] + s[1..];
      Insert(s[0], SortBy(s[1..], less), less)
  }

  /** Dropping the head of a sorted list leaves it sorted. */
  lemma SortedTail(s: seq<string>, less: (string, string) -> bool)
    requires |s| > 0 && Sorted(s, less)
    ensures Sorted(s[1..], less)
  {
    forall i, j | 0 <= i < j < |s| - 1
      ensures !less(s[1..][j], s[1..][i])
    {
      assert s[1..][j] == s[j + 1] && s[1..][i] == s[i + 1];
    }
  }

  /** The head of a sorted list is not preceded by any of its elements. */
  lemma SortedHeadLeast(s: seq<string>, y: string, less: (string, string) -> bool)
    requires StrictWeakOrder(less)
    requires |s| > 0 && Sorted(s, less) && y in multiset(s)
    ensures !less(y, s[0])
  {
    var k :| 0 <= k < |s| && s[k] == y;
    if k > 0 {
      assert !less(s[k], s[0]);
    }
  }

  /** Under a strict total order a multiset has only one sorted arrangement:
      the asset order does not depend on the sorting algorithm, nor on the
      order in which the directory was listed. */
  lemma {:induction false} SortedUnique(a: seq<string>, b: seq<string>, less: (string, string) -> bool)
    requires StrictTotalOrder(less)
    requires Sorted(a, less) && Sorted(b, less)
    requires multiset(a) == multiset(b)
    ensures a == b
    decreases |a|
  {
    if |a| == 0 {
      assert |b| == |multiset(b)| == 0;
    } else {
      assert |b| == |multiset(b)| == |multiset(a)| == |a|;
      SortedHeadLeast(b, a[0], less);
      SortedHeadLeast(a, b[0], less);
      assert a[0] == b[0];
      assert a == [a[0]] + a[1..];
      assert b == [b[0]] + b[1..];
      assert multiset(a[1..]) == multiset(b[1..]) by {
        assert multiset(a) == multiset{a[0]} + multiset(a[1..]);
        assert multiset(b) == multiset{b[0]} + multiset(b[1..]);
        forall y
          ensures multiset(a[1..])[y] == multiset(b[1..])[y]
        {
          assert multiset(a)[y] == multiset(b)[y];
        }
      }
      SortedTail(a, less);
      SortedTail(b, less);
      SortedUnique(a[1..], b[1..], less);
    }
  }
}
