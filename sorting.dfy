/** Sorting by an integer key, standing for `List<T>.Sort` with a key
    comparison. Only its contract (sorted, and a permutation of the input) is
    relied on elsewhere; the order it gives to equal keys is not. */
module Sorting {

  ghost predicate SortedBy<T>(s: seq<T>, key: T -> int)
  {
    forall p, q :: 0 <= p < q < |s| ==> key(s[p]) <= key(s[q])
  }

  ghost predicate Distinct<T>(s: seq<T>)
  {
    forall p, q :: 0 <= p < q < |s| ==> s[p] != s[q]
  }

  /** `x` inserted into the sorted `s` in front of the first larger key. */
  function InsertBy<T>(x: T, s: seq<T>, key: T -> int): (r: seq<T>)
    requires SortedBy(s, key)
    ensures SortedBy(r, key)
    ensures multiset(r) == multiset(s) + multiset{x}
    ensures r[0] == x || (|s| > 0 && r[0] == s[0])
  {
    if s == [] || key(x) <= key(s[0]) then [x] + s
    else
      assert s == [s[0]] + s[1..];
      [s[0]] + InsertBy(x, s[1..], key)
  }

  /** The elements of `s` rearranged in ascending order of `key`. */
  function SortBy<T>(s: seq<T>, key: T -> int): (r: seq<T>)
    ensures SortedBy(r, key)
    ensures multiset(r) == multiset(s)
  {
    if s == [] then [] else
      assert s == [s[0]] + s[1..];
      InsertBy(s[0], SortBy(s[1..], key), key)
  }

  /** A sequence without repetitions counts every value at most once. */
  lemma {:induction false} DistinctCountsOnce<T>(s: seq<T>, x: T)
    requires Distinct(s)
    ensures multiset(s)[x] <= 1
  {
    if s != [] {
      assert s == [s[0]] + s[1..];
      DistinctCountsOnce(s[1..], x);
      if x == s[0] {
        assert x !in s[1..];
      }
    }
  }

  /** A rearrangement of a sequence without repetitions has none either. */
  lemma PermutationKeepsDistinct<T>(a: seq<T>, b: seq<T>)
    requires multiset(a) == multiset(b)
    requires Distinct(a)
    ensures Distinct(b)
  {
    forall p, q | 0 <= p < q < |b|
      ensures b[p] != b[q]
    {
      if b[p] == b[q] {
        var x := b[p];
        assert b == b[..p] + [x] + b[p+1..q] + [x] + b[q+1..];
        assert multiset(b)[x] >= 2;
        DistinctCountsOnce(a, x);
        assert false;
      }
    }
  }
}
