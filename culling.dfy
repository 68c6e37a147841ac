/** The removal half of `KillHalfOfTheGeneration`: deleting a set of positions
    from a list with `RemoveAt`, highest position first. */
module Culling {
  import opened Sorting

  /** `s` with the positions listed in `removed` deleted, the others kept in
      their original order. Nothing is deleted when no listed position lies
      inside `s`, and the last element survives when its position is not
      listed. */
  function Without<T>(s: seq<T>, removed: seq<int>): (r: seq<T>)
    ensures |r| <= |s|
    ensures (forall x :: x in removed ==> x < 0 || x >= |s|) ==> r == s
    ensures |s| > 0 && |s| - 1 !in removed ==> |r| > 0 && r[|r| - 1] == s[|s| - 1]
  {
    if s == [] then []
    else
      var last := |s| - 1;
      assert s == s[..last] + [s[last]];
      Without(s[..last], removed) + (if last in removed then [] else [s[last]])
  }

  /** `List.RemoveAt(i)`. */
  function RemoveAt<T>(s: seq<T>, i: int): (r: seq<T>)
    requires 0 <= i < |s|
    ensures |r| == |s| - 1
    ensures forall p :: 0 <= p < i ==> r[p] == s[p]
    ensures forall p :: i <= p < |r| ==> r[p] == s[p + 1]
  {
    s[..i] + s[i + 1..]
  }

  /** Two lists naming the same positions delete the same elements. */
  lemma {:induction false} WithoutSameMembers<T>(s: seq<T>, a: seq<int>, b: seq<int>)
    requires forall x :: x in a <==> x in b
    ensures Without(s, a) == Without(s, b)
  {
    if s != [] {
      WithoutSameMembers(s[..|s| - 1], a, b);
    }
  }

  /** The step that makes removal highest-first correct: when every position
      already deleted lies above `k`, element `k` still sits at position `k`,
      and `RemoveAt(k)` deletes exactly it. */
  lemma {:induction false} RemoveBelowRemoved<T>(s: seq<T>, removed: seq<int>, k: int)
    requires 0 <= k < |s|
    requires forall x :: x in removed ==> x > k
    ensures var w := Without(s, removed);
      k < |w| && w[k] == s[k] && Without(s, removed + [k]) == RemoveAt(w, k)
  {
    var last := |s| - 1;
    var w := Without(s, removed);
    if last == k {
      assert w == s[..last] + [s[last]];
      assert Without(s, removed + [k]) == s[..last];
    } else {
      RemoveBelowRemoved(s[..last], removed, k);
      var w' := Without(s[..last], removed);
      var tail := if last in removed then [] else [s[last]];
      assert w == w' + tail;
      assert (last in removed + [k]) == (last in removed);
      assert Without(s, removed + [k]) == Without(s[..last], removed + [k]) + tail;
      assert RemoveAt(w, k) == RemoveAt(w', k) + tail;
    }
  }

  /** Every surviving element is an element of `s` at a position not listed. */
  lemma {:induction false} SurvivorsComeFromKeptPositions<T>(s: seq<T>, removed: seq<int>, p: int)
    requires 0 <= p < |Without(s, removed)|
    ensures exists i :: 0 <= i < |s| && i !in removed && s[i] == Without(s, removed)[p]
  {
    var last := |s| - 1;
    var w' := Without(s[..last], removed);
    if p < |w'| {
      SurvivorsComeFromKeptPositions(s[..last], removed, p);
      var i :| 0 <= i < |s[..last]| && i !in removed && s[..last][i] == w'[p];
      assert s[i] == Without(s, removed)[p];
    } else {
      assert s[last] == Without(s, removed)[p];
    }
  }

  /** Position lists in descending order, as `Sort` with the reversed comparer
      leaves `indicesOfGraphsToRemove`. */
  function Negated(x: int): (y: int)
  {
    -x
  }

  /** Distinct positions sorted highest first are strictly decreasing. */
  lemma DescendingDistinctIsStrict(order: seq<int>)
    requires SortedBy(order, Negated) && Distinct(order)
    ensures forall p, q :: 0 <= p < q < |order| ==> order[p] > order[q]
  {
    forall p, q | 0 <= p < q < |order|
      ensures order[p] > order[q]
    {
      assert Negated(order[p]) <= Negated(order[q]);
    }
  }

  /** The marked positions in descending order, as `Sort` with the reversed
      comparer leaves them: same positions, strictly decreasing. */
  function Descending(positions: seq<int>): (order: seq<int>)
    requires Distinct(positions)
    ensures |order| == |positions|
    ensures forall x :: x in order <==> x in positions
    ensures forall p, q :: 0 <= p < q < |order| ==> order[p] > order[q]
  {
    var order := SortBy(positions, Negated);
    PermutationKeepsDistinct(positions, order);
    DescendingDistinctIsStrict(order);
    assert forall x :: x in order <==> x in positions by {
      forall x
        ensures x in order <==> x in positions
      {
        assert x in order <==> x in multiset(order);
        assert x in positions <==> x in multiset(positions);
      }
    }
    order
  }

  /** One step of the removal loop: with the positions before `j` deleted, the
      next (smaller) position is still in range and `RemoveAt` deletes it. */
  lemma RemoveNextHighest<T>(s: seq<T>, order: seq<int>, j: int)
    requires 0 <= j < |order|
    requires forall p, q :: 0 <= p < q < |order| ==> order[p] > order[q]
    requires forall p :: 0 <= p < |order| ==> 0 <= order[p] < |s|
    ensures order[j] < |Without(s, order[..j])|
    ensures Without(s, order[..j + 1]) == RemoveAt(Without(s, order[..j]), order[j])
  {
    assert order[..j + 1] == order[..j] + [order[j]];
    RemoveBelowRemoved(s, order[..j], order[j]);
  }
}
