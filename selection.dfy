/** Roulette selection of parents: the score normalisation at the start of
    `MakeBabies`, and the expanded index list of `SelectParentIndex`, in which
    individual `i` appears once per unit of its `NormalizedScore`. */
module Selection {
  import opened Individuals
  import opened Population

  /** The normalisation of `MakeBabies`: with minimum score `m`, every
      `NormalizedScore` becomes `Score - m + 1` when `m <= 0`, and `Score`
      otherwise. Nothing else of an individual changes. */
  function Normalized(gen: seq<Graph>): (r: seq<Graph>)
    requires |gen| > 0
    ensures |r| == |gen|
    ensures forall k :: 0 <= k < |gen| ==> r[k] == gen[k].(NormalizedScore := r[k].NormalizedScore)
    ensures forall k :: 0 <= k < |r| ==> r[k].NormalizedScore >= 1
  {
    var minScore := MinScore(gen);
    if minScore <= 0 then
      seq(|gen|, k requires 0 <= k < |gen| => gen[k].(NormalizedScore := gen[k].Score - minScore + 1))
    else
      seq(|gen|, k requires 0 <= k < |gen| => gen[k].(NormalizedScore := gen[k].Score))
  }

  /** The normalised weights are the scores shifted by one common amount, so
      they order the individuals exactly as the scores do; when some score is
      not positive, the lowest-scoring individuals get weight exactly 1. */
  lemma NormalizedIsCommonShift(gen: seq<Graph>)
    requires |gen| > 0
    ensures var r := Normalized(gen);
      forall j, k :: 0 <= j < |gen| && 0 <= k < |gen| ==>
        r[j].NormalizedScore - r[k].NormalizedScore == gen[j].Score - gen[k].Score
    ensures var r := Normalized(gen);
      forall j, k :: 0 <= j < |gen| && 0 <= k < |gen| ==>
        (gen[j].Score <= gen[k].Score <==> r[j].NormalizedScore <= r[k].NormalizedScore)
    ensures var r := Normalized(gen);
      forall k :: 0 <= k < |gen| && gen[k].Score == MinScore(gen) <= 0 ==> r[k].NormalizedScore == 1
    ensures var r := Normalized(gen);
      MinScore(gen) > 0 ==> forall k :: 0 <= k < |gen| ==> r[k].NormalizedScore == gen[k].Score
  {
  }

  /** How many times the inner loop adds an index: `NormalizedScore` times, or
      not at all when that is not positive. */
  function Weight(g: Graph): (w: nat)
  {
    if g.NormalizedScore > 0 then g.NormalizedScore else 0
  }

  /** `count` copies of `i`, as the inner loop of `SelectParentIndex` adds them. */
  function Copies(i: int, count: int): (r: seq<int>)
    ensures |r| == if count > 0 then count else 0
    ensures forall p :: 0 <= p < |r| ==> r[p] == i
  {
    if count <= 0 then [] else Copies(i, count - 1) + [i]
  }

  /** The list `indices` that `SelectParentIndex(blocked)` builds before
      drawing. Every entry is the position of an individual, and never the
      blocked one. */
  function ExpandedIndices(gen: seq<Graph>, blocked: Option<int>): (indices: seq<int>)
    ensures forall p :: 0 <= p < |indices| ==> 0 <= indices[p] < |gen| && blocked != Some(indices[p])
  {
    if gen == [] then []
    else
      var last := |gen| - 1;
      ExpandedIndices(gen[..last], blocked)
        + (if blocked == Some(last) then [] else Copies(last, gen[last].NormalizedScore))
  }

  /** Sum of the weights of every individual except the blocked one. */
  function TotalWeight(gen: seq<Graph>, blocked: Option<int>): (total: nat)
  {
    if gen == [] then 0
    else
      (if blocked == Some(0) then 0 else Weight(gen[0]))
        + TotalWeight(gen[1..], if blocked.Some? then Some(blocked.value - 1) else None)
  }

  lemma {:induction false} CopiesCount(i: int, count: int, x: int)
    ensures multiset(Copies(i, count))[x] == if x == i && count > 0 then count else 0
  {
    if count > 0 {
      CopiesCount(i, count - 1, x);
    }
  }

  /** Individual `i` appears exactly `Weight(gen[i])` times, unless it is
      blocked, in which case it does not appear at all. */
  lemma {:induction false} ExpandedCount(gen: seq<Graph>, blocked: Option<int>, i: int)
    ensures multiset(ExpandedIndices(gen, blocked))[i]
         == if 0 <= i < |gen| && blocked != Some(i) then Weight(gen[i]) else 0
  {
    if gen != [] {
      var last := |gen| - 1;
      var front := ExpandedIndices(gen[..last], blocked);
      var back := if blocked == Some(last) then [] else Copies(last, gen[last].NormalizedScore);
      assert ExpandedIndices(gen, blocked) == front + back;
      assert multiset(front + back)[i] == multiset(front)[i] + multiset(back)[i];
      ExpandedCount(gen[..last], blocked, i);
      CopiesCount(last, gen[last].NormalizedScore, i);
      if 0 <= i < last {
        assert gen[..last][i] == gen[i];
      }
    }
  }

  /** The list is in non-decreasing order of index. */
  lemma {:induction false} ExpandedSorted(gen: seq<Graph>, blocked: Option<int>)
    ensures forall p, q :: 0 <= p < q < |ExpandedIndices(gen, blocked)| ==>
      ExpandedIndices(gen, blocked)[p] <= ExpandedIndices(gen, blocked)[q]
  {
    if gen != [] {
      var last := |gen| - 1;
      var front := ExpandedIndices(gen[..last], blocked);
      ExpandedSorted(gen[..last], blocked);
      var back := if blocked == Some(last) then [] else Copies(last, gen[last].NormalizedScore);
      assert ExpandedIndices(gen, blocked) == front + back;
      forall p, q | 0 <= p < q < |front + back|
        ensures (front + back)[p] <= (front + back)[q]
      {
        if q >= |front| {
          assert (front + back)[q] == last;
        }
      }
    }
  }

  lemma {:induction false} TotalWeightOfPrefix(gen: seq<Graph>, blocked: Option<int>)
    requires gen != []
    ensures TotalWeight(gen, blocked) == TotalWeight(gen[..|gen| - 1], blocked)
      + if blocked == Some(|gen| - 1) then 0 else Weight(gen[|gen| - 1])
  {
    if |gen| > 1 {
      var shifted := if blocked.Some? then Some(blocked.value - 1) else None;
      TotalWeightOfPrefix(gen[1..], shifted);
      assert gen[1..][..|gen| - 2] == gen[..|gen| - 1][1..];
    }
  }

  /** The list is as long as the sum of the weights of the individuals that are
      not blocked. */
  lemma {:induction false} ExpandedLength(gen: seq<Graph>, blocked: Option<int>)
    ensures |ExpandedIndices(gen, blocked)| == TotalWeight(gen, blocked)
  {
    if gen != [] {
      ExpandedLength(gen[..|gen| - 1], blocked);
      TotalWeightOfPrefix(gen, blocked);
    }
  }

  /** A draw from the list is possible exactly when some individual other than
      the blocked one has a positive weight. */
  lemma ExpandedNonEmpty(gen: seq<Graph>, blocked: Option<int>)
    ensures |ExpandedIndices(gen, blocked)| > 0
        <==> exists i :: 0 <= i < |gen| && blocked != Some(i) && gen[i].NormalizedScore > 0
  {
    var e := ExpandedIndices(gen, blocked);
    if |e| > 0 {
      ExpandedCount(gen, blocked, e[0]);
      assert e[0] in multiset(e);
    }
    if i :| 0 <= i < |gen| && blocked != Some(i) && gen[i].NormalizedScore > 0 {
      ExpandedCount(gen, blocked, i);
    }
  }

  /** With every weight at least 1, two individuals are enough for both draws of
      a pair of parents: the father's, and the mother's with the father blocked. */
  lemma TwoIndividualsSuffice(gen: seq<Graph>, blocked: Option<int>)
    requires |gen| >= 2
    requires forall k :: 0 <= k < |gen| ==> gen[k].NormalizedScore >= 1
    ensures |ExpandedIndices(gen, blocked)| > 0
  {
    ExpandedNonEmpty(gen, blocked);
    var i := if blocked == Some(0) then 1 else 0;
    assert blocked != Some(i) && gen[i].NormalizedScore > 0;
  }

  /** With a single survivor (a population of 2 after culling), the mother's
      list, which blocks the father, is empty: `indices[result]` then throws. */
  lemma {:induction false} LoneIndividualBlocked(gen: seq<Graph>)
    requires |gen| == 1
    ensures ExpandedIndices(gen, Some(0)) == []
  {
    assert ExpandedIndices(gen[..0], Some(0)) == [];
  }

  /** `index` is what `SelectParentIndex(blocked)` returns when it is the
      k-th draw of the random source `next`: the entry of the expanded list at the
      position drawn below the list's length. */
  ghost predicate DrawnFrom(gen: seq<Graph>, blocked: Option<int>, next: (nat, int) -> int, k: nat, index: int)
  {
    var indices := ExpandedIndices(gen, blocked);
    0 < |indices| && 0 <= next(k, |indices|) < |indices| && index == indices[next(k, |indices|)]
  }

  /** The parents of the children bred from `gen`, as `MakeBabies` draws them
      starting at draw `start`: child `k` takes draw `start + 2k` for its father,
      from the whole list, and draw `start + 2k + 1` for its mother, from the list
      with the father blocked. */
  ghost predicate RouletteParents(gen: seq<Graph>, fathers: seq<int>, mothers: seq<int>, next: (nat, int) -> int, start: nat)
  {
    && |fathers| == |mothers|
    && forall k :: 0 <= k < |fathers| ==>
         && DrawnFrom(gen, None, next, start + 2 * k, fathers[k])
         && DrawnFrom(gen, Some(fathers[k]), next, start + 2 * k + 1, mothers[k])
  }

  /** One more child's pair of draws, taken right after the earlier ones. */
  lemma RouletteParentsAppend(gen: seq<Graph>, fathers: seq<int>, mothers: seq<int>, next: (nat, int) -> int,
                              start: nat, at: nat, father: int, mother: int)
    requires RouletteParents(gen, fathers, mothers, next, start)
    requires at == start + 2 * |fathers|
    requires DrawnFrom(gen, None, next, at, father)
    requires DrawnFrom(gen, Some(father), next, at + 1, mother)
    ensures RouletteParents(gen, fathers + [father], mothers + [mother], next, start)
  {
    var f, m := fathers + [father], mothers + [mother];
    forall k | 0 <= k < |f|
      ensures DrawnFrom(gen, None, next, start + 2 * k, f[k])
      ensures DrawnFrom(gen, Some(f[k]), next, start + 2 * k + 1, m[k])
    {
      if k < |fathers| {
        assert f[k] == fathers[k] && m[k] == mothers[k];
      }
    }
  }

  /** The nested loops of `SelectParentIndex` that fill `indices`. */
  method BuildIndices(gen: seq<Graph>, blockedIndex: Option<int>) returns (indices: seq<int>)
    ensures indices == ExpandedIndices(gen, blockedIndex)
  {
    indices := [];
    var i := 0;
    while i < |gen|
      invariant 0 <= i <= |gen|
      invariant indices == ExpandedIndices(gen[..i], blockedIndex)
    {
      assert gen[..i + 1][..i] == gen[..i];
      if blockedIndex != Some(i) {
        var j := 0;
        while j < gen[i].NormalizedScore
          invariant 0 <= j <= if gen[i].NormalizedScore > 0 then gen[i].NormalizedScore else 0
          invariant indices == ExpandedIndices(gen[..i], blockedIndex) + Copies(i, j)
        {
          indices := indices + [i];
          j := j + 1;
        }
      }
      i := i + 1;
    }
    assert gen[..|gen|] == gen;
  }
}
