/** The fitness rule: `CalculateScore` and its two helpers, and the
    `AssignScores` pass over a whole population. */
module Scoring {
  import opened Individuals

  /** The three disqualifying cases of `CalculateScore`: more than one connected
      component, more vertices than either input, more edges than either input. */
  predicate Disqualified(g1: Graph, g2: Graph, target: Graph)
  {
    || target.NumberOfUnconnectedSubgraphs > 1
    || target.Size > g1.Size || target.Size > g2.Size
    || target.EdgesCount > g1.EdgesCount || target.EdgesCount > g2.EdgesCount
  }

  /** The cross term `v`: a stub in the C# code, contributing nothing. */
  function CalculateV(g1: Graph, g2: Graph, target: Graph): (v: int)
    ensures v == 0
  {
    0
  }

  /** `t`: unconnected subgraphs that result from matching `target` inside `g`,
      as the Graph class counts them from the two adjacency matrices alone. */
  function CalculateT(g: Graph, target: Graph, ops: GraphOps): (t: int)
    ensures t == ops.unconnectedInMatching(g.Adjacency, target.Adjacency)
  {
    ops.unconnectedInMatching(g.Adjacency, target.Adjacency)
  }

  /** The fitness of `target` against the two inputs. A disqualified candidate
      gets the penalty `-(g1.Size + g2.Size)`; any other gets twice its edge count
      less the surplus of unconnected pieces over one per input. */
  function CalculateScore(g1: Graph, g2: Graph, target: Graph, ops: GraphOps): (score: int)
    ensures Disqualified(g1, g2, target) ==> score == -(g1.Size + g2.Size)
    ensures !Disqualified(g1, g2, target) ==>
      score == 2 * target.EdgesCount - (CalculateT(g1, target, ops) + CalculateT(g2, target, ops) - 2)
  {
    if target.NumberOfUnconnectedSubgraphs > 1 then -(g1.Size + g2.Size)
    else if target.Size > g1.Size || target.Size > g2.Size then -(g1.Size + g2.Size)
    else if target.EdgesCount > g1.EdgesCount || target.EdgesCount > g2.EdgesCount then -(g1.Size + g2.Size)
    else
      var n := 2 * target.EdgesCount;
      var v := CalculateV(g1, g2, target);
      var t1 := CalculateT(g1, target, ops);
      var t2 := CalculateT(g2, target, ops);
      n - v - (t1 + t2 - 2)
  }

  /** The penalty puts every disqualified candidate strictly below every
      qualified one, provided the Graph class never reports more unconnected
      pieces than the candidate has vertices (the C# code does not check this). */
  lemma DisqualifiedRanksLowest(g1: Graph, g2: Graph, bad: Graph, good: Graph, ops: GraphOps)
    requires Disqualified(g1, g2, bad) && !Disqualified(g1, g2, good)
    requires good.EdgesCount >= 0
    requires CalculateT(g1, good, ops) <= good.Size && CalculateT(g2, good, ops) <= good.Size
    ensures CalculateScore(g1, g2, bad, ops) < CalculateScore(g1, g2, good, ops)
  {
  }

  /** The score depends on the candidate's structure only, never on the scores
      it carried before. */
  lemma ScoreIgnoresOldScores(g1: Graph, g2: Graph, target: Graph, score: int, normalized: int, ops: GraphOps)
    ensures CalculateScore(g1, g2, target.(Score := score, NormalizedScore := normalized), ops)
         == CalculateScore(g1, g2, target, ops)
  {
  }

  /** `AssignScores`: every individual with its `Score` recomputed. */
  function Scored(g1: Graph, g2: Graph, gen: seq<Graph>, ops: GraphOps): (r: seq<Graph>)
    ensures |r| == |gen|
    ensures forall k :: 0 <= k < |gen| ==> r[k] == gen[k].(Score := CalculateScore(g1, g2, gen[k], ops))
  {
    seq(|gen|, k requires 0 <= k < |gen| => gen[k].(Score := CalculateScore(g1, g2, gen[k], ops)))
  }

  /** Every individual carries the score the fitness rule gives it. */
  ghost predicate AllScored(g1: Graph, g2: Graph, gen: seq<Graph>, ops: GraphOps)
  {
    forall k :: 0 <= k < |gen| ==> gen[k].Score == CalculateScore(g1, g2, gen[k], ops)
  }

  /** After `AssignScores` the population is scored, and a second pass (the one
      that opens the next generation) changes nothing. */
  lemma ScoredIsIdempotent(g1: Graph, g2: Graph, gen: seq<Graph>, ops: GraphOps)
    ensures AllScored(g1, g2, Scored(g1, g2, gen, ops), ops)
    ensures Scored(g1, g2, Scored(g1, g2, gen, ops), ops) == Scored(g1, g2, gen, ops)
  {
    var once := Scored(g1, g2, gen, ops);
    forall k | 0 <= k < |gen|
      ensures once[k].Score == CalculateScore(g1, g2, once[k], ops)
    {
      ScoreIgnoresOldScores(g1, g2, gen[k], once[k].Score, gen[k].NormalizedScore, ops);
    }
  }
}
