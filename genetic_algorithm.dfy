/** The evolutionary engine: `GeneticAlgorithm`, which owns the population and
    runs the generation loop score, sort, cull, breed, mutate, re-score. */
module Evolution {
  import opened Individuals
  import opened Sorting
  import opened Population
  import opened Scoring
  import opened Selection
  import opened Culling
  import opened Randomness

  /** `int.MinValue`, the starting value of `generationScore`. */
  const INT_MIN_VALUE: int := -0x8000_0000

  /** What a run returns. `CullingUnfinished` stands for a culling that had not
      marked its half within the draws it was allowed (the C# code would keep
      drawing); it names the generation where that happened. */
  datatype RunResult = Found(best: Graph) | CullingUnfinished(generationIndex: int)

  /** Every individual after its self-mutation (`ApplyMutation`). */
  function Mutated(gen: seq<Graph>, ops: GraphOps): (r: seq<Graph>)
    ensures |r| == |gen|
    ensures forall k :: 0 <= k < |gen| ==> r[k] == ops.mutate(gen[k])
  {
    seq(|gen|, k requires 0 <= k < |gen| => ops.mutate(gen[k]))
  }

  /** `babies` were bred from `parents`: child `k` is the crossover of mother
      `mothers[k]` and father `fathers[k]`, two distinct individuals of `parents`. */
  ghost predicate Bred(parents: seq<Graph>, babies: seq<Graph>, fathers: seq<int>, mothers: seq<int>, ops: GraphOps)
  {
    && |fathers| == |babies| && |mothers| == |babies|
    && forall k :: 0 <= k < |babies| ==>
         && 0 <= fathers[k] < |parents| && 0 <= mothers[k] < |parents| && fathers[k] != mothers[k]
         && babies[k] == ops.createChild(parents[mothers[k]], parents[fathers[k]])
  }

  /** One more child bred from two distinct parents. */
  lemma BredAppend(parents: seq<Graph>, babies: seq<Graph>, fathers: seq<int>, mothers: seq<int>, ops: GraphOps,
                   baby: Graph, father: int, mother: int)
    requires Bred(parents, babies, fathers, mothers, ops)
    requires 0 <= father < |parents| && 0 <= mother < |parents| && father != mother
    requires baby == ops.createChild(parents[mother], parents[father])
    ensures Bred(parents, babies + [baby], fathers + [father], mothers + [mother], ops)
  {
    var b, f, m := babies + [baby], fathers + [father], mothers + [mother];
    forall k | 0 <= k < |b|
      ensures 0 <= f[k] < |parents| && 0 <= m[k] < |parents| && f[k] != m[k]
      ensures b[k] == ops.createChild(parents[m[k]], parents[f[k]])
    {
      if k < |babies| {
        assert b[k] == babies[k] && f[k] == fathers[k] && m[k] == mothers[k];
      }
    }
  }

  class GeneticAlgorithm {
    const generationSize: int
    const generationCount: int
    const ops: GraphOps
    const random: RandomSource
    var generation: seq<Graph>

    constructor (generationSize: int, generationCount: int, ops: GraphOps, random: RandomSource)
      ensures this.generationSize == generationSize && this.generationCount == generationCount
      ensures this.ops == ops && this.random == random && generation == []
    {
      this.generationSize := generationSize;
      this.generationCount := generationCount;
      this.ops := ops;
      this.random := random;
      generation := [];
    }

    /** Runs `generationCount` generations from a random first generation and
        returns the first individual of the last population with the maximum
        score. A population of 2 cannot breed (its lone survivor cannot be
        paired) and an empty one has no maximum, hence the preconditions. */
    method FindMaximalCommonSubgraph(g1: Graph, g2: Graph, cullDraws: nat) returns (result: RunResult)
      requires random.InRange()
      requires generationSize >= 1
      requires generationCount > 0 ==> generationSize != 2
      modifies this, random
      ensures |generation| == generationSize
      ensures generationCount <= 0 ==> result.Found?
      ensures result.CullingUnfinished? ==> 0 <= result.generationIndex < generationCount
      ensures result.Found? ==> result.best == generation[BestIndex(generation)]
      ensures result.Found? ==> forall k :: 0 <= k < |generation| ==> generation[k].Score <= result.best.Score
      ensures result.Found? && generationCount > 0 ==> AllScored(g1, g2, generation, ops)
    {
      generation := [];
      var maxSize := if g1.Size < g2.Size then g1.Size else g2.Size;
      var generationScore := INT_MIN_VALUE;
      CreateFirstGeneration(generationSize, maxSize);
      var i := 0;
      while i < generationCount
        invariant 0 <= i <= if generationCount > 0 then generationCount else 0
        invariant |generation| == generationSize
        invariant i > 0 ==> AllScored(g1, g2, generation, ops)
      {
        var completed, newGenerationScore, sorted, marked, culled, survivors, babies, fathers, mothers :=
          RunGeneration(g1, g2, cullDraws);
        if !completed {
          return CullingUnfinished(i);
        }
        ScoredIsIdempotent(g1, g2, Mutated(survivors + babies, ops), ops);
        // The C# code compares with the previous total here only in a
        // commented-out early stop, so the total has no effect on the run.
        generationScore := newGenerationScore;
        i := i + 1;
      }
      var bestScore := MaxScore(generation);
      var best := FirstWithScore(generation, bestScore);
      result := Found(generation[best]);
    }

    /** One pass of the generation loop: the scored population is sorted by
        score, `generationSize / 2` positions below the last are culled, the
        survivors are normalised and bred into `generationSize / 2` children, and
        survivors and children are mutated and re-scored. The best-scoring
        individual of the scored population survives the cull. The total it
        returns is taken after mutation and before re-scoring, as in the C# code. */
    method RunGeneration(g1: Graph, g2: Graph, cullDraws: nat)
      returns (completed: bool, newGenerationScore: int,
               ghost sorted: seq<Graph>, ghost marked: seq<int>, ghost culled: seq<Graph>,
               ghost survivors: seq<Graph>, ghost babies: seq<Graph>, ghost fathers: seq<int>, ghost mothers: seq<int>)
      requires random.InRange()
      requires generationSize >= 1 && generationSize != 2
      requires |generation| == generationSize
      modifies this, random
      ensures |generation| == generationSize
      ensures SortedBy(sorted, ScoreOf) && multiset(sorted) == multiset(Scored(g1, g2, old(generation), ops))
      ensures |sorted| == generationSize
      ensures !completed ==> generation == sorted
      ensures completed ==> Distinct(marked) && |marked| == generationSize / 2
      ensures completed ==> forall p :: 0 <= p < |marked| ==> 0 <= marked[p] < generationSize - 1
      ensures completed ==> culled == Without(sorted, marked)
      ensures completed ==> |culled| == generationSize - generationSize / 2
      ensures completed ==> culled[|culled| - 1] == sorted[generationSize - 1]
      ensures completed ==> culled[|culled| - 1].Score == MaxScore(Scored(g1, g2, old(generation), ops))
      ensures completed ==> survivors == Normalized(culled)
      ensures completed ==> |babies| == generationSize / 2 && Bred(survivors, babies, fathers, mothers, ops)
      ensures completed ==> newGenerationScore == TotalScore(Mutated(survivors + babies, ops))
      ensures completed ==> generation == Scored(g1, g2, Mutated(survivors + babies, ops), ops)
    {
      completed, sorted, marked := RankAndCull(g1, g2, cullDraws);
      culled := generation;
      if !completed {
        newGenerationScore, survivors, babies, fathers, mothers := 0, generation, [], [], [];
        return;
      }
      newGenerationScore, survivors, babies, fathers, mothers := Replenish(g1, g2);
    }

    /** The first half of a generation: score, sort ascending by score, cull.
        `sorted` is the population after the sort and `marked` the positions
        the cull chose. */
    method RankAndCull(g1: Graph, g2: Graph, cullDraws: nat)
      returns (completed: bool, ghost sorted: seq<Graph>, ghost marked: seq<int>)
      requires random.InRange()
      requires generationSize >= 1 && |generation| == generationSize
      modifies this, random
      ensures SortedBy(sorted, ScoreOf) && multiset(sorted) == multiset(Scored(g1, g2, old(generation), ops))
      ensures |sorted| == generationSize
      ensures Distinct(marked) && forall p :: 0 <= p < |marked| ==> 0 <= marked[p] < generationSize - 1
      ensures completed <==> |marked| == generationSize / 2
      ensures old(random.drawn) <= random.drawn <= old(random.drawn) + cullDraws
      ensures !completed ==> generation == sorted
      ensures completed ==> generation == Without(sorted, marked)
      ensures completed ==> |generation| == generationSize - generationSize / 2
      ensures completed ==> generation[|generation| - 1] == sorted[generationSize - 1]
      ensures completed ==>
        generation[|generation| - 1].Score == MaxScore(Scored(g1, g2, old(generation), ops))
    {
      RankGeneration(g1, g2);
      sorted := generation;
      completed, marked := KillHalfOfTheGeneration(cullDraws);
    }

    /** Lines 29-30 of a generation: score everyone, then sort ascending by
        score, which puts a best-scoring individual last. */
    method RankGeneration(g1: Graph, g2: Graph)
      requires |generation| > 0
      modifies this
      ensures SortedBy(generation, ScoreOf) && multiset(generation) == multiset(Scored(g1, g2, old(generation), ops))
      ensures |generation| == |old(generation)|
      ensures generation[|generation| - 1].Score == MaxScore(Scored(g1, g2, old(generation), ops))
    {
      AssignScores(g1, g2);
      ghost var scored := generation;
      SortGeneration();
      assert |generation| == |multiset(generation)| == |multiset(scored)| == |scored|;
      SortedLastIsBest(generation);
      MaxScorePermutation(scored, generation);
    }

    /** The second half of a generation: breed, append the children, mutate,
        total, re-score. `survivors` are the culled population after
        normalisation, and the children are bred from them by roulette. */
    method Replenish(g1: Graph, g2: Graph)
      returns (newGenerationScore: int, ghost survivors: seq<Graph>, ghost babies: seq<Graph>,
               ghost fathers: seq<int>, ghost mothers: seq<int>)
      requires random.InRange()
      requires generationSize >= 1 && generationSize != 2
      requires |generation| == generationSize - generationSize / 2
      modifies this, random
      ensures survivors == Normalized(old(generation))
      ensures |babies| == generationSize / 2
      ensures Bred(survivors, babies, fathers, mothers, ops)
      ensures RouletteParents(survivors, fathers, mothers, random.next, old(random.drawn))
      ensures random.drawn == old(random.drawn) + 2 * |babies|
      ensures newGenerationScore == TotalScore(Mutated(survivors + babies, ops))
      ensures generation == Scored(g1, g2, Mutated(survivors + babies, ops), ops)
      ensures |generation| == generationSize
    {
      survivors, babies, fathers, mothers := BreedIntoGeneration();
      ghost var drawn := random.drawn;
      ghost var bred := generation;
      newGenerationScore := MutateAndRescore(g1, g2);
      assert random.drawn == drawn && bred == survivors + babies;
    }

    /** Lines 32-33 of a generation: breed the children and append them to the
        normalised survivors. */
    method BreedIntoGeneration()
      returns (ghost survivors: seq<Graph>, ghost babies: seq<Graph>, ghost fathers: seq<int>, ghost mothers: seq<int>)
      requires random.InRange()
      requires generationSize >= 1 && generationSize != 2
      requires |generation| == generationSize - generationSize / 2
      modifies this, random
      ensures survivors == Normalized(old(generation))
      ensures |babies| == generationSize / 2
      ensures Bred(survivors, babies, fathers, mothers, ops)
      ensures RouletteParents(survivors, fathers, mothers, random.next, old(random.drawn))
      ensures random.drawn == old(random.drawn) + 2 * |babies|
      ensures generation == survivors + babies
    {
      var children;
      children, fathers, mothers := MakeBabies();
      survivors, babies := generation, children;
      generation := generation + children;
    }

    /** Lines 34-38 of a generation: mutate everyone, take the total score,
        re-score. The total is therefore that of the mutated individuals' old
        scores. */
    method MutateAndRescore(g1: Graph, g2: Graph) returns (newGenerationScore: int)
      modifies this
      ensures newGenerationScore == TotalScore(Mutated(old(generation), ops))
      ensures generation == Scored(g1, g2, Mutated(old(generation), ops), ops)
    {
      ApplyMutation();
      newGenerationScore := TotalScore(generation);
      AssignScores(g1, g2);
    }

    /** `CreateFirstGeneration`: the graphs of `count` calls of
        `CreateRandomGraph(maxSize)`, appended in order. */
    method CreateFirstGeneration(count: int, maxSize: int)
      modifies this
      ensures |generation| == |old(generation)| + (if count > 0 then count else 0)
      ensures generation[..|old(generation)|] == old(generation)
      ensures forall k :: 0 <= k < |generation| - |old(generation)| ==>
        generation[|old(generation)| + k] == ops.createRandomGraph(maxSize, k)
    {
      var i := 0;
      while i < count
        invariant 0 <= i <= if count > 0 then count else 0
        invariant |generation| == |old(generation)| + i
        invariant generation[..|old(generation)|] == old(generation)
        invariant forall k :: 0 <= k < i ==>
          generation[|old(generation)| + k] == ops.createRandomGraph(maxSize, k)
      {
        generation := generation + [ops.createRandomGraph(maxSize, i)];
        i := i + 1;
      }
    }

    /** `AssignScores`: every individual gets the score of the fitness rule. */
    method AssignScores(g1: Graph, g2: Graph)
      modifies this
      ensures generation == Scored(g1, g2, old(generation), ops)
      ensures AllScored(g1, g2, generation, ops)
    {
      var k := 0;
      while k < |generation|
        invariant 0 <= k <= |generation| == |old(generation)|
        invariant forall p :: 0 <= p < k ==>
          generation[p] == old(generation)[p].(Score := CalculateScore(g1, g2, old(generation)[p], ops))
        invariant forall p :: k <= p < |generation| ==> generation[p] == old(generation)[p]
      {
        var graph := generation[k];
        generation := generation[k := graph.(Score := CalculateScore(g1, g2, graph, ops))];
        k := k + 1;
      }
      ScoredIsIdempotent(g1, g2, old(generation), ops);
    }

    /** `_generation.Sort` by ascending score. */
    method SortGeneration()
      modifies this
      ensures SortedBy(generation, ScoreOf)
      ensures multiset(generation) == multiset(old(generation))
    {
      generation := SortBy(generation, ScoreOf);
    }

    /** `KillHalfOfTheGeneration`: marks half of the population with
        `MarkForRemoval`, then removes the marked positions highest first. The
        last position, which holds the best individual after the sort, is never
        marked, so that individual always survives. */
    method KillHalfOfTheGeneration(cullDraws: nat) returns (completed: bool, ghost marked: seq<int>)
      requires random.InRange()
      requires generationSize >= 1 && |generation| == generationSize
      modifies this, random
      ensures Distinct(marked) && |marked| <= generationSize / 2
      ensures forall p :: 0 <= p < |marked| ==> 0 <= marked[p] < generationSize - 1
      ensures completed <==> |marked| == generationSize / 2
      ensures old(random.drawn) <= random.drawn <= old(random.drawn) + cullDraws
      ensures !completed ==> generation == old(generation)
      ensures completed ==> generation == Without(old(generation), marked)
      ensures completed ==> |generation| == generationSize - generationSize / 2
      ensures completed ==> generation[|generation| - 1] == old(generation)[generationSize - 1]
    {
      var indicesOfGraphsToRemove, drawnAt := MarkForRemoval(cullDraws);
      marked := indicesOfGraphsToRemove;
      completed := |indicesOfGraphsToRemove| == generationSize / 2;
      if completed {
        RemoveMarked(indicesOfGraphsToRemove);
      }
    }

    /** The marking loop of `KillHalfOfTheGeneration`. Position `index` cycles
        through the population; a draw `r` below `generationSize` marks it when
        `r > index` and it is not marked yet; marking stops at
        `generationSize / 2`. Since no draw exceeds `generationSize - 1`, the
        last position is never marked. The C# loop ends only with
        probability 1: here it takes at most `cullDraws` draws. */
    method MarkForRemoval(cullDraws: nat) returns (indicesOfGraphsToRemove: seq<int>, ghost drawnAt: seq<nat>)
      requires random.InRange()
      requires generationSize >= 1
      modifies random
      ensures Distinct(indicesOfGraphsToRemove) && |indicesOfGraphsToRemove| <= generationSize / 2
      ensures forall p :: 0 <= p < |indicesOfGraphsToRemove| ==>
        0 <= indicesOfGraphsToRemove[p] < generationSize - 1
      ensures |drawnAt| == |indicesOfGraphsToRemove|
      ensures forall p :: 0 <= p < |drawnAt| ==>
        old(random.drawn) <= drawnAt[p] < random.drawn &&
        random.next(drawnAt[p], generationSize) > indicesOfGraphsToRemove[p]
      ensures |indicesOfGraphsToRemove| < generationSize / 2 ==> random.drawn == old(random.drawn) + cullDraws
      ensures old(random.drawn) <= random.drawn <= old(random.drawn) + cullDraws
    {
      indicesOfGraphsToRemove, drawnAt := [], [];
      var index := 0;
      var spent: nat := 0;
      while |indicesOfGraphsToRemove| < generationSize / 2 && spent < cullDraws
        invariant 0 <= index < generationSize
        invariant spent <= cullDraws && random.drawn == old(random.drawn) + spent
        invariant Distinct(indicesOfGraphsToRemove) && |indicesOfGraphsToRemove| <= generationSize / 2
        invariant forall p :: 0 <= p < |indicesOfGraphsToRemove| ==>
          0 <= indicesOfGraphsToRemove[p] < generationSize - 1
        invariant |drawnAt| == |indicesOfGraphsToRemove|
        invariant forall p :: 0 <= p < |drawnAt| ==>
          old(random.drawn) <= drawnAt[p] < random.drawn &&
          random.next(drawnAt[p], generationSize) > indicesOfGraphsToRemove[p]
        decreases cullDraws - spent
      {
        var r := random.Next(generationSize);
        if r > index && index !in indicesOfGraphsToRemove {
          indicesOfGraphsToRemove := indicesOfGraphsToRemove + [index];
          drawnAt := drawnAt + [random.drawn - 1];
        }
        index := (index + 1) % generationSize;
        spent := spent + 1;
      }
    }

    /** The removal loop of `KillHalfOfTheGeneration`: sort the marked
        positions in descending order and `RemoveAt` each in turn, which deletes
        exactly the marked individuals and keeps the order of the others. */
    method RemoveMarked(indicesOfGraphsToRemove: seq<int>)
      requires Distinct(indicesOfGraphsToRemove)
      requires forall p :: 0 <= p < |indicesOfGraphsToRemove| ==>
        0 <= indicesOfGraphsToRemove[p] < |generation|
      modifies this
      ensures generation == Without(old(generation), indicesOfGraphsToRemove)
      ensures |generation| == |old(generation)| - |indicesOfGraphsToRemove|
    {
      var order := Descending(indicesOfGraphsToRemove);
      forall p | 0 <= p < |order|
        ensures 0 <= order[p] < |old(generation)|
      {
        assert order[p] in indicesOfGraphsToRemove;
      }
      assert order[..0] == [];
      var j := 0;
      while j < |order|
        invariant 0 <= j <= |order|
        invariant generation == Without(old(generation), order[..j])
        invariant |generation| == |old(generation)| - j
      {
        RemoveNextHighest(old(generation), order, j);
        generation := RemoveAt(generation, order[j]);
        j := j + 1;
      }
      assert order[..|order|] == order;
      WithoutSameMembers(old(generation), order, indicesOfGraphsToRemove);
    }

    /** `MakeBabies`: normalise the survivors' scores, then breed
        `generationSize / 2` children, each from a father drawn by roulette and a
        mother drawn by roulette with the father blocked, two draws per child. */
    method MakeBabies() returns (babies: seq<Graph>, ghost fathers: seq<int>, ghost mothers: seq<int>)
      requires random.InRange()
      requires generationSize >= 1 && |generation| >= 1
      requires generationSize / 2 > 0 ==> |generation| >= 2
      modifies this, random
      ensures generation == Normalized(old(generation))
      ensures |babies| == generationSize / 2
      ensures Bred(generation, babies, fathers, mothers, ops)
      ensures RouletteParents(generation, fathers, mothers, random.next, old(random.drawn))
      ensures random.drawn == old(random.drawn) + 2 * |babies|
    {
      babies, fathers, mothers := [], [], [];
      NormalizeScores();
      ghost var parents, start := generation, random.drawn;
      while |babies| < generationSize / 2
        modifies random
        invariant generation == parents
        invariant |babies| <= generationSize / 2
        invariant Bred(parents, babies, fathers, mothers, ops)
        invariant RouletteParents(parents, fathers, mothers, random.next, start)
        invariant random.drawn == start + 2 * |babies|
      {
        ghost var at := random.drawn;
        var babyGraph, fatherIndex, motherIndex := MakeBaby();
        RouletteParentsAppend(parents, fathers, mothers, random.next, start, at, fatherIndex, motherIndex);
        BredAppend(parents, babies, fathers, mothers, ops, babyGraph, fatherIndex, motherIndex);
        babies, fathers, mothers := babies + [babyGraph], fathers + [fatherIndex], mothers + [motherIndex];
      }
    }

    /** One pass of the child loop in `MakeBabies`: a father drawn from the
        whole population, a mother drawn with the father blocked, and their child. */
    method MakeBaby() returns (baby: Graph, fatherIndex: int, motherIndex: int)
      requires random.InRange()
      requires |generation| >= 2
      requires forall k :: 0 <= k < |generation| ==> generation[k].NormalizedScore >= 1
      modifies random
      ensures DrawnFrom(generation, None, random.next, old(random.drawn), fatherIndex)
      ensures DrawnFrom(generation, Some(fatherIndex), random.next, old(random.drawn) + 1, motherIndex)
      ensures random.drawn == old(random.drawn) + 2
      ensures 0 <= fatherIndex < |generation| && 0 <= motherIndex < |generation|
      ensures fatherIndex != motherIndex
      ensures baby == ops.createChild(generation[motherIndex], generation[fatherIndex])
    {
      TwoIndividualsSuffice(generation, None);
      fatherIndex := SelectParentIndex(None);
      TwoIndividualsSuffice(generation, Some(fatherIndex));
      motherIndex := SelectParentIndex(Some(fatherIndex));
      baby := ops.createChild(generation[motherIndex], generation[fatherIndex]);
    }

    /** The normalisation at the start of `MakeBabies`: every individual's
        `NormalizedScore` is set from its `Score` and the population's minimum. */
    method NormalizeScores()
      requires |generation| >= 1
      modifies this
      ensures generation == Normalized(old(generation))
    {
      var minScore := MinScore(generation);
      var k := 0;
      while k < |generation|
        invariant 0 <= k <= |generation| == |old(generation)|
        invariant forall p :: 0 <= p < k ==> generation[p] == Normalized(old(generation))[p]
        invariant forall p :: k <= p < |generation| ==> generation[p] == old(generation)[p]
      {
        var graph := generation[k];
        if minScore <= 0 {
          generation := generation[k := graph.(NormalizedScore := graph.Score - minScore + 1)];
        } else {
          generation := generation[k := graph.(NormalizedScore := graph.Score)];
        }
        k := k + 1;
      }
    }

    /** `SelectParentIndex`: a uniform draw from the expanded index list, so
        individual `i` is chosen with probability proportional to its weight;
        the blocked index is never chosen. */
    method SelectParentIndex(blockedIndex: Option<int>) returns (index: int)
      requires random.InRange()
      requires |ExpandedIndices(generation, blockedIndex)| > 0
      modifies random
      ensures DrawnFrom(generation, blockedIndex, random.next, old(random.drawn), index)
      ensures 0 <= index < |generation| && blockedIndex != Some(index)
      ensures generation[index].NormalizedScore > 0
      ensures random.drawn == old(random.drawn) + 1
    {
      var indices := BuildIndices(generation, blockedIndex);
      var result := random.Next(|indices|);
      ExpandedCount(generation, blockedIndex, indices[result]);
      assert indices[result] in multiset(indices);
      index := indices[result];
    }

    /** `ApplyMutation`: every individual mutates itself. */
    method ApplyMutation()
      modifies this
      ensures generation == Mutated(old(generation), ops)
    {
      var k := 0;
      while k < |generation|
        invariant 0 <= k <= |generation| == |old(generation)|
        invariant forall p :: 0 <= p < k ==> generation[p] == ops.mutate(old(generation)[p])
        invariant forall p :: k <= p < |generation| ==> generation[p] == old(generation)[p]
      {
        generation := generation[k := ops.mutate(generation[k])];
        k := k + 1;
      }
    }
  }
}
