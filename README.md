# Genetic search for a maximum common subgraph — a Dafny model of the engine

The TAiO program looks for a large common subgraph of two input graphs `g1`
and `g2` with a genetic algorithm. A population of candidate graphs is scored
against both inputs. Each generation the weaker half is culled, the survivors
breed children by roulette selection, and everyone mutates. This project
models the engine that runs that loop, `GeneticAlgorithm`
(`TAiO/GeneticAlgorithm.cs`), and proves what it does to the population.

How the modules map onto the engine:

- `Individuals`: the engine's view of a `Graph`.
  - It is a record of the structural counts the engine reads, plus the two
    fields the engine writes, `Score` and `NormalizedScore`.
  - The Graph class's own operations (matching count, random graph, crossover,
    mutation) come in a `GraphOps` value of caller-supplied functions.
- `Scoring`: `CalculateScore`, its helpers `CalculateT` and `CalculateV`, and
  the `AssignScores` pass as a function `Scored`. `CalculateT` is the supplied
  matching count applied to the two adjacency matrices.
- `Population`: the LINQ aggregates the engine uses: `Min`, `Max`, `First`,
  `Sum`. It also holds the final pick `BestIndex` and the facts about sorting
  a population.
- `Selection`: the normalisation in `MakeBabies` and the expanded index list
  that `SelectParentIndex` draws from.
- `Culling`: deleting a set of positions with `RemoveAt`, highest first.
- `Sorting`: `List.Sort`, as any function returning a sorted permutation.
- `Randomness`: `GoodRandom`, as an injected source whose k-th draw with
  bound `b` is `next(k, b)`, always in `[0, b)`.
- `Evolution`: the `GeneticAlgorithm` class.
  - Its `generation` field holds the population as a `seq<Graph>`, and its
    methods reassign it.
  - Each loop of the source is a `while` loop with invariants.
  - Each method is proved against the functions above.

The facts proved about one generation:

- Culling marks `generationSize / 2` distinct positions, and never the last
  one. The sort puts the best individual last, so it always survives.
- Removal keeps the others in order.
- Every survivor has selection weight at least 1, and the weights order the
  survivors exactly as their scores do.
- Each child has two distinct parents, and the population is back to
  `generationSize`.
- The run returns the first individual with the highest score.
- A generation ties each stage to the one before: the sorted population is a
  permutation of the scored one, the culled population is the sorted one
  without the marked positions, and the survivors are the culled population
  normalised. Every child is the crossover of two distinct survivors.
- The parents are the roulette draws: the father is the entry at the drawn
  position of the expanded index list, and the mother is drawn the same way
  with the father blocked. Each child takes two draws, in order.

Two behaviours of the C# code that a reader might not expect are modelled as
written:

- With a population of 2 and at least one generation, the code throws.
  - Culling leaves one survivor, who is drawn as the father.
  - The mother's index list then blocks that survivor and is empty, so
    `indices[result]` throws.
  - `Selection.LoneIndividualBlocked` states this.
  - `FindMaximalCommonSubgraph` requires `generationSize != 2` whenever
    `generationCount > 0`.
- The total score of a generation is taken after mutation and before the
  re-scoring (lines 35 and 38). The model takes it at the same point.

## Model

| member | source | states |
|---|---|---|
| Scoring.CalculateV | TAiO/GeneticAlgorithm.cs:167-170 | the cross term contributes nothing to any score |
| Scoring.CalculateT | TAiO/GeneticAlgorithm.cs:162-165 | `t` is the Graph class's count of unconnected pieces when the target is matched in `g`, read from the two adjacency matrices only, so scores carried by either graph never affect it |
| Scoring.CalculateScore | TAiO/GeneticAlgorithm.cs:150-160 | a disconnected candidate, or one with more vertices or edges than either input, scores `-(g1.Size + g2.Size)`; any other scores `2·edges - (t1 + t2 - 2)` with `t` the unconnected pieces of the matching in each input |
| Scoring.DisqualifiedRanksLowest | TAiO/GeneticAlgorithm.cs:150-159 | a disqualified candidate scores strictly below every qualified one (given the matching count never exceeds the candidate's vertex count) |
| Scoring.ScoreIgnoresOldScores | TAiO/GeneticAlgorithm.cs:150-160 | the score depends only on the candidate's structure, not on the scores it carried before |
| Scoring.Scored | TAiO/GeneticAlgorithm.cs:142-148 | every individual keeps its place and everything but `Score`, which becomes its fitness |
| Scoring.ScoredIsIdempotent | TAiO/GeneticAlgorithm.cs:142-148 | after a scoring pass every individual carries its own fitness, and a second pass changes nothing |
| Population.MinScore | TAiO/GeneticAlgorithm.cs:75 | the result is the score of some individual and no score is lower |
| Population.MaxScore | TAiO/GeneticAlgorithm.cs:43 | the result is the score of some individual and no score is higher |
| Population.FirstWithScore | TAiO/GeneticAlgorithm.cs:44 | the position holds the given score and no earlier position does |
| Population.BestIndex | TAiO/GeneticAlgorithm.cs:43-44 | the picked individual has the maximum score and every earlier one scores strictly less |
| Population.BestIndexIsUnique | TAiO/GeneticAlgorithm.cs:43-44 | any position with a maximum score and only lower scores before it is the one picked |
| Population.TotalScore | TAiO/GeneticAlgorithm.cs:59-62 | `CalculateGenerationScore`: the sum of every individual's score; what it satisfies is stated by the three lemmas below |
| Population.TotalScoreBounds | TAiO/GeneticAlgorithm.cs:59-62 | the total lies between the population size times the lowest score and the population size times the highest |
| Population.TotalScoreAppend | TAiO/GeneticAlgorithm.cs:59-62 | the total score of two populations joined is the sum of their totals |
| Population.TotalScorePermutation | TAiO/GeneticAlgorithm.cs:59-62 | rearranging a population leaves its total score unchanged |
| Population.SortedLastIsBest | TAiO/GeneticAlgorithm.cs:30 | after the ascending sort by score the last individual has the maximum score |
| Population.MaxScorePermutation | TAiO/GeneticAlgorithm.cs:30 | rearranging a population leaves its maximum score unchanged |
| Sorting.InsertBy | TAiO/GeneticAlgorithm.cs:30 | inserting into a sorted list keeps it sorted and adds exactly the new element |
| Sorting.SortBy | TAiO/GeneticAlgorithm.cs:30 | the result is sorted by the key and is a permutation of the input |
| Sorting.PermutationKeepsDistinct | TAiO/GeneticAlgorithm.cs:127 | a rearrangement of a list without repetitions has none either |
| Selection.Normalized | TAiO/GeneticAlgorithm.cs:75-83 | only `NormalizedScore` changes, and every individual's becomes at least 1 |
| Selection.NormalizedIsCommonShift | TAiO/GeneticAlgorithm.cs:75-83 | weights are scores shifted by one common amount, so they order individuals exactly as scores do (both directions); the lowest non-positive scorers get weight 1; positive scores are kept as they are |
| Selection.Copies | TAiO/GeneticAlgorithm.cs:103-106 | the inner loop adds the index `NormalizedScore` times, or not at all when that is not positive |
| Selection.ExpandedIndices | TAiO/GeneticAlgorithm.cs:99-107 | the list `SelectParentIndex` draws from: every entry is the position of an individual and never the blocked one |
| Selection.ExpandedCount | TAiO/GeneticAlgorithm.cs:99-107 | each unblocked individual appears exactly as often as its weight; the blocked one and positions outside the population never appear |
| Selection.ExpandedSorted | TAiO/GeneticAlgorithm.cs:99-107 | the list is in non-decreasing index order |
| Selection.ExpandedLength | TAiO/GeneticAlgorithm.cs:99-107 | the list is as long as the sum of the weights of the unblocked individuals |
| Selection.ExpandedNonEmpty | TAiO/GeneticAlgorithm.cs:99-110 | a draw is possible exactly when some unblocked individual has positive weight |
| Selection.TwoIndividualsSuffice | TAiO/GeneticAlgorithm.cs:86-89 | with two or more individuals of weight at least 1 both parent draws are possible |
| Selection.LoneIndividualBlocked | TAiO/GeneticAlgorithm.cs:89-110 | with one survivor, the mother's list (father blocked) is empty, so the draw from it fails |
| Selection.BuildIndices | TAiO/GeneticAlgorithm.cs:99-107 | the nested loops build exactly the expanded index list |
| Culling.Without | TAiO/GeneticAlgorithm.cs:127-131 | deleting listed positions never lengthens the population, deletes nothing when no listed position lies inside it, and keeps the last element when its position is not listed |
| Culling.RemoveAt | TAiO/GeneticAlgorithm.cs:130 | the element at the position is dropped and the others keep their order |
| Culling.RemoveBelowRemoved | TAiO/GeneticAlgorithm.cs:127-131 | when every earlier deletion lay above `k`, element `k` is still at `k` and `RemoveAt(k)` deletes exactly it |
| Culling.SurvivorsComeFromKeptPositions | TAiO/GeneticAlgorithm.cs:127-131 | every survivor is an element from an unmarked position |
| Culling.DescendingDistinctIsStrict | TAiO/GeneticAlgorithm.cs:127 | distinct positions sorted highest first strictly decrease |
| Culling.Descending | TAiO/GeneticAlgorithm.cs:127 | the marked positions, the same ones, in strictly decreasing order |
| Culling.RemoveNextHighest | TAiO/GeneticAlgorithm.cs:128-131 | each `RemoveAt` of the removal loop is in range and deletes the next marked element |
| Randomness.RandomSource.constructor | TAiO/GeneticAlgorithm.cs:109 | the source starts at its first draw and answers every bound in range |
| Randomness.RandomSource.Next | TAiO/GeneticAlgorithm.cs:109 | `Next(bound)` answers in `[0, bound)` and moves to the next draw |
| Evolution.Mutated | TAiO/GeneticAlgorithm.cs:64-70 | every individual is replaced by its mutation, in place |
| Evolution.GeneticAlgorithm.constructor | TAiO/GeneticAlgorithm.cs:15-19 | the engine keeps the population size and generation count it is given |
| Evolution.GeneticAlgorithm.FindMaximalCommonSubgraph | TAiO/GeneticAlgorithm.cs:21-45 | the population ends at `generationSize`; after at least one generation every individual carries its fitness; the result is the first individual with the maximum score |
| Evolution.GeneticAlgorithm.RunGeneration | TAiO/GeneticAlgorithm.cs:27-41 | one generation, stage by stage. `sorted` is a sorted permutation of the scored population. `culled` is `sorted` without `generationSize/2` distinct marked positions, all below the last. The last of `sorted`, which has the maximum score, is the last of `culled`. `survivors` are `culled` normalised. `generationSize/2` children are each bred from two distinct survivors. The new population is survivors and children mutated and re-scored. The total is taken before the re-scoring. |
| Evolution.GeneticAlgorithm.RankAndCull | TAiO/GeneticAlgorithm.cs:29-31 | `sorted` is a sorted permutation of the scored population; the population becomes `sorted` without the marked positions, whose last individual, of maximum score, survives; an unfinished cull leaves `sorted` |
| Evolution.GeneticAlgorithm.RankGeneration | TAiO/GeneticAlgorithm.cs:29-30 | the population becomes a permutation of its scored self, sorted ascending by score, whose last individual has the maximum score |
| Evolution.GeneticAlgorithm.Replenish | TAiO/GeneticAlgorithm.cs:32-38 | the survivors are normalised; `generationSize/2` children are bred from two distinct survivors each, the parents being the roulette draws in order; the total and the new population are those of the mutated survivors and children |
| Evolution.GeneticAlgorithm.BreedIntoGeneration | TAiO/GeneticAlgorithm.cs:32-33 | the population becomes the normalised survivors followed by their roulette-bred children, two draws per child |
| Evolution.GeneticAlgorithm.MutateAndRescore | TAiO/GeneticAlgorithm.cs:34-38 | the total is that of the mutated population before re-scoring; the population becomes its mutation, re-scored |
| Evolution.GeneticAlgorithm.CreateFirstGeneration | TAiO/GeneticAlgorithm.cs:134-140 | the graphs of `count` calls of `CreateRandomGraph(maxSize)` are appended in order, and the population before them is kept |
| Evolution.GeneticAlgorithm.AssignScores | TAiO/GeneticAlgorithm.cs:142-148 | every individual gets its fitness and nothing else changes |
| Evolution.GeneticAlgorithm.SortGeneration | TAiO/GeneticAlgorithm.cs:30 | the population is sorted ascending by score and is a permutation of what it was |
| Evolution.GeneticAlgorithm.KillHalfOfTheGeneration | TAiO/GeneticAlgorithm.cs:113-132 | exactly `generationSize/2` distinct positions below the last are marked and deleted; the others keep their order; the last individual survives |
| Evolution.GeneticAlgorithm.MarkForRemoval | TAiO/GeneticAlgorithm.cs:115-125 | marked positions are distinct and below the last, at most half, and each was marked by a draw above it |
| Evolution.GeneticAlgorithm.RemoveMarked | TAiO/GeneticAlgorithm.cs:127-131 | removing the positions highest first deletes exactly the marked individuals |
| Evolution.GeneticAlgorithm.MakeBabies | TAiO/GeneticAlgorithm.cs:72-95 | the population is normalised; `generationSize/2` children are each the crossover of two distinct individuals; child `k`'s father is roulette draw `2k` and its mother draw `2k+1` with the father blocked; exactly two draws per child are taken |
| Evolution.GeneticAlgorithm.MakeBaby | TAiO/GeneticAlgorithm.cs:88-91 | the father is the next roulette draw and the mother the one after, with the father blocked; they are distinct; the child is their crossover; two draws are taken |
| Evolution.GeneticAlgorithm.NormalizeScores | TAiO/GeneticAlgorithm.cs:75-83 | the population becomes its normalisation |
| Evolution.GeneticAlgorithm.SelectParentIndex | TAiO/GeneticAlgorithm.cs:97-111 | the index is the entry of the expanded list at the drawn position, so it is in range, not blocked and of positive weight; one draw is taken |
| Evolution.GeneticAlgorithm.ApplyMutation | TAiO/GeneticAlgorithm.cs:64-70 | the population becomes its mutation |

## Left out

- The Graph class is not part of this model. Its operations are supplied
  functions: the matching count, `CreateRandomGraph`, `CreateChild` and
  `Mutate`. Their own randomness and their results are not modelled.
  - `CreateRandomGraph`'s k-th call is `createRandomGraph(maxSize, k)`.
- `GoodRandom` is not part of this model. It is an injected source of draws,
  each in `[0, bound)`, and no distribution is modelled.
- `CalculateStandardDeviation` is not modelled. It is a floating-point
  diagnostic that does not affect the run.
- The console output is not modelled.
- Program.cs is not part of this model.
- The early stop is commented out in the source. `generationScore` is kept
  and updated, and it has no effect.
- The unused `maxScore` of `MakeBabies` (line 85) is not modelled.
- Evolution.GeneticAlgorithm.FindMaximalCommonSubgraph requires
  `generationSize >= 1`. The source throws with an empty population, because
  `Min` and `Max` of an empty list fail.
- Evolution.GeneticAlgorithm.FindMaximalCommonSubgraph also requires
  `generationSize != 2` when at least one generation runs. There the source
  throws in the mother's draw (see above).
- Evolution.GeneticAlgorithm.FindMaximalCommonSubgraph takes a draw budget
  `cullDraws` for each culling.
  - The source's marking loop ends only with probability 1.
  - A culling that has not marked its half within the budget ends the run
    with `CullingUnfinished`.
- Evolution.GeneticAlgorithm.MarkForRemoval: does not state which position
  each draw examines. The source examines position `k mod generationSize` at
  draw `k`.
- Sorting.SortBy: states only that the result is a sorted permutation.
  `List.Sort` is unstable, so the order of equal scores is not modelled.
- Scoring.CalculateScore: does not model 32-bit wrap-around. Scores are small
  next to the input sizes.
- Population.TotalScore: does not model the overflow exception of LINQ `Sum`
  on 32-bit scores.
- Writes to `Score` and `NormalizedScore` on shared Graph objects are modelled
  as replacing records in the population. Every member of the population is a
  separately created object, so no aliasing between members exists to lose.
