/** The engine's view of the Graph class: an individual of the population and
    the operations of the Graph class that the engine calls. */
module Individuals {

  datatype Option<T> = None | Some(value: T)

  /** One candidate subgraph. `Adjacency` is the matrix the Graph class is built
      from; the engine never looks inside it, it only hands it back to the Graph
      operations. The three counts are computed by the Graph class; `Score` and
      `NormalizedScore` are the two fields the engine writes. */
  datatype Graph = Graph(
    Adjacency: seq<seq<int>>,
    Size: int,
    EdgesCount: int,
    NumberOfUnconnectedSubgraphs: int,
    Score: int,
    NormalizedScore: int)

  /** The Graph class's own operations, which are outside this model and are
      supplied by the caller.
      - `unconnectedInMatching(g, target)`: how many unconnected subgraphs result
        when `target` is matched inside `g` (computed from the two matrices);
      - `createRandomGraph(maxSize, k)`: what the k-th call of
        `CreateRandomGraph(maxSize)` returns (how it uses `maxSize` belongs to
        the Graph class);
      - `createChild(mother, father)`: the crossover of two parents;
      - `mutate(g)`: `g` after its self-mutation. */
  datatype GraphOps = GraphOps(
    unconnectedInMatching: (seq<seq<int>>, seq<seq<int>>) -> int,
    createRandomGraph: (int, nat) -> Graph,
    createChild: (Graph, Graph) -> Graph,
    mutate: Graph -> Graph)

  /** The sort key of `List.Sort` at the start of each generation. */
  function ScoreOf(g: Graph): (key: int)
  {
    g.Score
  }
}
