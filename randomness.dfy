/** `GoodRandom`, the engine's source of random integers, made injectable:
    `next(k, bound)` is the value of the k-th draw when that draw asks for a
    number below `bound`. Every property of the engine holds for every such
    source, so it holds whatever the draws are. */
module Randomness {

  class RandomSource {
    const next: (nat, int) -> int
    var drawn: nat

    /** `Next(bound)` always answers in `[0, bound)`. */
    ghost predicate InRange()
    {
      forall k: nat, bound: int :: 0 < bound ==> 0 <= next(k, bound) < bound
    }

    constructor (next: (nat, int) -> int)
      requires forall k: nat, bound: int :: 0 < bound ==> 0 <= next(k, bound) < bound
      ensures this.next == next && drawn == 0 && InRange()
    {
      this.next := next;
      drawn := 0;
    }

    /** `GoodRandom.Next(bound)`. */
    method Next(bound: int) returns (r: int)
      requires 0 < bound && InRange()
      modifies this
      ensures r == next(old(drawn), bound) && 0 <= r < bound
      ensures drawn == old(drawn) + 1
    {
      r := next(drawn, bound);
      drawn := drawn + 1;
    }
  }
}
