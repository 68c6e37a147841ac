/** Aggregates over a population that the engine takes with LINQ: `Min`,
    `Max`, `First` and `Sum` over the individuals' scores. */
module Population {
  import opened Individuals
  import opened Sorting

  /** `Min(graph => graph.Score)`; LINQ throws on an empty list. */
  function MinScore(gen: seq<Graph>): (m: int)
    requires |gen| > 0
    ensures exists k :: 0 <= k < |gen| && gen[k].Score == m
    ensures forall k :: 0 <= k < |gen| ==> m <= gen[k].Score
  {
    if |gen| == 1 then gen[0].Score
    else
      var rest := MinScore(gen[1..]);
      if gen[0].Score <= rest then gen[0].Score else rest
  }

  /** `Max(graph => graph.Score)`; LINQ throws on an empty list. */
  function MaxScore(gen: seq<Graph>): (m: int)
    requires |gen| > 0
    ensures exists k :: 0 <= k < |gen| && gen[k].Score == m
    ensures forall k :: 0 <= k < |gen| ==> gen[k].Score <= m
  {
    if |gen| == 1 then gen[0].Score
    else
      var rest := MaxScore(gen[1..]);
      if gen[0].Score >= rest then gen[0].Score else rest
  }

  /** `First(graph => graph.Score == score)`, as a position; LINQ throws when
      no individual has that score. */
  function FirstWithScore(gen: seq<Graph>, score: int): (k: nat)
    requires exists j :: 0 <= j < |gen| && gen[j].Score == score
    ensures k < |gen| && gen[k].Score == score
    ensures forall j :: 0 <= j < k ==> gen[j].Score != score
  {
    if gen[0].Score == score then 0
    else
      assert exists j :: 0 <= j < |gen[1..]| && gen[1..][j].Score == score by {
        var j :| 0 <= j < |gen| && gen[j].Score == score;
        assert gen[1..][j - 1] == gen[j];
      }
      1 + FirstWithScore(gen[1..], score)
  }

  /** The final pick of a run: the first individual with the maximum score. */
  function BestIndex(gen: seq<Graph>): (k: nat)
    requires |gen| > 0
    ensures k < |gen|
    ensures forall j :: 0 <= j < |gen| ==> gen[j].Score <= gen[k].Score
    ensures forall j :: 0 <= j < k ==> gen[j].Score < gen[k].Score
  {
    FirstWithScore(gen, MaxScore(gen))
  }

  /** The two properties of BestIndex single it out: any position holding a
      maximum score, with only smaller scores before it, is BestIndex. */
  lemma BestIndexIsUnique(gen: seq<Graph>, k: nat)
    requires k < |gen|
    requires forall j :: 0 <= j < |gen| ==> gen[j].Score <= gen[k].Score
    requires forall j :: 0 <= j < k ==> gen[j].Score < gen[k].Score
    ensures BestIndex(gen) == k
  {
  }

  /** `Sum(graph => graph.Score)`. */
  function TotalScore(gen: seq<Graph>): (total: int)
  {
    if gen == [] then 0 else gen[0].Score + TotalScore(gen[1..])
  }

  /** The total lies between `|gen|` times the lowest score and `|gen|` times
      the highest. */
  lemma {:induction false} TotalScoreBounds(gen: seq<Graph>)
    requires |gen| > 0
    ensures Times(|gen|, MinScore(gen)) <= TotalScore(gen) <= Times(|gen|, MaxScore(gen))
  {
    if |gen| > 1 {
      TotalScoreBounds(gen[1..]);
      TimesMonotone(|gen| - 1, MinScore(gen), MinScore(gen[1..]));
      TimesMonotone(|gen| - 1, MaxScore(gen[1..]), MaxScore(gen));
    }
  }

  /** `n` copies of `m` added up. */
  function Times(n: nat, m: int): (r: int)
  {
    if n == 0 then 0 else m + Times(n - 1, m)
  }

  lemma {:induction false} TimesMonotone(n: nat, a: int, b: int)
    requires a <= b
    ensures Times(n, a) <= Times(n, b)
  {
    if n > 0 {
      TimesMonotone(n - 1, a, b);
    }
  }

  lemma {:induction false} TotalScoreAppend(a: seq<Graph>, b: seq<Graph>)
    ensures TotalScore(a + b) == TotalScore(a) + TotalScore(b)
  {
    if a == [] {
      assert a + b == b;
    } else {
      assert (a + b)[1..] == a[1..] + b;
      TotalScoreAppend(a[1..], b);
    }
  }

  lemma TotalScoreSplit(b: seq<Graph>, j: int)
    requires 0 <= j < |b|
    ensures TotalScore(b) == b[j].Score + TotalScore(b[..j] + b[j + 1..])
  {
    var front, back := b[..j], b[j + 1..];
    assert b == (front + [b[j]]) + back;
    TotalScoreAppend(front + [b[j]], back);
    TotalScoreAppend(front, [b[j]]);
    TotalScoreAppend(front, back);
    assert TotalScore([b[j]]) == b[j].Score + TotalScore([]);
  }

  lemma MultisetSplit(b: seq<Graph>, j: int)
    requires 0 <= j < |b|
    ensures multiset(b[..j] + b[j + 1..]) == multiset(b) - multiset{b[j]}
  {
    assert b == b[..j] + [b[j]] + b[j + 1..];
  }

  /** Rearranging a population (as the sort does) leaves its total score alone. */
  lemma {:induction false} TotalScorePermutation(a: seq<Graph>, b: seq<Graph>)
    requires multiset(a) == multiset(b)
    ensures TotalScore(a) == TotalScore(b)
  {
    if a != [] {
      assert a[0] in multiset(b);
      var j :| 0 <= j < |b| && b[j] == a[0];
      TotalScoreSplit(b, j);
      MultisetSplit(b, j);
      assert a == [a[0]] + a[1..];
      assert multiset(a[1..]) == multiset(a) - multiset{a[0]};
      TotalScorePermutation(a[1..], b[..j] + b[j + 1..]);
    }
  }

  /** After an ascending sort by score, the last individual has the maximum score. */
  lemma SortedLastIsBest(gen: seq<Graph>)
    requires |gen| > 0
    requires SortedBy(gen, ScoreOf)
    ensures gen[|gen| - 1].Score == MaxScore(gen)
  {
    var m := MaxScore(gen);
    var k :| 0 <= k < |gen| && gen[k].Score == m;
    if k < |gen| - 1 {
      assert ScoreOf(gen[k]) <= ScoreOf(gen[|gen| - 1]);
    }
  }

  /** Rearranging a population leaves its maximum score alone. */
  lemma MaxScorePermutation(a: seq<Graph>, b: seq<Graph>)
    requires |a| > 0
    requires multiset(a) == multiset(b)
    ensures |b| > 0 && MaxScore(a) == MaxScore(b)
  {
    assert |b| == |multiset(b)| == |multiset(a)| == |a|;
    var ka :| 0 <= ka < |a| && a[ka].Score == MaxScore(a);
    var kb :| 0 <= kb < |b| && b[kb].Score == MaxScore(b);
    assert a[ka] in multiset(b);
    assert b[kb] in multiset(a);
  }
}
