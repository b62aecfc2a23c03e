/** Reordering a basic graph pattern changes neither its patterns nor its solutions. */
module OptimizerMeaning {
  import opened Common
  import opened Rdf
  import S = Sparql
  import BgpSolutions
  import opened Optimizer

  function PatternsOf(cs: seq<PatternCost>): seq<S.TriplePattern> {
    seq(|cs|, i requires 0 <= i < |cs| => cs[i].pattern)
  }

  // ----- both orders are permutations

  lemma PermuteCons(cs: seq<PatternCost>, k: nat, rest: seq<PatternCost>)
    requires k < |cs| && multiset(rest) == multiset(Without(cs, k))
    ensures multiset([cs[k]] + rest) == multiset(cs)
  {
    MultisetWithout(cs, k);
    assert cs[k] in multiset(cs);
  }

  lemma {:induction false} GreedyPermutes(cs: seq<PatternCost>, bound: set<string>, model: CostModel)
    ensures multiset(Greedy(cs, bound, model)) == multiset(cs)
    decreases |cs|
  {
    if cs != [] {
      var k := BestIndex(cs, bound, model);
      GreedyPermutes(Without(cs, k), bound + cs[k].bound, model);
      PermuteCons(cs, k, Greedy(Without(cs, k), bound + cs[k].bound, model));
    }
  }

  lemma FirstIsMinimal(cs: seq<PatternCost>, bound: set<string>, model: CostModel, j: nat)
    requires j < |Greedy(cs, bound, model)|
    ensures Score(Greedy(cs, bound, model)[0], bound, model) <= Score(Greedy(cs, bound, model)[j], bound, model)
  {
    var plan := Greedy(cs, bound, model);
    GreedyPermutes(cs, bound, model);
    assert plan[j] in multiset(plan) && plan[j] in multiset(cs) && plan[j] in cs;
  }

  /** plan[i], chosen when the patterns before it had bound their variables, scores no higher than plan[j]. */
  ghost predicate ChosenOver(plan: seq<PatternCost>, bound: set<string>, model: CostModel, i: nat, j: nat)
    requires i <= j < |plan|
  {
    var before := BoundAfter(bound, plan[..i]);
    Score(plan[i], before, model) <= Score(plan[j], before, model)
  }

  lemma BoundAfterSnoc(bound: set<string>, plan: seq<PatternCost>, i: nat)
    requires i < |plan|
    ensures BoundAfter(bound, plan[..i + 1]) == BoundAfter(bound, plan[..i]) + plan[i].bound
  {
    assert plan[..i + 1][..i] == plan[..i];
  }

  /** From every step on, the rest of a greedy order is the greedy order of the patterns still waiting. */
  lemma {:induction false} GreedySuffix(cs: seq<PatternCost>, bound: set<string>, model: CostModel, i: nat)
    returns (rest: seq<PatternCost>)
    requires i <= |Greedy(cs, bound, model)|
    ensures var plan := Greedy(cs, bound, model);
      Greedy(rest, BoundAfter(bound, plan[..i]), model) == plan[i..]
  {
    var plan := Greedy(cs, bound, model);
    if i == 0 {
      rest := cs;
      assert plan[0..] == plan && plan[..0] == [];
    } else {
      rest := GreedySuffix(cs, bound, model, i - 1);
      BoundAfterSnoc(bound, plan, i - 1);
      rest := GreedyTail(rest, BoundAfter(bound, plan[..i - 1]), model);
      assert plan[i - 1..][0] == plan[i - 1] && plan[i - 1..][1..] == plan[i..];
    }
  }

  lemma GreedyTail(cs: seq<PatternCost>, bound: set<string>, model: CostModel) returns (rest: seq<PatternCost>)
    requires Greedy(cs, bound, model) != []
    ensures var plan := Greedy(cs, bound, model);
      Greedy(rest, bound + plan[0].bound, model) == plan[1..]
  {
    rest := Without(cs, BestIndex(cs, bound, model));
  }

  /** At every step no pattern still waiting scores lower. */
  lemma GreedyStepsAreMinimal(cs: seq<PatternCost>, bound: set<string>, model: CostModel, i: nat, j: nat)
    requires i <= j < |Greedy(cs, bound, model)|
    ensures ChosenOver(Greedy(cs, bound, model), bound, model, i, j)
  {
    var plan := Greedy(cs, bound, model);
    var rest := GreedySuffix(cs, bound, model, i);
    FirstIsMinimal(rest, BoundAfter(bound, plan[..i]), model, j - i);
    assert plan[i..][0] == plan[i] && plan[i..][j - i] == plan[j];
  }

  lemma {:induction false} InsertPermutes(sorted: seq<PatternCost>, c: PatternCost)
    ensures multiset(InsertBySelectivity(sorted, c)) == multiset(sorted) + multiset{c}
  {
    if sorted != [] {
      SplitLast(sorted);
      InsertPermutes(sorted[..|sorted| - 1], c);
    }
  }

  lemma {:induction false} SortPermutes(cs: seq<PatternCost>)
    ensures multiset(SortBySelectivity(cs)) == multiset(cs)
  {
    if cs != [] {
      SplitLast(cs);
      SortPermutes(cs[..|cs| - 1]);
      InsertPermutes(SortBySelectivity(cs[..|cs| - 1]), cs[|cs| - 1]);
    }
  }

  ghost predicate Ascending(cs: seq<PatternCost>) {
    forall i, j :: 0 <= i < j < |cs| ==> cs[i].selectivity <= cs[j].selectivity
  }

  lemma {:induction false} InsertAscending(sorted: seq<PatternCost>, c: PatternCost)
    requires Ascending(sorted)
    ensures Ascending(InsertBySelectivity(sorted, c))
  {
    if sorted != [] && sorted[|sorted| - 1].selectivity > c.selectivity {
      var before, last := sorted[..|sorted| - 1], sorted[|sorted| - 1];
      InsertAscending(before, c);
      InsertPermutes(before, c);
      var inserted := InsertBySelectivity(before, c);
      forall i | 0 <= i < |inserted| ensures inserted[i].selectivity <= last.selectivity {
        assert inserted[i] in multiset(inserted);
        assert inserted[i] in before || inserted[i] == c;
      }
    }
  }

  function WithSelectivity(cs: seq<PatternCost>, s: real): seq<PatternCost> {
    if cs == [] then []
    else if cs[|cs| - 1].selectivity == s then WithSelectivity(cs[..|cs| - 1], s) + [cs[|cs| - 1]]
    else WithSelectivity(cs[..|cs| - 1], s)
  }

  lemma {:induction false} InsertStable(sorted: seq<PatternCost>, c: PatternCost, s: real)
    requires Ascending(sorted)
    ensures WithSelectivity(InsertBySelectivity(sorted, c), s)
         == if c.selectivity == s then WithSelectivity(sorted, s) + [c] else WithSelectivity(sorted, s)
  {
    if sorted == [] {
      assert [c][..0] == [] && [] + [c] == [c];
    } else if sorted[|sorted| - 1].selectivity <= c.selectivity {
      assert (sorted + [c])[..|sorted|] == sorted;
    } else {
      var before, last := sorted[..|sorted| - 1], sorted[|sorted| - 1];
      InsertStable(before, c, s);
      var inserted := InsertBySelectivity(before, c);
      assert (inserted + [last])[..|inserted|] == inserted;
      assert last.selectivity > c.selectivity;
    }
  }

  /** The heuristic order is by selectivity, and patterns of equal selectivity keep their order. */
  lemma {:induction false} SortIsStable(cs: seq<PatternCost>, s: real)
    ensures Ascending(SortBySelectivity(cs)) && WithSelectivity(SortBySelectivity(cs), s) == WithSelectivity(cs, s)
  {
    if cs != [] {
      SortIsStable(cs[..|cs| - 1], s);
      InsertAscending(SortBySelectivity(cs[..|cs| - 1]), cs[|cs| - 1]);
      InsertStable(SortBySelectivity(cs[..|cs| - 1]), cs[|cs| - 1], s);
    }
  }

  // ----- so the solutions are the same

  lemma SamePatterns(cs: seq<PatternCost>, plan: seq<PatternCost>)
    requires multiset(plan) == multiset(cs)
    ensures forall p :: p in PatternsOf(cs) <==> p in PatternsOf(plan)
    ensures multiset(PatternsOf(cs)) == multiset(PatternsOf(plan))
  {
    PatternsAreFlatMap(cs);
    PatternsAreFlatMap(plan);
    FlatMapPermutation((c: PatternCost) => [c.pattern], cs, plan);
    forall p ensures p in PatternsOf(cs) <==> p in PatternsOf(plan) {
      assert p in multiset(PatternsOf(cs)) <==> p in multiset(PatternsOf(plan));
    }
  }

  lemma {:induction false} PatternsAreFlatMap(cs: seq<PatternCost>)
    ensures PatternsOf(cs) == FlatMap((c: PatternCost) => [c.pattern], cs)
  {
    if cs != [] {
      PatternsAreFlatMap(cs[1..]);
      assert PatternsOf(cs) == [cs[0].pattern] + PatternsOf(cs[1..]);
    }
  }

  /** Joining in plan order gives the same bag of solutions as joining in the order written. */
  lemma ReorderingKeepsSolutions(patterns: seq<S.TriplePattern>, cs: seq<PatternCost>, plan: seq<PatternCost>, data: seq<Triple>)
    requires PatternsOf(cs) == patterns && multiset(plan) == multiset(cs) && NoDup(data)
    ensures multiset(S.EvalBgp(PatternsOf(plan), data)) == multiset(S.EvalBgp(patterns, data))
    ensures multiset(PatternsOf(plan)) == multiset(patterns)
  {
    SamePatterns(cs, plan);
    BgpSolutions.BgpOrderIrrelevant(PatternsOf(plan), patterns, data);
  }

  lemma GreedyKeepsSolutions(patterns: seq<S.TriplePattern>, stats: Statistics, indexes: Option<nat -> real>,
                             model: CostModel, data: seq<Triple>)
    requires NoDup(data)
    ensures var plan := Greedy(Estimates(patterns, stats, indexes), {}, model);
      multiset(S.EvalBgp(PatternsOf(plan), data)) == multiset(S.EvalBgp(patterns, data))
      && multiset(PatternsOf(plan)) == multiset(patterns)
  {
    var cs := Estimates(patterns, stats, indexes);
    GreedyPermutes(cs, {}, model);
    assert PatternsOf(cs) == patterns;
    ReorderingKeepsSolutions(patterns, cs, Greedy(cs, {}, model), data);
  }

  lemma HeuristicKeepsSolutions(patterns: seq<S.TriplePattern>, totalTriples: nat, hash: string -> nat, data: seq<Triple>)
    requires NoDup(data)
    ensures var plan := SortBySelectivity(HeuristicEstimates(patterns, totalTriples, hash));
      multiset(S.EvalBgp(PatternsOf(plan), data)) == multiset(S.EvalBgp(patterns, data))
      && multiset(PatternsOf(plan)) == multiset(patterns)
  {
    var cs := HeuristicEstimates(patterns, totalTriples, hash);
    SortPermutes(cs);
    assert PatternsOf(cs) == patterns;
    ReorderingKeepsSolutions(patterns, cs, SortBySelectivity(cs), data);
  }

  // ----- what the estimates guarantee

  /** The statistics never answer below zero. */
  ghost predicate NonNegative(stats: Statistics, indexes: Option<nat -> real>) {
    && (forall id :: stats.predicateSelectivity(id) >= 0.0)
    && (indexes.Some? ==> forall id :: indexes.value(id) >= 0.0)
  }

  lemma NonNegativeProduct(a: real, b: real)
    requires a >= 0.0 && b >= 0.0
    ensures a * b >= 0.0
  {
  }

  lemma EstimatePositive(p: S.TriplePattern, stats: Statistics, indexes: Option<nat -> real>, model: CostModel)
    requires NonNegative(stats, indexes) && model.fullScan >= 0.0 && model.indexAccess >= 0.0
    ensures EstimateCost(p, stats, indexes).Cost(model) >= 0.0
  {
    EstimateSigns(p, stats, indexes);
    CostSign(EstimateCost(p, stats, indexes), model);
  }

  lemma EstimateSigns(p: S.TriplePattern, stats: Statistics, indexes: Option<nat -> real>)
    requires NonNegative(stats, indexes)
    ensures var c := EstimateCost(p, stats, indexes);
      c.cardinality >= 0.0 && (c.hint.UsePredicateIndex? ==> c.hint.selectivity >= 0.0)
  {
    var c := EstimateCost(p, stats, indexes);
    NonNegativeProduct(AtLeastOne(stats.tripleCount), c.selectivity);
  }

  lemma CostSign(c: PatternCost, model: CostModel)
    requires c.cardinality >= 0.0 && (c.hint.UsePredicateIndex? ==> c.hint.selectivity >= 0.0)
    requires model.fullScan >= 0.0 && model.indexAccess >= 0.0
    ensures c.Cost(model) >= 0.0
  {
    NonNegativeProduct(c.cardinality, model.fullScan);
    NonNegativeProduct(c.cardinality, model.indexAccess);
    if c.hint.UsePredicateIndex? {
      NonNegativeProduct(c.cardinality * model.indexAccess, c.hint.selectivity);
    }
  }

  /** For every greedy plan over real statistics, the total is at least the sum of the pattern costs. */
  lemma GreedyTotalAtLeastSum(patterns: seq<S.TriplePattern>, stats: Statistics, indexes: Option<nat -> real>, model: CostModel)
    requires NonNegative(stats, indexes) && model.fullScan >= 0.0 && model.indexAccess >= 0.0
    ensures var plan := Greedy(Estimates(patterns, stats, indexes), {}, model);
      TotalCost(plan, model) >= SumOfCosts(plan, model)
  {
    var cs := Estimates(patterns, stats, indexes);
    var plan := Greedy(cs, {}, model);
    GreedyPermutes(cs, {}, model);
    forall i | 0 <= i < |plan| ensures plan[i].Cost(model) >= 0.0 {
      assert plan[i] in multiset(plan) && plan[i] in multiset(cs) && plan[i] in cs;
      var j :| 0 <= j < |cs| && cs[j] == plan[i];
      EstimatePositive(patterns[j], stats, indexes, model);
    }
    TotalAtLeastSum(plan, model);
  }

  /** Nowhere in a greedy plan does a pattern that shares no bound variable go before a waiting one that
      does, unless it is at least ten times cheaper. */
  lemma ConnectedFirst(cs: seq<PatternCost>, bound: set<string>, model: CostModel, i: nat, j: nat)
    requires var plan := Greedy(cs, bound, model);
      && i <= j < |plan|
      && var before := BoundAfter(bound, plan[..i]);
         plan[j].bound * before != {} && plan[j].Cost(model) < 10.0 * plan[i].Cost(model)
    ensures var plan := Greedy(cs, bound, model);
      plan[i].bound * BoundAfter(bound, plan[..i]) != {}
  {
    GreedyStepsAreMinimal(cs, bound, model, i, j);
    assert ChosenOver(Greedy(cs, bound, model), bound, model, i, j);
  }

  // ----- what the heuristic prefers

  /** q leaves no position open that p fixes. */
  predicate AtLeastAsBound(q: S.TriplePattern, p: S.TriplePattern) {
    (p.subj.Fixed? ==> q.subj.Fixed?) && (p.pred.PredIri? ==> q.pred.PredIri?) && (p.obj.Fixed? ==> q.obj.Fixed?)
  }

  /** Fixing more positions never makes a pattern less selective, and rdf:type halves it. */
  lemma MoreBoundIsMoreSelective(p: S.TriplePattern, q: S.TriplePattern)
    requires AtLeastAsBound(q, p) && (IsTypePattern(p) ==> IsTypePattern(q))
    ensures 0.0 < HeuristicSelectivity(q) <= HeuristicSelectivity(p) <= 1.0
    ensures !AtLeastAsBound(p, q) ==> HeuristicSelectivity(q) < HeuristicSelectivity(p)
  {
  }

  /** In the heuristic plan a pattern that fixes strictly more than another goes before it. */
  lemma MoreBoundGoesFirst(patterns: seq<S.TriplePattern>, totalTriples: nat, hash: string -> nat, i: nat, j: nat)
    requires var plan := SortBySelectivity(HeuristicEstimates(patterns, totalTriples, hash));
      && i < |plan| && j < |plan|
      && var p, q := plan[i].pattern, plan[j].pattern;
         AtLeastAsBound(q, p) && !AtLeastAsBound(p, q) && (IsTypePattern(p) ==> IsTypePattern(q))
    ensures j < i
  {
    var cs := HeuristicEstimates(patterns, totalTriples, hash);
    var plan := SortBySelectivity(cs);
    SortPermutes(cs);
    SortIsStable(cs, 0.0);
    forall c | c in plan ensures c.selectivity == HeuristicSelectivity(c.pattern) {
      assert c in multiset(plan) && c in multiset(cs) && c in cs;
    }
    assert plan[i] in plan && plan[j] in plan;
    MoreBoundIsMoreSelective(plan[i].pattern, plan[j].pattern);
  }
}
