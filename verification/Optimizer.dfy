/** Join ordering of basic graph patterns (mapper/src/query/optimizer.rs), over real costs. */
module Optimizer {
  import opened Common
  import opened Rdf
  import S = Sparql

  datatype CostModel = CostModel(fullScan: real, indexAccess: real)

  const DEFAULT_MODEL := CostModel(1.0, 0.1)

  datatype IndexHint =
    | UseTypeIndex(typeId: nat)
    | UsePredicateIndex(predicateId: nat, selectivity: real)
    | UseNamespaceIndex(ns: string)
    | FullScan

  datatype PatternCost = PatternCost(pattern: S.TriplePattern, cardinality: real, selectivity: real,
                                     hint: IndexHint, bound: set<string>) {
    function Cost(model: CostModel): real {
      match hint
      case FullScan => cardinality * model.fullScan
      case UseTypeIndex(_) => cardinality * model.indexAccess * 0.5
      case UsePredicateIndex(_, s) => cardinality * model.indexAccess * s
      case UseNamespaceIndex(_) => cardinality * model.indexAccess
    }
  }

  datatype Plan = Plan(patterns: seq<PatternCost>, totalCost: real, boundAtStep: seq<set<string>>)

  /** What the statistics and the indexes answer; IRIs are looked up by hash. */
  datatype Statistics = Statistics(tripleCount: nat, distinctSubjects: nat, distinctObjects: nat,
                                   predicateSelectivity: nat -> real, hash: string -> nat)

  // ----- estimates

  function TermVariables(t: S.TermPattern): set<string> {
    if t.Var? then {t.name} else {}
  }

  function Variables(p: S.TriplePattern): set<string> {
    TermVariables(p.subj) + (if p.pred.PredVar? then {p.pred.name} else {}) + TermVariables(p.obj)
  }

  predicate IsTypePattern(p: S.TriplePattern) {
    p.pred.PredIri? && p.pred.iri == RDF_TYPE
  }

  function MaxReal(a: real, b: real): real { if a < b then b else a }

  function AtLeastOne(n: nat): real { if n == 0 then 1.0 else n as real }

  /** The selectivity as the subject, the predicate and the object are taken into account. */
  function AfterSubject(p: S.TriplePattern, stats: Statistics): real {
    if p.subj.Var? then 1.0 else 1.0 / AtLeastOne(stats.distinctSubjects)
  }

  function AfterPredicate(p: S.TriplePattern, stats: Statistics): real {
    if p.pred.PredIri? then AfterSubject(p, stats) * stats.predicateSelectivity(stats.hash(p.pred.iri)) else AfterSubject(p, stats)
  }

  function AfterObject(p: S.TriplePattern, stats: Statistics): real {
    if p.obj.Var? then AfterPredicate(p, stats) else AfterPredicate(p, stats) * (1.0 / AtLeastOne(stats.distinctObjects))
  }

  function EstimateSelectivity(p: S.TriplePattern, stats: Statistics): real {
    MaxReal(AfterObject(p, stats), 0.0001)
  }

  /** With or without an index manager the hint is chosen alike; only the selectivity differs. */
  function HintFor(p: S.TriplePattern, selectivity: nat -> real, hash: string -> nat): IndexHint {
    if IsTypePattern(p) && p.obj.Fixed? && p.obj.term.Iri? then UseTypeIndex(hash(p.obj.term.iri))
    else if p.pred.PredIri? then UsePredicateIndex(hash(p.pred.iri), selectivity(hash(p.pred.iri)))
    else FullScan
  }

  function EstimateCost(p: S.TriplePattern, stats: Statistics, indexes: Option<nat -> real>): PatternCost {
    var selectivity := EstimateSelectivity(p, stats);
    PatternCost(p, AtLeastOne(stats.tripleCount) * selectivity, selectivity,
                HintFor(p, if indexes.Some? then indexes.value else stats.predicateSelectivity, stats.hash), Variables(p))
  }

  function HeuristicSelectivity(p: S.TriplePattern): real {
    var boundTerms := (if p.subj.Var? then 0 else 1) + (if p.pred.PredVar? then 0 else 1) + (if p.obj.Var? then 0 else 1);
    var base := if boundTerms == 3 then 0.001 else if boundTerms == 2 then 0.01 else if boundTerms == 1 then 0.1 else 1.0;
    if IsTypePattern(p) then base * 0.5 else base
  }

  function EstimateHeuristic(p: S.TriplePattern, totalTriples: nat, hash: string -> nat): PatternCost {
    var selectivity := HeuristicSelectivity(p);
    var total := (if totalTriples < 1000 then 1000 else totalTriples) as real;
    var hint :=
      if IsTypePattern(p) then
        if p.obj.Fixed? && p.obj.term.Iri? then UseTypeIndex(hash(p.obj.term.iri)) else FullScan
      else if p.pred.PredIri? then UsePredicateIndex(hash(p.pred.iri), selectivity)
      else FullScan;
    PatternCost(p, total * selectivity, selectivity, hint, Variables(p))
  }

  // ----- choosing the next pattern

  /** Before anything is bound, the selectivity; afterwards the cost, a tenth of it when the
      pattern shares a variable. */
  function Score(c: PatternCost, bound: set<string>, model: CostModel): real {
    if bound == {} then c.selectivity
    else c.Cost(model) * (if c.bound * bound != {} then 0.1 else 1.0)
  }

  /** The lowest score, the earliest of them on ties. */
  ghost predicate IsBest(cs: seq<PatternCost>, bound: set<string>, model: CostModel, k: nat) {
    && k < |cs|
    && (forall j :: 0 <= j < |cs| ==> Score(cs[k], bound, model) <= Score(cs[j], bound, model))
    && (forall j :: 0 <= j < k ==> Score(cs[k], bound, model) < Score(cs[j], bound, model))
  }

  lemma BestIsUnique(cs: seq<PatternCost>, bound: set<string>, model: CostModel, j: nat, k: nat)
    requires IsBest(cs, bound, model, j) && IsBest(cs, bound, model, k)
    ensures j == k
  {
    assert Score(cs[j], bound, model) <= Score(cs[k], bound, model) <= Score(cs[j], bound, model);
  }

  /** The candidate to take: the last one only if it beats the best of those before it. */
  function BestIndex(cs: seq<PatternCost>, bound: set<string>, model: CostModel): (k: nat)
    requires cs != []
    ensures IsBest(cs, bound, model, k)
  {
    if |cs| == 1 then 0
    else
      var n := |cs| - 1;
      var best := BestIndex(cs[..n], bound, model);
      assert forall j :: 0 <= j < n ==> cs[..n][j] == cs[j];
      if Score(cs[n], bound, model) < Score(cs[best], bound, model) then n else best
  }

  function Without(cs: seq<PatternCost>, k: nat): (rest: seq<PatternCost>)
    requires k < |cs|
    ensures |rest| == |cs| - 1
  {
    cs[..k] + cs[k + 1..]
  }

  /** The order that takes the best pattern first and goes on with the others. */
  function Greedy(cs: seq<PatternCost>, bound: set<string>, model: CostModel): seq<PatternCost>
    decreases |cs|
  {
    if cs == [] then []
    else
      var k := BestIndex(cs, bound, model);
      [cs[k]] + Greedy(Without(cs, k), bound + cs[k].bound, model)
  }

  function BoundAfter(start: set<string>, cs: seq<PatternCost>): set<string> {
    if cs == [] then start else BoundAfter(start, cs[..|cs| - 1]) + cs[|cs| - 1].bound
  }

  /** The variables of the first i + 1 patterns, at every i. */
  ghost predicate BoundSteps(plan: seq<PatternCost>, steps: seq<set<string>>) {
    |steps| == |plan| && forall i :: 0 <= i < |plan| ==> steps[i] == BoundAfter({}, plan[..i + 1])
  }

  lemma {:induction false} BoundAfterIsUnion(cs: seq<PatternCost>, v: string)
    ensures v in BoundAfter({}, cs) <==> exists i :: 0 <= i < |cs| && v in cs[i].bound
  {
    if cs != [] {
      BoundAfterIsUnion(cs[..|cs| - 1], v);
      if v in cs[|cs| - 1].bound { assert v in cs[|cs| - 1].bound; }
    }
  }

  // ----- plan cost

  /** Rows that reach the next pattern, by the cost model's reckoning. */
  function Cumulative(cs: seq<PatternCost>): real {
    if cs == [] then 1.0 else Cumulative(cs[..|cs| - 1]) * MaxReal(cs[|cs| - 1].cardinality, 1.0)
  }

  function TotalCost(cs: seq<PatternCost>, model: CostModel): real {
    if cs == [] then 0.0
    else TotalCost(cs[..|cs| - 1], model) + cs[|cs| - 1].Cost(model) * Cumulative(cs[..|cs| - 1])
  }

  function SumOfCosts(cs: seq<PatternCost>, model: CostModel): real {
    if cs == [] then 0.0 else SumOfCosts(cs[..|cs| - 1], model) + cs[|cs| - 1].Cost(model)
  }

  lemma ProductAtLeast(a: real, b: real, low: real)
    requires a >= low >= 0.0 && b >= 1.0
    ensures a * b >= low
  {
    assert a * b == a + a * (b - 1.0);
    assert a * (b - 1.0) >= 0.0;
  }

  lemma {:induction false} CumulativeAtLeastOne(cs: seq<PatternCost>)
    ensures Cumulative(cs) >= 1.0
  {
    if cs != [] {
      CumulativeAtLeastOne(cs[..|cs| - 1]);
      ProductAtLeast(Cumulative(cs[..|cs| - 1]), MaxReal(cs[|cs| - 1].cardinality, 1.0), 1.0);
    }
  }

  /** The nested-loop total is never below the sum of the pattern costs. */
  lemma {:induction false} TotalAtLeastSum(cs: seq<PatternCost>, model: CostModel)
    requires forall i :: 0 <= i < |cs| ==> cs[i].Cost(model) >= 0.0
    ensures TotalCost(cs, model) >= SumOfCosts(cs, model)
  {
    if cs != [] {
      var before, last := cs[..|cs| - 1], cs[|cs| - 1];
      TotalAtLeastSum(before, model);
      CumulativeAtLeastOne(before);
      ProductAtLeast(last.Cost(model), Cumulative(before), last.Cost(model));
    }
  }

  // ----- nested loops

  /** totals[i] is the cost of the loops from the i-th on: each runs once, and those inside it once for each of its
      rows, of which it is reckoned to have one at least. */
  ghost predicate NestedTotals(cs: seq<PatternCost>, model: CostModel, totals: seq<real>) {
    && |totals| == |cs| + 1 && totals[|cs|] == 0.0
    && forall i :: 0 <= i < |cs| ==> LoopTotal(cs[i], model, totals[i], totals[i + 1])
  }

  ghost predicate LoopTotal(c: PatternCost, model: CostModel, total: real, inner: real) {
    total == c.Cost(model) + (if c.cardinality > 1.0 then c.cardinality else 1.0) * inner
  }

  lemma {:induction false} SomeTotals(cs: seq<PatternCost>, model: CostModel) returns (totals: seq<real>)
    ensures NestedTotals(cs, model, totals)
  {
    totals := [0.0];
    if cs != [] {
      totals := SomeTotals(cs[1..], model);
      totals := [cs[0].Cost(model) + (if cs[0].cardinality > 1.0 then cs[0].cardinality else 1.0) * totals[0]] + totals;
    }
  }

  /** The rows and costs of running totals, and of totals from within, at one loop. */
  lemma OneLoop(run: real, cum: real, cost: real, rows: real, total: real, inner: real)
    requires total == cost + rows * inner
    ensures run + cum * total == (run + cost * cum) + (cum * rows) * inner
  {
    assert cum * (cost + rows * inner) == cum * cost + cum * (rows * inner);
    assert cum * (rows * inner) == (cum * rows) * inner;
  }

  /** What has been reckoned so far, and the rest for each row that has. */
  ghost predicate SplitTotal(cs: seq<PatternCost>, model: CostModel, i: nat, inner: real, total: real)
    requires i <= |cs|
  {
    total == TotalCost(cs[..i], model) + Cumulative(cs[..i]) * inner
  }

  lemma SplitStep(cs: seq<PatternCost>, model: CostModel, i: nat, inner: real, next: real, total: real)
    requires i < |cs| && SplitTotal(cs, model, i, inner, total) && LoopTotal(cs[i], model, inner, next)
    ensures SplitTotal(cs, model, i + 1, next, total)
  {
    assert cs[..i + 1][..i] == cs[..i];
    OneLoop(TotalCost(cs[..i], model), Cumulative(cs[..i]), cs[i].Cost(model), MaxReal(cs[i].cardinality, 1.0), inner, next);
  }

  lemma {:induction false} SplitAll(cs: seq<PatternCost>, model: CostModel, totals: seq<real>, i: nat)
    requires NestedTotals(cs, model, totals) && i <= |cs|
    ensures SplitTotal(cs, model, i, totals[i], totals[0])
  {
    if i == 0 {
      assert cs[..0] == [] && TotalCost([], model) == 0.0 && Cumulative([]) == 1.0;
    } else {
      SplitAll(cs, model, totals, i - 1);
      SplitStep(cs, model, i - 1, totals[i - 1], totals[i], totals[0]);
    }
  }

  /** The running total is the cost of nested loops. */
  lemma TotalIsNested(cs: seq<PatternCost>, model: CostModel, totals: seq<real>)
    requires NestedTotals(cs, model, totals)
    ensures TotalCost(cs, model) == totals[0]
  {
    SplitAll(cs, model, totals, |cs|);
    assert cs[..|cs|] == cs;
  }

  // ----- the methods

  class JoinOrderOptimizer {
    var costModel: CostModel
    var totalTriples: nat

    constructor (model: CostModel)
      ensures costModel == model && totalTriples == 0
    {
      costModel, totalTriples := model, 0;
    }

    method SetTotalTriples(count: nat)
      modifies this
      ensures totalTriples == count && costModel == old(costModel)
    {
      totalTriples := count;
    }

    method FindBestNextPattern(cs: seq<PatternCost>, bound: set<string>) returns (best: nat)
      requires cs != []
      ensures IsBest(cs, bound, costModel, best)
    {
      best := 0;
      if bound == {} {
        for i := 1 to |cs|
          invariant IsBest(cs[..i], bound, costModel, best)
        {
          BestStep(cs, i, bound, costModel, best);
          if cs[i].selectivity < cs[best].selectivity { best := i; }
        }
        assert cs[..|cs|] == cs;
        return;
      }
      var bestScore: Option<real> := None;
      for i := 0 to |cs|
        invariant bestScore.None? <==> i == 0
        invariant i > 0 ==> IsBest(cs[..i], bound, costModel, best) && bestScore.value == Score(cs[best], bound, costModel)
      {
        if i > 0 { BestStep(cs, i, bound, costModel, best); }
        var factor := if cs[i].bound * bound != {} then 0.1 else 1.0;
        var score := cs[i].Cost(costModel) * factor;
        if bestScore.None? || score < bestScore.value {
          bestScore, best := Some(score), i;
        }
      }
      assert cs[..|cs|] == cs;
    }

    method CalculatePlanCost(cs: seq<PatternCost>) returns (total: real)
      ensures total == TotalCost(cs, costModel)
      ensures exists totals :: NestedTotals(cs, costModel, totals) && total == totals[0]
    {
      var cumulative := 1.0;
      total := 0.0;
      for i := 0 to |cs|
        invariant total == TotalCost(cs[..i], costModel) && cumulative == Cumulative(cs[..i])
      {
        assert cs[..i + 1][..i] == cs[..i];
        total := total + cs[i].Cost(costModel) * cumulative;
        cumulative := cumulative * MaxReal(cs[i].cardinality, 1.0);
      }
      assert cs[..|cs|] == cs;
      ghost var totals := SomeTotals(cs, costModel);
      TotalIsNested(cs, costModel, totals);
    }

    method OptimizeWithStatistics(patterns: seq<S.TriplePattern>, stats: Statistics, indexes: Option<nat -> real>)
      returns (plan: Plan)
      ensures plan.patterns == Greedy(Estimates(patterns, stats, indexes), {}, costModel)
      ensures BoundSteps(plan.patterns, plan.boundAtStep)
      ensures plan.totalCost == TotalCost(plan.patterns, costModel)
    {
      var cs := Estimates(patterns, stats, indexes);
      if patterns == [] { return Plan([], 0.0, []); }
      var ordered, boundVars, steps := [], {}, [];
      while cs != []
        invariant ordered + Greedy(cs, boundVars, costModel) == Greedy(Estimates(patterns, stats, indexes), {}, costModel)
        invariant boundVars == BoundAfter({}, ordered) && BoundSteps(ordered, steps)
        decreases |cs|
      {
        var k := FindBestNextPattern(cs, boundVars);
        var best := cs[k];
        GreedyStep(ordered, cs, boundVars, costModel, k);
        StepsGrow(ordered, steps, best);
        cs := Without(cs, k);
        boundVars := boundVars + best.bound;
        steps := steps + [boundVars];
        ordered := ordered + [best];
      }
      assert ordered + [] == ordered;
      var total := CalculatePlanCost(ordered);
      plan := Plan(ordered, total, steps);
    }

    method OptimizeHeuristic(patterns: seq<S.TriplePattern>, hash: string -> nat) returns (plan: Plan)
      ensures plan.patterns == SortBySelectivity(HeuristicEstimates(patterns, totalTriples, hash))
      ensures BoundSteps(plan.patterns, plan.boundAtStep)
      ensures plan.totalCost == TotalCost(plan.patterns, costModel)
    {
      if patterns == [] { return Plan([], 0.0, []); }
      var cs := SortBySelectivity(HeuristicEstimates(patterns, totalTriples, hash));
      var boundVars, steps := {}, [];
      for i := 0 to |cs|
        invariant boundVars == BoundAfter({}, cs[..i]) && BoundSteps(cs[..i], steps)
      {
        assert cs[..i + 1] == cs[..i] + [cs[i]];
        StepsGrow(cs[..i], steps, cs[i]);
        boundVars := boundVars + cs[i].bound;
        steps := steps + [boundVars];
      }
      assert cs[..|cs|] == cs;
      var total := CalculatePlanCost(cs);
      plan := Plan(cs, total, steps);
    }
  }

  lemma BestStep(cs: seq<PatternCost>, i: nat, bound: set<string>, model: CostModel, best: nat)
    requires i < |cs| && IsBest(cs[..i], bound, model, best)
    ensures IsBest(cs[..i + 1], bound, model, if Score(cs[i], bound, model) < Score(cs[best], bound, model) then i else best)
  {
    assert forall j :: 0 <= j < i ==> cs[..i + 1][j] == cs[..i][j];
  }

  lemma StepsGrow(ordered: seq<PatternCost>, steps: seq<set<string>>, best: PatternCost)
    requires BoundSteps(ordered, steps)
    ensures BoundAfter({}, ordered + [best]) == BoundAfter({}, ordered) + best.bound
    ensures BoundSteps(ordered + [best], steps + [BoundAfter({}, ordered) + best.bound])
  {
    var all := ordered + [best];
    assert all[..|ordered|] == ordered;
    assert all[..|all|] == all;
    var grown := steps + [BoundAfter({}, ordered) + best.bound];
    forall i | 0 <= i < |all| ensures grown[i] == BoundAfter({}, all[..i + 1]) {
      if i < |ordered| { assert all[..i + 1] == ordered[..i + 1]; }
    }
  }

  lemma GreedyStep(ordered: seq<PatternCost>, cs: seq<PatternCost>, bound: set<string>, model: CostModel, k: nat)
    requires IsBest(cs, bound, model, k)
    ensures ordered + Greedy(cs, bound, model) == ordered + [cs[k]] + Greedy(Without(cs, k), bound + cs[k].bound, model)
  {
    BestIsUnique(cs, bound, model, k, BestIndex(cs, bound, model));
    Associate(ordered, [cs[k]], Greedy(Without(cs, k), bound + cs[k].bound, model));
  }

  function Estimates(patterns: seq<S.TriplePattern>, stats: Statistics, indexes: Option<nat -> real>): seq<PatternCost> {
    seq(|patterns|, i requires 0 <= i < |patterns| => EstimateCost(patterns[i], stats, indexes))
  }

  function HeuristicEstimates(patterns: seq<S.TriplePattern>, totalTriples: nat, hash: string -> nat): seq<PatternCost> {
    seq(|patterns|, i requires 0 <= i < |patterns| => EstimateHeuristic(patterns[i], totalTriples, hash))
  }

  // ----- the stable sort the heuristic calls

  function InsertBySelectivity(sorted: seq<PatternCost>, c: PatternCost): seq<PatternCost> {
    if sorted == [] then [c]
    else if sorted[|sorted| - 1].selectivity <= c.selectivity then sorted + [c]
    else InsertBySelectivity(sorted[..|sorted| - 1], c) + [sorted[|sorted| - 1]]
  }

  function SortBySelectivity(cs: seq<PatternCost>): seq<PatternCost> {
    if cs == [] then [] else InsertBySelectivity(SortBySelectivity(cs[..|cs| - 1]), cs[|cs| - 1])
  }
}
