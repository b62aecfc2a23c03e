/** What the statistics make of a pattern, and what that does to the greedy plan. */
module OptimizerEstimates {
  import opened Common
  import opened Rdf
  import S = Sparql
  import opened BgpSolutions
  import opened Optimizer
  import opened OptimizerMeaning

  /** A count that divides; an empty store counts as one. */
  function Divisor(count: nat): (d: real)
    ensures d >= 1.0 && (d > 1.0 <==> count > 1)
  {
    if count <= 1 then 1.0 else count as real
  }

  /** b is a divided by d. */
  ghost predicate Divides(b: real, a: real, d: real) {
    && b * d == a && 0.0 <= b <= a && (a > 0.0 ==> (b < a <==> d > 1.0))
  }

  lemma Divided(a: real, d: real)
    requires a >= 0.0 && d >= 1.0
    ensures Divides(a / d, a, d)
  {
    var b := a / d;
    assert b * d == a;
    SameOrder(0.0, b, d);
    assert a - b == b * (d - 1.0);
    NonNegativeProduct(b, d - 1.0);
    if a > 0.0 && d > 1.0 {
      SameOrder(0.0, d - 1.0, b);
    }
  }

  lemma DividesTimes(b: real, a: real, d: real, k: real)
    requires Divides(b, a, d) && d >= 1.0 && k >= 0.0
    ensures Divides(b * k, a * k, d)
  {
    NonNegativeProduct(b, k);
    NonNegativeProduct(a - b, k);
    assert (b * k) * d == (b * d) * k;
    assert a * k - b * k == (a - b) * k;
    if k == 0.0 { assert a * k == 0.0; } else if b < a { SameOrder(b, a, k); }
    if a * k > 0.0 { SameOrder(0.0, a, k); }
  }

  /** Multiplying with 1/d divides. */
  lemma DivideLast(x: real, d: real)
    requires x >= 0.0 && d >= 1.0
    ensures Divides(x * (1.0 / d), x, d)
  {
    Divided(x, d);
    assert x * (1.0 / d) == x / d;
  }

  lemma SameOrder(a: real, b: real, d: real)
    requires d > 0.0
    ensures a < b <==> a * d < b * d
    ensures a <= b <==> a * d <= b * d
  {
    assert (b - a) * d == b * d - a * d;
    if a < b { assert (b - a) * d > 0.0; }
    if b < a { assert (a - b) * d > 0.0; assert (a - b) * d == a * d - b * d; }
  }

  // ----- one pattern more fixed than another

  /** Estimates over the floor, one of them the other divided by d. */
  ghost predicate Floored(e': real, e: real, d: real) {
    exists b, a :: Divides(b, a, d) && e' == MaxReal(b, 0.0001) && e == MaxReal(a, 0.0001)
  }

  lemma FlooredExact(e': real, e: real, d: real)
    requires Floored(e', e, d) && d >= 1.0
    ensures e' > 0.0001 ==> e == e' * d
    ensures e' <= e && (e > 0.0001 ==> (e' < e <==> d > 1.0))
  {
    var b, a :| Divides(b, a, d) && e' == MaxReal(b, 0.0001) && e == MaxReal(a, 0.0001);
  }

  predicate SubjectFixed(q: S.TriplePattern, p: S.TriplePattern) {
    p.subj.Var? && q.subj.Fixed? && q == p.(subj := q.subj)
  }

  predicate ObjectFixed(q: S.TriplePattern, p: S.TriplePattern) {
    p.obj.Var? && q.obj.Fixed? && q == p.(obj := q.obj)
  }

  lemma PredicateSign(p: S.TriplePattern, stats: Statistics)
    requires NonNegative(stats, None)
    ensures AfterPredicate(p, stats) >= 0.0
  {
    assert AfterSubject(p, stats) > 0.0;
    if p.pred.PredIri? { NonNegativeProduct(AfterSubject(p, stats), stats.predicateSelectivity(stats.hash(p.pred.iri))); }
  }

  /** The factors of the predicate and of the object. */
  lemma OtherFactors(q: S.TriplePattern, p: S.TriplePattern, stats: Statistics) returns (f: real, k: real)
    requires NonNegative(stats, None) && SubjectFixed(q, p)
    ensures f >= 0.0 && k >= 0.0 && AfterObject(p, stats) == f * k
    ensures AfterObject(q, stats) == (1.0 / AtLeastOne(stats.distinctSubjects) * f) * k
  {
    f := if p.pred.PredIri? then stats.predicateSelectivity(stats.hash(p.pred.iri)) else 1.0;
    k := if p.obj.Fixed? then 1.0 / AtLeastOne(stats.distinctObjects) else 1.0;
    assert AfterPredicate(p, stats) == f && AfterPredicate(q, stats) == 1.0 / AtLeastOne(stats.distinctSubjects) * f;
  }

  lemma FirstDivides(f: real, k: real, count: nat, b: real, a: real)
    requires f >= 0.0 && k >= 0.0 && a == f * k && b == (1.0 / AtLeastOne(count) * f) * k
    ensures Divides(b, a, Divisor(count))
  {
    var d := Divisor(count);
    assert AtLeastOne(count) == d;
    DivideLast(f, d);
    assert 1.0 / d * f == f * (1.0 / d);
    DividesTimes(f * (1.0 / d), f, d, k);
  }

  lemma SubjectStep(q: S.TriplePattern, p: S.TriplePattern, stats: Statistics)
    requires NonNegative(stats, None) && SubjectFixed(q, p)
    ensures Floored(EstimateSelectivity(q, stats), EstimateSelectivity(p, stats), Divisor(stats.distinctSubjects))
  {
    var f, k := OtherFactors(q, p, stats);
    FirstDivides(f, k, stats.distinctSubjects, AfterObject(q, stats), AfterObject(p, stats));
  }

  lemma ObjectStep(q: S.TriplePattern, p: S.TriplePattern, stats: Statistics)
    requires NonNegative(stats, None) && ObjectFixed(q, p)
    ensures Floored(EstimateSelectivity(q, stats), EstimateSelectivity(p, stats), Divisor(stats.distinctObjects))
  {
    PredicateSign(p, stats);
    assert AfterPredicate(q, stats) == AfterPredicate(p, stats);
    assert AtLeastOne(stats.distinctObjects) == Divisor(stats.distinctObjects);
    DivideLast(AfterPredicate(p, stats), Divisor(stats.distinctObjects));
    assert Divides(AfterObject(q, stats), AfterObject(p, stats), Divisor(stats.distinctObjects));
  }

  /** A pattern of variables fits everything. */
  lemma OpenFitsAll(p: S.TriplePattern, stats: Statistics)
    requires p.subj.Var? && p.pred.PredVar? && p.obj.Var?
    ensures EstimateSelectivity(p, stats) == 1.0
  {
  }

  /** Above the floor, fixing the subject divides the selectivity by the number of different subjects. */
  lemma FixingTheSubject(q: S.TriplePattern, p: S.TriplePattern, stats: Statistics)
    requires NonNegative(stats, None) && SubjectFixed(q, p) && EstimateSelectivity(q, stats) > 0.0001
    ensures EstimateSelectivity(p, stats) == EstimateSelectivity(q, stats) * Divisor(stats.distinctSubjects)
  {
    SubjectStep(q, p, stats);
    FlooredExact(EstimateSelectivity(q, stats), EstimateSelectivity(p, stats), Divisor(stats.distinctSubjects));
  }

  /** And fixing the object divides it by the number of different objects. */
  lemma FixingTheObject(q: S.TriplePattern, p: S.TriplePattern, stats: Statistics)
    requires NonNegative(stats, None) && ObjectFixed(q, p) && EstimateSelectivity(q, stats) > 0.0001
    ensures EstimateSelectivity(p, stats) == EstimateSelectivity(q, stats) * Divisor(stats.distinctObjects)
  {
    ObjectStep(q, p, stats);
    FlooredExact(EstimateSelectivity(q, stats), EstimateSelectivity(p, stats), Divisor(stats.distinctObjects));
  }

  /** Fixing the predicate multiplies it by the predicate's frequency. */
  lemma FixingThePredicate(q: S.TriplePattern, p: S.TriplePattern, stats: Statistics)
    requires p.pred.PredVar? && q.pred.PredIri? && q == p.(pred := q.pred)
    requires EstimateSelectivity(p, stats) > 0.0001 && EstimateSelectivity(q, stats) > 0.0001
    ensures EstimateSelectivity(q, stats)
      == EstimateSelectivity(p, stats) * stats.predicateSelectivity(stats.hash(q.pred.iri))
  {
  }

  /** q has the predicate of p and every fixed end of p. */
  predicate Refines(q: S.TriplePattern, p: S.TriplePattern) {
    q.pred == p.pred && (p.subj.Fixed? ==> q.subj == p.subj) && (p.obj.Fixed? ==> q.obj == p.obj)
  }

  /** q fixes an end that p leaves open, and that end tells triples apart. */
  predicate Narrower(q: S.TriplePattern, p: S.TriplePattern, stats: Statistics) {
    && Refines(q, p)
    && ((q.subj.Fixed? && p.subj.Var? && stats.distinctSubjects > 1) || (q.obj.Fixed? && p.obj.Var? && stats.distinctObjects > 1))
  }

  /** Which variable stands in an open end does not matter. */
  lemma Renamed(q: S.TriplePattern, p: S.TriplePattern, stats: Statistics)
    requires q.pred == p.pred && (q.subj.Var? <==> p.subj.Var?) && (q.obj.Var? <==> p.obj.Var?)
    ensures EstimateSelectivity(q, stats) == EstimateSelectivity(p, stats)
  {
  }

  /** The pattern p with the subject of q. */
  function Halfway(q: S.TriplePattern, p: S.TriplePattern): S.TriplePattern {
    p.(subj := q.subj)
  }

  lemma HalfwayExact(q: S.TriplePattern, p: S.TriplePattern, stats: Statistics)
    requires NonNegative(stats, None) && Refines(q, p)
    ensures var e, half := EstimateSelectivity(p, stats), EstimateSelectivity(Halfway(q, p), stats);
      half <= e && (e > 0.0001 ==> (half < e <==> q.subj.Fixed? && p.subj.Var? && stats.distinctSubjects > 1))
  {
    if q.subj.Fixed? && p.subj.Var? {
      SubjectStep(Halfway(q, p), p, stats);
      FlooredExact(EstimateSelectivity(Halfway(q, p), stats), EstimateSelectivity(p, stats), Divisor(stats.distinctSubjects));
    } else {
      Renamed(Halfway(q, p), p, stats);
    }
  }

  lemma RestExact(q: S.TriplePattern, p: S.TriplePattern, stats: Statistics)
    requires NonNegative(stats, None) && Refines(q, p)
    ensures var e, half := EstimateSelectivity(q, stats), EstimateSelectivity(Halfway(q, p), stats);
      e <= half && (half > 0.0001 ==> (e < half <==> q.obj.Fixed? && p.obj.Var? && stats.distinctObjects > 1))
  {
    if q.obj.Fixed? && p.obj.Var? {
      ObjectStep(q, Halfway(q, p), stats);
      FlooredExact(EstimateSelectivity(q, stats), EstimateSelectivity(Halfway(q, p), stats), Divisor(stats.distinctObjects));
    } else {
      Renamed(q, Halfway(q, p), stats);
    }
  }

  lemma AtLeastFloor(p: S.TriplePattern, stats: Statistics)
    ensures EstimateSelectivity(p, stats) >= 0.0001
  {
  }

  /** A refinement is never less selective, and above the floor it is more selective exactly if it is narrower. */
  lemma RefinedExact(q: S.TriplePattern, p: S.TriplePattern, stats: Statistics)
    requires NonNegative(stats, None) && Refines(q, p)
    ensures EstimateSelectivity(q, stats) <= EstimateSelectivity(p, stats)
    ensures EstimateSelectivity(p, stats) > 0.0001 ==>
      (EstimateSelectivity(q, stats) < EstimateSelectivity(p, stats) <==> Narrower(q, p, stats))
  {
    HalfwayExact(q, p, stats);
    RestExact(q, p, stats);
    AtLeastFloor(Halfway(q, p), stats);
  }

  // ----- what it costs to read

  /** What the indexes, or else the statistics, say of a predicate. */
  function IndexFrequency(stats: Statistics, indexes: Option<nat -> real>, id: nat): real {
    if indexes.Some? then indexes.value(id) else stats.predicateSelectivity(id)
  }

  /** With the default model, a pattern of a class is read at a twentieth of its rows, another one with a fixed
      predicate at a tenth of them times what the indexes, or else the statistics, say of the predicate, and one with
      a variable predicate at all of its rows. */
  lemma CostExact(p: S.TriplePattern, stats: Statistics, indexes: Option<nat -> real>)
    ensures var c := EstimateCost(p, stats, indexes);
      var cost, rows := c.Cost(DEFAULT_MODEL), c.cardinality;
      && c.selectivity == EstimateSelectivity(p, stats) && rows == Divisor(stats.tripleCount) * c.selectivity
      && (p.pred == S.PredIri(RDF_TYPE) && p.obj.Fixed? && p.obj.term.Iri? ==> 20.0 * cost == rows)
      && (p.pred.PredIri? && !(p.pred.iri == RDF_TYPE && p.obj.Fixed? && p.obj.term.Iri?) ==>
            10.0 * cost == rows * IndexFrequency(stats, indexes, stats.hash(p.pred.iri)))
      && (p.pred.PredVar? ==> cost == rows)
  {
    HintExact(p, stats, indexes);
    DefaultCost(EstimateCost(p, stats, indexes));
  }

  lemma HintExact(p: S.TriplePattern, stats: Statistics, indexes: Option<nat -> real>)
    ensures var c := EstimateCost(p, stats, indexes);
      var id := if p.pred.PredIri? then stats.hash(p.pred.iri) else 0;
      && c.selectivity == EstimateSelectivity(p, stats) && c.cardinality == Divisor(stats.tripleCount) * c.selectivity
      && (p.pred == S.PredIri(RDF_TYPE) && p.obj.Fixed? && p.obj.term.Iri? ==> c.hint.UseTypeIndex?)
      && (p.pred.PredIri? && !(p.pred.iri == RDF_TYPE && p.obj.Fixed? && p.obj.term.Iri?) ==>
            c.hint == UsePredicateIndex(id, IndexFrequency(stats, indexes, id)))
      && (p.pred.PredVar? ==> c.hint.FullScan?)
  {
  }

  lemma DefaultCost(c: PatternCost)
    ensures c.hint.FullScan? ==> c.Cost(DEFAULT_MODEL) == c.cardinality
    ensures c.hint.UseTypeIndex? ==> 20.0 * c.Cost(DEFAULT_MODEL) == c.cardinality
    ensures c.hint.UsePredicateIndex? ==> 10.0 * c.Cost(DEFAULT_MODEL) == c.cardinality * c.hint.selectivity
  {
    if c.hint.UsePredicateIndex? { Tenth(c.cardinality, c.hint.selectivity); }
  }

  lemma Tenth(rows: real, frequency: real)
    ensures 10.0 * (rows * 0.1 * frequency) == rows * frequency
  {
  }

  // ----- what a pattern binds

  predicate NoBlankEnd(p: S.TriplePattern) {
    !(p.subj.Fixed? && p.subj.term.Blank?) && !(p.obj.Fixed? && p.obj.term.Blank?)
  }

  lemma {:induction false} BindsItsVariables(cs: seq<PatternCost>)
    requires forall i :: 0 <= i < |cs| ==> cs[i].bound == S.TripleVars(cs[i].pattern)
    ensures forall v :: v in BoundAfter({}, cs) <==> v in S.BgpVars(PatternsOf(cs))
  {
    forall v ensures v in BoundAfter({}, cs) <==> v in S.BgpVars(PatternsOf(cs)) {
      BoundAfterIsUnion(cs, v);
      BgpVarsAreUnion(PatternsOf(cs), v);
      forall i | 0 <= i < |cs| ensures v in cs[i].bound <==> v in S.TripleVars(PatternsOf(cs)[i]) {
      }
      if v in S.BgpVars(PatternsOf(cs)) {
        var i :| 0 <= i < |PatternsOf(cs)| && v in S.TripleVars(PatternsOf(cs)[i]);
        assert v in cs[i].bound;
      }
    }
  }

  lemma EntryBinds(p: S.TriplePattern, stats: Statistics, indexes: Option<nat -> real>)
    requires NoBlankEnd(p)
    ensures EstimateCost(p, stats, indexes).bound == S.TripleVars(p)
  {
  }

  lemma PlanPattern(patterns: seq<S.TriplePattern>, stats: Statistics, indexes: Option<nat -> real>, model: CostModel, j: nat)
    requires j < |Greedy(Estimates(patterns, stats, indexes), {}, model)|
    ensures Greedy(Estimates(patterns, stats, indexes), {}, model)[j].pattern in patterns
  {
    var cs := Estimates(patterns, stats, indexes);
    var plan := Greedy(cs, {}, model);
    GreedyPermutes(cs, {}, model);
    assert plan[j] in multiset(plan) && plan[j] in multiset(cs);
    var k :| 0 <= k < |cs| && cs[k] == plan[j];
    assert cs[k].pattern == patterns[k];
  }

  /** In a greedy plan the variables bound after i patterns are exactly those of the first i patterns. */
  lemma PlanBinds(patterns: seq<S.TriplePattern>, stats: Statistics, indexes: Option<nat -> real>, model: CostModel, i: nat)
    requires forall p :: p in patterns ==> NoBlankEnd(p)
    requires i <= |Greedy(Estimates(patterns, stats, indexes), {}, model)|
    ensures var plan := Greedy(Estimates(patterns, stats, indexes), {}, model);
      BoundAfter({}, plan[..i]) == S.BgpVars(PatternsOf(plan[..i]))
  {
    var cs := Estimates(patterns, stats, indexes);
    var plan := Greedy(cs, {}, model);
    forall j | 0 <= j < i ensures plan[j].bound == S.TripleVars(plan[j].pattern) {
      PlanEntry(patterns, stats, indexes, model, j);
      PlanPattern(patterns, stats, indexes, model, j);
      EntryBinds(plan[j].pattern, stats, indexes);
    }
    BindsItsVariables(plan[..i]);
  }

  // ----- the heuristic

  /** q has one more fixed position than p. */
  predicate OneMoreFixed(q: S.TriplePattern, p: S.TriplePattern) {
    || (q == p.(subj := q.subj) && q.subj.Fixed? && p.subj.Var?)
    || (q == p.(pred := q.pred) && q.pred.PredIri? && p.pred.PredVar?)
    || (q == p.(obj := q.obj) && q.obj.Fixed? && p.obj.Var?)
  }

  /** Without statistics a pattern of variables fits everything, each fixed position makes it ten times more selective,
      and fixing the predicate to rdf:type twenty times; rows are reckoned over at least a thousand triples. */
  lemma HeuristicExact(p: S.TriplePattern, q: S.TriplePattern, total: nat, hash: string -> nat)
    ensures p.subj.Var? && p.pred.PredVar? && p.obj.Var? ==> HeuristicSelectivity(p) == 1.0
    ensures OneMoreFixed(q, p) ==>
      var factor := if q.pred == S.PredIri(RDF_TYPE) && p.pred.PredVar? then 20.0 else 10.0;
      HeuristicSelectivity(p) == HeuristicSelectivity(q) * factor
    ensures var c := EstimateHeuristic(p, total, hash);
      && c.selectivity == HeuristicSelectivity(p)
      && c.cardinality == (if total <= 1000 then 1000.0 else total as real) * c.selectivity
      && (NoBlankEnd(p) ==> c.bound == S.TripleVars(p))
      && (c.hint.UsePredicateIndex? <==> p.pred.PredIri? && p.pred.iri != RDF_TYPE)
      && (c.hint.UsePredicateIndex? ==> c.hint.selectivity == c.selectivity)
      && (c.hint.UseTypeIndex? <==> p.pred == S.PredIri(RDF_TYPE) && p.obj.Fixed? && p.obj.term.Iri?)
  {
  }

  // ----- the plan

  lemma PlanEntry(patterns: seq<S.TriplePattern>, stats: Statistics, indexes: Option<nat -> real>, model: CostModel, i: nat)
    requires i < |Greedy(Estimates(patterns, stats, indexes), {}, model)|
    ensures var c := Greedy(Estimates(patterns, stats, indexes), {}, model)[i];
      c == EstimateCost(c.pattern, stats, indexes)
  {
    var cs := Estimates(patterns, stats, indexes);
    var plan := Greedy(cs, {}, model);
    GreedyPermutes(cs, {}, model);
    assert plan[i] in multiset(plan) && plan[i] in multiset(cs) && plan[i] in cs;
  }

  /** Reached by the bound variables. */
  predicate Connected(c: PatternCost, bound: set<string>) {
    c.bound * bound != {}
  }

  /** Nowhere in a greedy plan does a pattern go before a narrower one with the same access path that is at least as
      well connected, unless its own selectivity is already at the floor, or reading it costs nothing. */
  lemma NarrowerGoesFirst(patterns: seq<S.TriplePattern>, stats: Statistics, indexes: Option<nat -> real>, model: CostModel,
                          i: nat, j: nat)
    requires NonNegative(stats, None)
    requires var plan := Greedy(Estimates(patterns, stats, indexes), {}, model);
      && i <= j < |plan| && Narrower(plan[j].pattern, plan[i].pattern, stats)
      && var before := BoundAfter({}, plan[..i]);
         before == {} || (plan[i].hint == plan[j].hint && (Connected(plan[i], before) ==> Connected(plan[j], before)))
    ensures var plan := Greedy(Estimates(patterns, stats, indexes), {}, model);
      plan[i].selectivity == 0.0001 || (BoundAfter({}, plan[..i]) != {} && plan[i].Cost(model) <= 0.0)
  {
    var cs := Estimates(patterns, stats, indexes);
    var plan := Greedy(cs, {}, model);
    PlanEntry(patterns, stats, indexes, model, i);
    PlanEntry(patterns, stats, indexes, model, j);
    NarrowerEntry(plan[j], plan[i], stats, indexes);
    GreedyStepsAreMinimal(cs, {}, model, i, j);
    assert ChosenOver(plan, {}, model, i, j);
    NotOverNarrower(plan[i], plan[j], BoundAfter({}, plan[..i]), AtLeastOne(stats.tripleCount), model);
  }

  /** Estimated to have total times its selectivity rows. */
  predicate Rated(c: PatternCost, total: real) {
    c.selectivity >= 0.0001 && c.cardinality == total * c.selectivity
  }

  lemma NarrowerEntry(q: PatternCost, p: PatternCost, stats: Statistics, indexes: Option<nat -> real>)
    requires NonNegative(stats, None) && Narrower(q.pattern, p.pattern, stats)
    requires p == EstimateCost(p.pattern, stats, indexes) && q == EstimateCost(q.pattern, stats, indexes)
    ensures Rated(p, AtLeastOne(stats.tripleCount)) && Rated(q, AtLeastOne(stats.tripleCount))
    ensures p.selectivity > 0.0001 ==> q.selectivity < p.selectivity
  {
    RefinedExact(q.pattern, p.pattern, stats);
    AtLeastFloor(p.pattern, stats);
    AtLeastFloor(q.pattern, stats);
  }

  lemma NotOverNarrower(p: PatternCost, q: PatternCost, before: set<string>, total: real, model: CostModel)
    requires total >= 1.0 && Rated(p, total) && Rated(q, total) && (p.selectivity > 0.0001 ==> q.selectivity < p.selectivity)
    requires before == {} || (p.hint == q.hint && (Connected(p, before) ==> Connected(q, before)))
    requires Score(p, before, model) <= Score(q, before, model)
    ensures p.selectivity == 0.0001 || (before != {} && p.Cost(model) <= 0.0)
  {
    if before != {} && p.selectivity > 0.0001 {
      CheaperIfNarrower(p, q, total, model);
    }
  }

  /** What a row costs to read by each access path. */
  function RowCost(hint: IndexHint, model: CostModel): real {
    match hint
    case FullScan => model.fullScan
    case UseTypeIndex(_) => model.indexAccess * 0.5
    case UsePredicateIndex(_, s) => model.indexAccess * s
    case UseNamespaceIndex(_) => model.indexAccess
  }

  lemma CostByRow(c: PatternCost, model: CostModel)
    ensures c.Cost(model) == c.cardinality * RowCost(c.hint, model)
  {
  }

  lemma CheaperIfNarrower(p: PatternCost, q: PatternCost, total: real, model: CostModel)
    requires total >= 1.0 && Rated(p, total) && Rated(q, total) && p.hint == q.hint && q.selectivity < p.selectivity
    ensures p.Cost(model) > 0.0 ==> 0.0 < q.Cost(model) < p.Cost(model)
  {
    CostByRow(p, model);
    CostByRow(q, model);
    SameOrder(q.selectivity, p.selectivity, total);
    SameOrder(0.0, q.selectivity, total);
    LessOfBoth(q.cardinality, p.cardinality, RowCost(p.hint, model));
  }

  lemma LessOfBoth(a: real, b: real, d: real)
    requires 0.0 < a < b
    ensures b * d > 0.0 ==> 0.0 < a * d < b * d
  {
    if d > 0.0 {
      SameOrder(0.0, a, d);
      SameOrder(a, b, d);
    } else {
      NonNegativeProduct(b, -d);
    }
  }
}
