/** Loading, deleting, ordering and querying together. */
module EndToEnd {
  import opened Common
  import opened Rdf
  import opened PropertyGraph
  import opened CypherQuery
  import S = Sparql
  import BgpSolutions
  import opened Translator
  import opened TranslatorJoins
  import opened TranslatorResults
  import BatchTheorems
  import BatchInsert
  import Patterns
  import Delete
  import Optimizer
  import OptimizerMeaning

  /** The translated query answers with the solutions of its pattern over data. */
  ghost predicate Answers(q: Select, c: nat, d: Listing, data: seq<Triple>) {
    AnswersQuery(q, RunQuery(TranslateSelectQuery(q, c), d), data)
  }

  ghost predicate Askable(q: Select, c: nat) {
    GoodLeaves(Branches(q.pattern), c, Columns(q))
  }

  ghost predicate DataOf(data: seq<Triple>, ts: seq<Triple>) {
    NoDup(data) && Elements(data) == Elements(ts)
  }

  /** Load triples in any batches with any subject order in each, then query: the answers are the
      SPARQL solutions over the triples. */
  lemma QueryAfterBatches(q: Select, c: nat, batches: seq<seq<Triple>>, outs: seq<seq<Statement>>, d: Listing, data: seq<Triple>)
    requires |batches| == |outs|
    requires forall i :: 0 <= i < |batches| ==> BatchInsert.Output(outs[i], batches[i]) && BatchTheorems.ListFree(batches[i])
    requires forall i :: 0 <= i < |batches| ==> BatchTheorems.GoodTriples(batches[i]) && BatchTheorems.TypesAreIris(batches[i])
    requires Lists(d) && d.graph == ExecuteAll(EMPTY, BatchTheorems.Flatten(outs))
    requires QueryData(BatchTheorems.Flatten(batches)) && DataOf(data, BatchTheorems.Flatten(batches))
    requires Askable(q, c)
    ensures Answers(q, c, d, data)
  {
    var ts := BatchTheorems.Flatten(batches);
    BatchTheorems.BatchesEqualOneByOne(EMPTY, batches, outs);
    InsertedServes(d, ts, data);
    SelectCorrect(q, c, d, ts, data);
  }

  /** Delete a pattern, then query: the answers are the solutions over the triples it does not match. */
  lemma QueryAfterDelete(q: Select, c: nat, g: Graph, ts: seq<Triple>, p: Patterns.TriplePattern, scope: Patterns.GraphScope,
                         d: Listing, data: seq<Triple>)
    requires Delete.EdgeData(g, ts) && Delete.PlainPattern(p) && !scope.Named?
    requires Lists(d) && d.graph == Delete.ExecuteDelete(g, Delete.DeleteMatched(Delete.MatchFor(p, scope), Delete.DeleteEdge))
    requires DataOf(data, Delete.Unmatched(ts, p)) && Askable(q, c)
    ensures Answers(q, c, d, data)
  {
    Delete.DeletionAgreesWithMatching(g, ts, p, scope);
    assert Serves(d, Delete.Unmatched(ts, p), data);
    SelectCorrect(q, c, d, Delete.Unmatched(ts, p), data);
  }

  function Reordered(patterns: seq<S.TriplePattern>, stats: Optimizer.Statistics, indexes: Option<nat -> real>,
                     model: Optimizer.CostModel): seq<S.TriplePattern> {
    OptimizerMeaning.PatternsOf(Optimizer.Greedy(Optimizer.Estimates(patterns, stats, indexes), {}, model))
  }

  /** Reorder a basic graph pattern with the optimizer before translating it: the same bag of rows. */
  lemma QueryAfterReordering(patterns: seq<S.TriplePattern>, stats: Optimizer.Statistics, indexes: Option<nat -> real>,
                             model: Optimizer.CostModel, vars: set<string>, c: nat, d: Listing,
                             ts: seq<Triple>, data: seq<Triple>)
    requires Serves(d, ts, data) && patterns != []
    requires forall i :: 0 <= i < |patterns| ==> PlainPattern(patterns[i])
    requires MadeByBgp(patterns, c) !! S.BgpVars(patterns) && vars <= S.BgpVars(patterns)
    requires MadeByBgp(Reordered(patterns, stats, indexes, model), c) !! S.BgpVars(patterns)
    ensures var ordered := Reordered(patterns, stats, indexes, model);
      multiset(BranchRows(BranchOf(Compile(S.Bgp(ordered), c)), vars, d))
         == multiset(BranchRows(BranchOf(Compile(S.Bgp(patterns), c)), vars, d))
  {
    var ordered := Reordered(patterns, stats, indexes, model);
    OptimizerMeaning.GreedyKeepsSolutions(patterns, stats, indexes, model, data);
    SameTriples(patterns, ordered);
    BranchCorrect(S.Bgp(patterns), c, d, ts, data, vars);
    BranchCorrect(S.Bgp(ordered), c, d, ts, data, vars);
    ProjectPermutation(S.EvalBgp(ordered, data), S.EvalBgp(patterns, data), vars);
  }

  lemma SameTriples(a: seq<S.TriplePattern>, b: seq<S.TriplePattern>)
    requires multiset(a) == multiset(b)
    ensures |a| == |b| && S.BgpVars(a) == S.BgpVars(b)
    ensures (forall i :: 0 <= i < |a| ==> PlainPattern(a[i])) ==> forall i :: 0 <= i < |b| ==> PlainPattern(b[i])
  {
    assert |multiset(a)| == |a| && |multiset(b)| == |b|;
    forall p ensures p in a <==> p in b {
      assert p in multiset(a) <==> p in multiset(b);
    }
    assert forall i :: 0 <= i < |b| ==> b[i] in a;
    forall v ensures v in S.BgpVars(a) <==> v in S.BgpVars(b) {
      BgpSolutions.BgpVarsAreUnion(a, v);
      BgpSolutions.BgpVarsAreUnion(b, v);
    }
  }
}
