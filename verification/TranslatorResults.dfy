/** What a translated query returns on the graph built from a set of triples. */
module TranslatorResults {
  import opened Common
  import opened Rdf
  import opened PropertyGraph
  import opened CypherGenerator
  import opened CypherQuery
  import opened S = Sparql
  import opened Translator
  import opened TranslatorJoins
  import opened TranslatorTheorem

  // ----- data and listings

  ghost predicate QueryData(ts: seq<Triple>) {
    forall t :: t in ts ==> IsEdgeTriple(t) && PlainTriple(t)
  }

  /** d lists a graph with the edges that inserting ts builds; data lists ts as a set. */
  ghost predicate Serves(d: Listing, ts: seq<Triple>, data: seq<Triple>) {
    && QueryData(ts) && Lists(d) && d.graph.edges == EdgesOf(ts)
    && NoDup(data) && Elements(data) == Elements(ts)
  }

  /** The graph that inserting ts builds serves, one triple at a time. */
  lemma InsertedServes(d: Listing, ts: seq<Triple>, data: seq<Triple>)
    requires QueryData(ts) && Lists(d) && d.graph == InsertOneByOne(EMPTY, ts)
    requires NoDup(data) && Elements(data) == Elements(ts)
    ensures Serves(d, ts, data)
  {
    InsertedEdges(EMPTY, ts);
  }

  ghost function TripleFor(e: Edge, ts: seq<Triple>): Triple
    requires e in EdgesOf(ts)
  {
    var t :| t in ts && IsEdgeTriple(t) && EdgeOf(t) == e;
    t
  }

  /** The triples behind the edges, in the order the engine lists the edges. */
  lemma AlignedData(d: Listing, ts: seq<Triple>, data: seq<Triple>) returns (aligned: seq<Triple>)
    requires Serves(d, ts, data)
    ensures Aligned(d.edges, aligned) && multiset(aligned) == multiset(data)
  {
    forall e | e in d.edges ensures e in EdgesOf(ts) {
      assert e in Elements(d.edges);
    }
    aligned := seq(|d.edges|, i requires 0 <= i < |d.edges| => TripleFor(d.edges[i], ts));
    forall t ensures t in aligned <==> t in data {
      assert t in data <==> t in ts by {
        assert t in Elements(data) <==> t in Elements(ts);
      }
      if t in ts {
        assert EdgeOf(t) in Elements(d.edges) by {
          assert EdgeOf(t) in EdgesOf(ts);
        }
        var i :| 0 <= i < |d.edges| && d.edges[i] == EdgeOf(t);
        EdgeOfInjective(aligned[i], t);
      }
    }
    assert NoDup(aligned) by {
      forall i, j | 0 <= i < j < |aligned| ensures aligned[i] != aligned[j] {
        assert d.edges[i] != d.edges[j];
      }
    }
    NoDupSameElements(aligned, data);
  }

  // ----- projection

  function ProjectAll(ms: seq<Row>, vars: set<string>): seq<Row> {
    if ms == [] then [] else [map v | v in ms[0] && v in vars :: ms[0][v]] + ProjectAll(ms[1..], vars)
  }

  lemma {:induction false} ProjectStanding(rs: seq<CRow>, ms: seq<Row>, users: set<string>, vars: set<string>)
    requires AllStand(rs, ms, users) && vars <= users
    ensures ReturnAll(rs, vars) == EncodeAll(ProjectAll(ms, vars))
  {
    if rs != [] {
      ProjectStanding(rs[1..], ms[1..], users, vars);
      var m := map v | v in ms[0] && v in vars :: ms[0][v];
      assert Stands(rs[0], ms[0], users);
      forall v ensures v in ReturnRow(rs[0], vars) <==> v in Encode(m) {
        if v in vars { StandsAt(rs[0], ms[0], users, v); }
      }
      forall v | v in Encode(m) ensures ReturnRow(rs[0], vars)[v] == Encode(m)[v] {
        StandsAt(rs[0], ms[0], users, v);
      }
      assert ReturnRow(rs[0], vars) == Encode(m);
    }
  }

  lemma {:induction false} ProjectAllIsFlatMap(ms: seq<Row>, vars: set<string>)
    ensures EncodeAll(ProjectAll(ms, vars)) == FlatMap((m: Row) => [Encode(map v | v in m && v in vars :: m[v])], ms)
  {
    if ms != [] { ProjectAllIsFlatMap(ms[1..], vars); }
  }

  lemma ProjectPermutation(ms: seq<Row>, ms': seq<Row>, vars: set<string>)
    requires multiset(ms) == multiset(ms')
    ensures multiset(EncodeAll(ProjectAll(ms, vars))) == multiset(EncodeAll(ProjectAll(ms', vars)))
  {
    ProjectAllIsFlatMap(ms, vars);
    ProjectAllIsFlatMap(ms', vars);
    FlatMapPermutation((m: Row) => [Encode(map v | v in m && v in vars :: m[v])], ms, ms');
  }

  // ----- clauses

  predicate PathsOnly(parts: seq<Part>) {
    forall i :: 0 <= i < |parts| ==> parts[i].PathPart?
  }

  lemma {:induction false} ClausesOfPaths(parts: seq<Part>, current: seq<Part>)
    requires PathsOnly(parts)
    ensures Clauses(parts, current) == Flush(current + parts)
    decreases |parts|
  {
    if parts == [] {
      assert current + parts == current;
    } else {
      assert (current + [parts[0]]) + parts[1..] == current + parts;
      ClausesOfPaths(parts[1..], current + [parts[0]]);
    }
  }

  lemma {:induction false} ClausesThenOptional(parts: seq<Part>, current: seq<Part>, opt: seq<Part>)
    ensures Clauses(parts + [OptionalPart(opt)], current) == Clauses(parts, current) + [OptionalMatch(opt)]
    decreases |parts|
  {
    var all := parts + [OptionalPart(opt)];
    if parts == [] {
      assert all[1..] == [];
    } else {
      assert all[0] == parts[0] && all[1..] == parts[1..] + [OptionalPart(opt)];
      ClausesThenOptional(parts[1..], if parts[0].OptionalPart? then [] else current + [parts[0]], opt);
    }
  }

  lemma {:induction false} RunThenLast(cs: seq<MatchClause>, last: MatchClause, conds: seq<Cond>, rows: seq<CRow>, d: Listing)
    ensures RunFrom(cs + [last], conds, rows, d) == ApplyClause(last, conds, RunFrom(cs, [], rows, d), d)
    decreases |cs|
  {
    if cs == [] {
      assert cs + [last] == [last];
    } else {
      assert (cs + [last])[1..] == cs[1..] + [last];
      var next := ApplyClause(cs[0], [], rows, d);
      RunThenLast(cs[1..], last, conds, next, d);
      assert |cs| == 1 ==> cs[1..] == [];
    }
  }

  // ----- join trees

  /** The tree has at least one triple pattern. */
  predicate HasTriple(p: Pattern) {
    match p
    case Bgp(tps) => tps != []
    case Filter(q, _) => HasTriple(q)
    case Join(l, r) => HasTriple(l) || HasTriple(r)
    case LeftJoin(l, r, _) => HasTriple(l) || HasTriple(r)
    case Union(l, r) => HasTriple(l) || HasTriple(r)
    case Minus(l, _) => HasTriple(l)
  }

  lemma {:induction false} JoinTreeParts(p: Pattern, c: nat)
    requires JoinTree(p)
    ensures PathsOnly(Compile(p, c).parts) && Compile(p, c).vars == Vars(p)
    ensures Compile(p, c).parts != [] <==> HasTriple(p)
  {
    match p
    case Bgp(tps) => BgpParts(tps, c);
    case Join(l, r) =>
      JoinTreeParts(l, c);
      JoinTreeParts(r, Compile(l, c).next);
    case Filter(q, _) => JoinTreeParts(q, c);
  }

  lemma {:induction false} BgpParts(tps: seq<TriplePattern>, c: nat)
    requires forall i :: 0 <= i < |tps| ==> PlainPattern(tps[i])
    ensures PathsOnly(CompileBgp(tps, c).parts) && |CompileBgp(tps, c).parts| == |tps|
    ensures CompileBgp(tps, c).vars == BgpVars(tps)
  {
    if tps != [] { BgpParts(tps[1..], CompileTriple(tps[0], c).next); }
  }

  lemma RunJoinTree(p: Pattern, c: nat, d: Listing)
    requires JoinTree(p) && HasTriple(p)
    ensures var out := Compile(p, c);
      Run(MatchClauses(out.parts), out.conds, d) == Where(out.conds, MatchAll(out.parts, map[], d.edges), d)
  {
    var out := Compile(p, c);
    JoinTreeParts(p, c);
    ClausesOfPaths(out.parts, []);
    assert [] + out.parts == out.parts;
    MatchEachOne(out.parts, map[], d.edges);
  }

  lemma StandsAtStart(users: set<string>)
    ensures Stands(map[], map[], users)
  {
    assert ReturnRow(map[], users) == Encode(map[]);
  }

  /** Rows of the query and solutions of the algebra, in the same order. */
  lemma JoinTreeRows(p: Pattern, c: nat, d: Listing, data: seq<Triple>, users: set<string>)
    requires JoinTree(p) && HasTriple(p) && Ready(d, data, Vars(p), Made(p, c), users)
    ensures var out := Compile(p, c);
      var rows := Run(MatchClauses(out.parts), out.conds, d);
      && AllStand(rows, Eval(p, data), users)
      && forall r :: r in rows ==> Grown(r, map[], out, Vars(p), users)
  {
    var out := Compile(p, c);
    RunJoinTree(p, c, d);
    StandsAtStart(users);
    CompileCorrect(p, c, map[], map[], d, data, users);
    JoinRowOfEmptyRow(Eval(p, data));
    EvalShape(p, d.edges, data);
    var rows := Run(MatchClauses(out.parts), out.conds, d);
    AllStandFromReturn(rows, Eval(p, data), users);
    RowsGrown(p, c, map[], d.edges, users);
    WhereSubset(out.conds, MatchAll(out.parts, map[], d.edges), d);
  }

  ghost predicate SameBag(x: seq<CRow>, y: seq<CRow>) {
    multiset(x) == multiset(y)
  }

  /** The database answers p with the bag of its solutions over data, projected to vars. */
  ghost predicate Right(p: Pattern, c: nat, d: Listing, data: seq<Triple>, vars: set<string>) {
    SameBag(BranchRows(BranchOf(Compile(p, c)), vars, d), EncodeAll(ProjectAll(Eval(p, data), vars)))
  }

  /** The bag a branch returns is the bag of projected solutions. */
  lemma BranchCorrect(p: Pattern, c: nat, d: Listing, ts: seq<Triple>, data: seq<Triple>, vars: set<string>)
    requires Serves(d, ts, data)
    requires JoinTree(p) && HasTriple(p) && Made(p, c) !! Vars(p) && vars <= Vars(p)
    ensures Right(p, c, d, data, vars)
  {
    var aligned := AlignedData(d, ts, data);
    JoinTreeRows(p, c, d, aligned, Vars(p));
    var out := Compile(p, c);
    ProjectStanding(Run(MatchClauses(out.parts), out.conds, d), Eval(p, aligned), Vars(p), vars);
    EvalPermutation(p, aligned, data);
    ProjectPermutation(Eval(p, aligned), Eval(p, data), vars);
  }

  /** ASK answers whether the pattern has a solution. */
  lemma AskCorrect(p: Pattern, c: nat, d: Listing, ts: seq<Triple>, data: seq<Triple>)
    requires Serves(d, ts, data)
    requires JoinTree(p) && HasTriple(p) && Made(p, c) !! Vars(p)
    ensures RunAsk(BranchOf(Compile(p, c)), d) <==> Eval(p, data) != []
  {
    var aligned := AlignedData(d, ts, data);
    JoinTreeRows(p, c, d, aligned, Vars(p));
    EvalPermutation(p, aligned, data);
    assert |Eval(p, aligned)| == |multiset(Eval(p, aligned))| == |Eval(p, data)|;
  }

  // ----- patterns without any triple pattern

  lemma ExprHasVariable(e: Expr)
    requires Supported(e)
    ensures ExprVars(e) != {}
  {
  }

  lemma {:induction false} EmptyTree(p: Pattern, c: nat, data: seq<Triple>)
    requires JoinTree(p) && !HasTriple(p)
    ensures Vars(p) == {} && Compile(p, c).conds == [] && Compile(p, c).parts == [] && Eval(p, data) == [map[]]
  {
    match p
    case Bgp(_) =>
    case Join(l, r) =>
      EmptyTree(l, c, data);
      EmptyTree(r, Compile(l, c).next, data);
      JoinRowOfEmptyRow([map[]]);
      var unit: seq<Row> := [map[]];
      assert unit[1..] == [];
    case Filter(q, e) =>
      EmptyTree(q, c, data);
      ExprHasVariable(e);
  }

  lemma {:induction false} NodeRowsReturnNothing(nodes: seq<NodeKey>)
    ensures |ReturnAll(NodeRows(map[], nodes), {})| == |nodes|
    ensures forall r :: r in ReturnAll(NodeRows(map[], nodes), {}) ==> r == map[]
  {
    if nodes != [] {
      NodeRowsReturnNothing(nodes[1..]);
      var first := ToSeq(BindVar(Some(map[]), "n", NodeVal(nodes[0])));
      ReturnAllConcat(first, NodeRows(map[], nodes[1..]), {});
      assert first == [map["n" := NodeVal(nodes[0])]] && first[1..] == [];
    }
  }

  lemma {:induction false} NoDupSize<T>(xs: seq<T>)
    requires NoDup(xs)
    ensures |Elements(xs)| == |xs|
  {
    if xs != [] {
      NoDupSize(xs[1..]);
      assert Elements(xs) == {xs[0]} + Elements(xs[1..]);
    }
  }

  lemma MatchAnyReturns(d: Listing)
    ensures var got := BranchRows(Branch([MatchAnyNode], []), {}, d);
      |got| == |d.nodes| && forall r :: r in got ==> r == map[]
  {
    var start: seq<CRow> := [map[]];
    var rows := AnyNodeEach(start, d.nodes);
    assert start[1..] == [] && rows == NodeRows(start[0], d.nodes) + AnyNodeEach(start[1..], d.nodes);
    assert rows == NodeRows(map[], d.nodes);
    WhereNone(rows, d);
    var clauses := [MatchAnyNode];
    assert |clauses| == 1 && Run(clauses, [], d) == ApplyClause(clauses[0], [], start, d) == rows;
    NodeRowsReturnNothing(d.nodes);
  }

  lemma OneEmptyRow(got: seq<CRow>)
    requires forall r :: r in got ==> r == map[]
    ensures multiset(got) == multiset{map[]} <==> |got| == 1
  {
    if |got| == 1 {
      assert got[0] in got;
      assert got == [map[]];
    } else {
      assert |multiset(got)| == |got|;
    }
  }

  lemma UnitProjects()
    ensures EncodeAll(ProjectAll([map[]], {})) == [map[]]
  {
    var unit: seq<Row> := [map[]];
    var projected := ProjectAll(unit, {});
    assert unit[1..] == [] && projected == [map[]] && projected[1..] == [];
  }

  /** MATCH (n) stands in for an empty pattern. It returns one row per node where the algebra has
      one empty solution, so the translation is right exactly on graphs with one node. */
  lemma EmptyPatternExact(p: Pattern, c: nat, d: Listing, ts: seq<Triple>, data: seq<Triple>)
    requires Serves(d, ts, data)
    requires JoinTree(p) && Made(p, c) !! Vars(p)
    ensures Right(p, c, d, data, Vars(p)) <==> HasTriple(p) || |d.graph.nodes| == 1
  {
    if HasTriple(p) {
      BranchCorrect(p, c, d, ts, data, Vars(p));
    } else {
      EmptyTree(p, c, data);
      MatchAnyReturns(d);
      OneEmptyRow(BranchRows(Branch([MatchAnyNode], []), {}, d));
      UnitProjects();
      NoDupSize(d.nodes);
      assert |d.nodes| == |d.graph.nodes.Keys| == |d.graph.nodes|;
    }
  }

  /** ASK answers whether the pattern has a solution, except for an empty pattern on an empty graph:
      the algebra has its one empty solution there, and MATCH (n) finds no node. */
  lemma AskExact(p: Pattern, c: nat, d: Listing, ts: seq<Triple>, data: seq<Triple>)
    requires Serves(d, ts, data)
    requires JoinTree(p) && Made(p, c) !! Vars(p)
    ensures (RunAsk(BranchOf(Compile(p, c)), d) <==> Eval(p, data) != []) <==> HasTriple(p) || d.graph.nodes != map[]
  {
    if HasTriple(p) {
      AskCorrect(p, c, d, ts, data);
    } else {
      EmptyTree(p, c, data);
      MatchAnyReturns(d);
      ReturnAllLength(Run([MatchAnyNode], [], d), {});
      NoDupSize(d.nodes);
      assert |d.nodes| == |d.graph.nodes.Keys| == |d.graph.nodes|;
    }
  }

  // ----- UNION

  lemma {:induction false} BranchesAreLeaves(p: Pattern, data: seq<Triple>)
    ensures EvalLeaves(Branches(p), data) == Eval(p, data)
  {
    if p.Union? {
      BranchesAreLeaves(p.left, data);
      BranchesAreLeaves(p.right, data);
      EvalLeavesConcat(Branches(p.left), Branches(p.right), data);
    } else {
      assert [p][1..] == [];
    }
  }

  function EvalLeaves(ps: seq<Pattern>, data: seq<Triple>): seq<Row> {
    if ps == [] then [] else Eval(ps[0], data) + EvalLeaves(ps[1..], data)
  }

  lemma {:induction false} EvalLeavesConcat(a: seq<Pattern>, b: seq<Pattern>, data: seq<Triple>)
    ensures EvalLeaves(a + b, data) == EvalLeaves(a, data) + EvalLeaves(b, data)
  {
    if a == [] {
      assert a + b == b;
    } else {
      assert (a + b)[1..] == a[1..] + b;
      EvalLeavesConcat(a[1..], b, data);
    }
  }

  /** Every leaf, compiled in turn, is a join tree with a triple pattern, shares no name with those
      made up for it, and binds the returned variables. */
  predicate GoodLeaves(ps: seq<Pattern>, c: nat, vars: set<string>) {
    ps != [] ==>
      && JoinTree(ps[0]) && HasTriple(ps[0]) && Made(ps[0], c) !! Vars(ps[0]) && vars <= Vars(ps[0])
      && GoodLeaves(ps[1..], Compile(ps[0], c).next, vars)
  }

  lemma {:induction false} ProjectAllConcat(a: seq<Row>, b: seq<Row>, vars: set<string>)
    ensures ProjectAll(a + b, vars) == ProjectAll(a, vars) + ProjectAll(b, vars)
  {
    if a == [] {
      assert a + b == b;
    } else {
      assert (a + b)[1..] == a[1..] + b;
      ProjectAllConcat(a[1..], b, vars);
    }
  }

  lemma BranchesOfCons(x: Compiled, xs: seq<Compiled>)
    ensures BranchesOf([x] + xs) == [BranchOf(x)] + BranchesOf(xs)
  {
  }

  lemma LeavesStep(ps: seq<Pattern>, c: nat, vars: set<string>, data: seq<Triple>)
    requires ps != []
    ensures var cs := CompileBranches(ps, c);
      && BranchesOf(cs) == [BranchOf(Compile(ps[0], c))] + BranchesOf(CompileBranches(ps[1..], Compile(ps[0], c).next))
      && EncodeAll(ProjectAll(EvalLeaves(ps, data), vars))
         == EncodeAll(ProjectAll(Eval(ps[0], data), vars)) + EncodeAll(ProjectAll(EvalLeaves(ps[1..], data), vars))
  {
    var first := Compile(ps[0], c);
    BranchesOfCons(first, CompileBranches(ps[1..], first.next));
    ProjectAllConcat(Eval(ps[0], data), EvalLeaves(ps[1..], data), vars);
    EncodeAllConcat(ProjectAll(Eval(ps[0], data), vars), ProjectAll(EvalLeaves(ps[1..], data), vars));
  }

  /** UNION ALL over the branches is the bag sum of the leaves. */
  lemma {:induction false} UnionAllCorrect(ps: seq<Pattern>, c: nat, vars: set<string>, d: Listing, ts: seq<Triple>, data: seq<Triple>)
    requires Serves(d, ts, data) && GoodLeaves(ps, c, vars)
    ensures multiset(RunBranches(BranchesOf(CompileBranches(ps, c)), vars, false, d))
         == multiset(EncodeAll(ProjectAll(EvalLeaves(ps, data), vars)))
    decreases |ps|
  {
    if ps != [] {
      LeavesStep(ps, c, vars, data);
      BranchCorrect(ps[0], c, d, ts, data, vars);
      var rest := BranchesOf(CompileBranches(ps[1..], Compile(ps[0], c).next));
      UnionAllCorrect(ps[1..], Compile(ps[0], c).next, vars, d, ts, data);
      assert BranchesOf(CompileBranches(ps, c))[1..] == rest;
    }
  }

  lemma {:induction false} UnionDistinctMembers(ps: seq<Pattern>, c: nat, vars: set<string>, d: Listing, ts: seq<Triple>,
                                                data: seq<Triple>, row: CRow)
    requires Serves(d, ts, data) && GoodLeaves(ps, c, vars)
    ensures row in RunBranches(BranchesOf(CompileBranches(ps, c)), vars, true, d)
       <==> row in EncodeAll(ProjectAll(EvalLeaves(ps, data), vars))
    decreases |ps|
  {
    if ps != [] {
      LeavesStep(ps, c, vars, data);
      BranchCorrect(ps[0], c, d, ts, data, vars);
      var rest := BranchesOf(CompileBranches(ps[1..], Compile(ps[0], c).next));
      UnionDistinctMembers(ps[1..], Compile(ps[0], c).next, vars, d, ts, data, row);
      assert BranchesOf(CompileBranches(ps, c))[1..] == rest;
      var rows, want := BranchRows(BranchOf(Compile(ps[0], c)), vars, d), EncodeAll(ProjectAll(Eval(ps[0], data), vars));
      DedupIsSet(rows);
      assert row in rows <==> row in multiset(rows);
      assert row in want <==> row in multiset(want);
    }
  }

  lemma {:induction false} GoodLeavesTranslate(ps: seq<Pattern>, c: nat, vars: set<string>)
    requires GoodLeaves(ps, c, vars)
    ensures forall i :: 0 <= i < |ps| ==> Compilable(ps[i]) && NoBlankEnds(ps[i])
    decreases |ps|
  {
    if ps != [] {
      GoodLeavesTranslate(ps[1..], Compile(ps[0], c).next, vars);
      JoinTreeTranslates(ps[0]);
      assert forall i :: 0 < i < |ps| ==> ps[i] == ps[1..][i - 1];
    }
  }

  lemma {:induction false} JoinTreeTranslates(p: Pattern)
    requires JoinTree(p)
    ensures Compilable(p) && NoBlankEnds(p)
  {
    match p
    case Bgp(_) =>
    case Join(l, r) =>
      JoinTreeTranslates(l);
      JoinTreeTranslates(r);
    case Filter(q, _) => JoinTreeTranslates(q);
  }

  lemma {:induction false} LeavesCompile(p: Pattern)
    requires forall b :: b in Branches(p) ==> NoBlankEnds(b)
    ensures NoBlankEnds(p)
  {
    if p.Union? {
      LeavesCompile(p.left);
      LeavesCompile(p.right);
    } else {
      assert p in Branches(p);
    }
  }

  /** The rows answer the query over data: the bag of its solutions, each cut down to the columns asked
      for, or with DISTINCT each of these once. */
  ghost predicate AnswersQuery(q: Select, rows: seq<CRow>, data: seq<Triple>) {
    var want := EncodeAll(ProjectAll(Eval(q.pattern, data), Columns(q)));
    && (!q.distinct ==> multiset(rows) == multiset(want))
    && (q.distinct ==> NoDup(rows) && forall row :: row in rows <==> row in want)
  }

  lemma ColumnsReturned(q: Select, c: nat)
    requires GoodLeaves(Branches(q.pattern), c, Columns(q))
    ensures TranslateSelectQuery(q, c).vars == Columns(q)
  {
    GoodLeavesTranslate(Branches(q.pattern), c, Columns(q));
    LeavesCompile(q.pattern);
    ColumnsExact(q, c);
  }

  /** A whole SELECT query, with or without UNION, DISTINCT and named columns, over the graph built from ts. */
  lemma SelectCorrect(q: Select, c: nat, d: Listing, ts: seq<Triple>, data: seq<Triple>)
    requires Serves(d, ts, data)
    requires GoodLeaves(Branches(q.pattern), c, Columns(q))
    ensures AnswersQuery(q, RunQuery(TranslateSelectQuery(q, c), d), data)
  {
    var t, ps, vars := TranslateSelectQuery(q, c), Branches(q.pattern), Columns(q);
    ColumnsReturned(q, c);
    BranchesAreLeaves(q.pattern, data);
    if q.distinct {
      DedupIsSet(RunBranches(t.branches, vars, true, d));
      forall row ensures row in RunQuery(t, d) <==> row in EncodeAll(ProjectAll(Eval(q.pattern, data), vars)) {
        UnionDistinctMembers(ps, c, vars, d, ts, data, row);
      }
    } else {
      UnionAllCorrect(ps, c, vars, d, ts, data);
    }
  }
}
