/** What a translated query cannot see: literals and classes, which are no edges, and the predicate of an edge. */
module TranslatorHidden {
  import opened Common
  import opened Rdf
  import opened Schema
  import opened PropertyGraph
  import opened CypherGenerator
  import opened CypherQuery
  import opened S = Sparql
  import opened BgpSolutions
  import opened Translator
  import opened TranslatorJoins
  import opened TranslatorTheorem
  import opened TranslatorResults
  import opened TranslatorOptional

  // ----- more data, more solutions

  lemma {:induction false} EvalTripleConcat(tp: TriplePattern, a: seq<Triple>, b: seq<Triple>)
    ensures EvalTriple(tp, a + b) == EvalTriple(tp, a) + EvalTriple(tp, b)
  {
    if a == [] {
      assert a + b == b;
    } else {
      assert (a + b)[1..] == a[1..] + b;
      EvalTripleConcat(tp, a[1..], b);
    }
  }

  lemma {:induction false} JoinRowsSplitRight(a: seq<Row>, b: seq<Row>, b': seq<Row>)
    ensures multiset(JoinRows(a, b + b')) == multiset(JoinRows(a, b)) + multiset(JoinRows(a, b'))
  {
    if a != [] {
      JoinRowsSplitRight(a[1..], b, b');
      JoinRowConcat(a[0], b, b');
    }
  }

  /** x is y and more. */
  ghost predicate More(x: seq<Row>, y: seq<Row>, extra: seq<Row>) {
    multiset(x) == multiset(y) + multiset(extra)
  }

  lemma JoinMore(x: seq<Row>, x0: seq<Row>, dx: seq<Row>, y: seq<Row>, y0: seq<Row>, dy: seq<Row>) returns (extra: seq<Row>)
    requires More(x, x0, dx) && More(y, y0, dy)
    ensures More(JoinRows(x, y), JoinRows(x0, y0), extra)
  {
    JoinRowsPermutation(x, x0 + dx, y, y0 + dy);
    JoinRowsConcat(x0, dx, y0 + dy);
    JoinRowsSplitRight(x0, y0, dy);
    extra := JoinRows(x0, dy) + JoinRows(dx, y0 + dy);
  }

  lemma {:induction false} BgpMore(tps: seq<TriplePattern>, a: seq<Triple>, b: seq<Triple>) returns (extra: seq<Row>)
    ensures More(EvalBgp(tps, a + b), EvalBgp(tps, a), extra)
  {
    extra := [];
    if tps != [] {
      EvalTripleConcat(tps[0], a, b);
      extra := BgpMore(tps[1..], a, b);
      extra := JoinMore(EvalTriple(tps[0], a + b), EvalTriple(tps[0], a), EvalTriple(tps[0], b),
                        EvalBgp(tps[1..], a + b), EvalBgp(tps[1..], a), extra);
    }
  }

  lemma FilterMore(e: Expr, x: seq<Row>, x0: seq<Row>, dx: seq<Row>)
    requires More(x, x0, dx)
    ensures More(FilterRows(Some(e), x), FilterRows(Some(e), x0), FilterRows(Some(e), dx))
  {
    FilterRowsPermutation(Some(e), x, x0 + dx);
    FilterRowsConcat(Some(e), x0, dx);
  }

  /** A join tree loses no solution when the data grows. */
  lemma {:induction false} TreeMore(p: Pattern, a: seq<Triple>, b: seq<Triple>) returns (extra: seq<Row>)
    requires JoinTree(p)
    ensures More(Eval(p, a + b), Eval(p, a), extra)
  {
    match p
    case Bgp(tps) => extra := BgpMore(tps, a, b);
    case Filter(q, e) =>
      extra := TreeMore(q, a, b);
      FilterMore(e, Eval(q, a + b), Eval(q, a), extra);
      extra := FilterRows(Some(e), extra);
    case Join(l, r) =>
      var left := TreeMore(l, a, b);
      var right := TreeMore(r, a, b);
      extra := JoinMore(Eval(l, a + b), Eval(l, a), left, Eval(r, a + b), Eval(r, a), right);
  }

  // ----- the triples that are edges

  function Shown(ts: seq<Triple>): seq<Triple> {
    if ts == [] then [] else (if IsEdgeTriple(ts[0]) then [ts[0]] else []) + Shown(ts[1..])
  }

  function Hidden(ts: seq<Triple>): seq<Triple> {
    if ts == [] then [] else (if IsEdgeTriple(ts[0]) then [] else [ts[0]]) + Hidden(ts[1..])
  }

  lemma {:induction false} ShownAndHidden(ts: seq<Triple>)
    ensures multiset(ts) == multiset(Shown(ts) + Hidden(ts))
    ensures forall t :: t in Shown(ts) <==> t in ts && IsEdgeTriple(t)
  {
    if ts != [] {
      ShownAndHidden(ts[1..]);
      assert ts == [ts[0]] + ts[1..];
    }
  }

  lemma {:induction false} ShownNoDup(ts: seq<Triple>)
    requires NoDup(ts)
    ensures NoDup(Shown(ts))
  {
    if ts != [] {
      ShownNoDup(ts[1..]);
      ShownAndHidden(ts[1..]);
      var first := if IsEdgeTriple(ts[0]) then [ts[0]] else [];
      assert forall i :: 0 <= i < |ts[1..]| ==> ts[1..][i] == ts[i + 1];
      assert ts[0] !in ts[1..];
      NoDupConcat(first, Shown(ts[1..]));
    }
  }

  /** d lists a graph with the edges that inserting ts builds, whatever triples these are; data lists ts as a set. */
  ghost predicate Stores(d: Listing, ts: seq<Triple>, data: seq<Triple>) {
    && (forall t :: t in ts && IsEdgeTriple(t) ==> PlainTriple(t))
    && Lists(d) && d.graph.edges == EdgesOf(ts) && NoDup(data) && Elements(data) == Elements(ts)
  }

  /** The graph that inserting any triples builds. */
  lemma InsertedStores(d: Listing, ts: seq<Triple>, data: seq<Triple>)
    requires Lists(d) && d.graph == InsertOneByOne(EMPTY, ts)
    requires forall t :: t in ts && IsEdgeTriple(t) ==> PlainTriple(t)
    requires NoDup(data) && Elements(data) == Elements(ts)
    ensures Stores(d, ts, data)
  {
    InsertedEdges(EMPTY, ts);
  }

  lemma ShownServes(d: Listing, ts: seq<Triple>, data: seq<Triple>)
    requires Stores(d, ts, data)
    ensures Serves(d, Shown(ts), Shown(data))
  {
    ShownAndHidden(ts);
    ShownAndHidden(data);
    ShownNoDup(data);
    assert EdgesOf(Shown(ts)) == EdgesOf(ts);
    forall t ensures t in Elements(Shown(data)) <==> t in Elements(Shown(ts)) {
      assert t in Elements(data) <==> t in Elements(ts);
    }
  }

  lemma {:induction false} ProjectedSize(ms: seq<Row>, vars: set<string>)
    ensures |EncodeAll(ProjectAll(ms, vars))| == |ms|
  {
    if ms != [] { ProjectedSize(ms[1..], vars); }
  }

  lemma SizeOfMore(x: seq<Row>, y: seq<Row>, extra: seq<Row>)
    requires More(x, y, extra)
    ensures |x| == |y| + |extra| && (extra == [] ==> multiset(x) == multiset(y))
  {
    assert |multiset(x)| == |x| && |multiset(y)| == |y| && |multiset(extra)| == |extra|;
  }

  /** Over any triples, literals and classes among them, a query finds the solutions over the edges; so it is right if
      and only if there are no more solutions than those. */
  lemma HiddenExact(p: Pattern, c: nat, d: Listing, ts: seq<Triple>, data: seq<Triple>, vars: set<string>)
    requires Stores(d, ts, data)
    requires JoinTree(p) && HasTriple(p) && Made(p, c) !! Vars(p) && vars <= Vars(p)
    ensures Right(p, c, d, Shown(data), vars)
    ensures Right(p, c, d, data, vars) <==> |Eval(p, data)| == |Eval(p, Shown(data))|
  {
    ShownServes(d, ts, data);
    BranchCorrect(p, c, d, Shown(ts), Shown(data), vars);
    ShownAndHidden(data);
    EvalPermutation(p, data, Shown(data) + Hidden(data));
    var extra := TreeMore(p, Shown(data), Hidden(data));
    SizeOfMore(Eval(p, data), Eval(p, Shown(data)), extra);
    var got, want, all := BranchRows(BranchOf(Compile(p, c)), vars, d),
      EncodeAll(ProjectAll(Eval(p, Shown(data)), vars)), EncodeAll(ProjectAll(Eval(p, data), vars));
    ProjectedSize(Eval(p, Shown(data)), vars);
    ProjectedSize(Eval(p, data), vars);
    assert |multiset(got)| == |got| && |multiset(want)| == |want| && |multiset(all)| == |all|;
    if extra == [] { ProjectPermutation(Eval(p, data), Eval(p, Shown(data)), vars); }
  }

  lemma SameSizeExact(tps: seq<TriplePattern>, data: seq<Triple>)
    requires NoDup(data)
    ensures |EvalBgp(tps, data)| == |EvalBgp(tps, Shown(data))| <==> forall m :: Solves(tps, data, m) ==> Solves(tps, Shown(data), m)
  {
    var x, y := EvalBgp(tps, data), EvalBgp(tps, Shown(data));
    ShownAndHidden(data);
    ShownNoDup(data);
    EvalBgpPermutation(tps, data, Shown(data) + Hidden(data));
    var extra := BgpMore(tps, Shown(data), Hidden(data));
    SizeOfMore(x, y, extra);
    forall m ensures multiset(x)[m] <= multiset(y)[m] <==> (Solves(tps, data, m) ==> Solves(tps, Shown(data), m)) {
      BgpCounts(tps, data, m);
      BgpCounts(tps, Shown(data), m);
    }
    NoMoreIfCounted(x, y, extra);
  }

  /** A basic graph pattern is answered rightly if and only if no solution uses a literal or a class. */
  lemma HiddenBgpExact(tps: seq<TriplePattern>, c: nat, d: Listing, ts: seq<Triple>, data: seq<Triple>, vars: set<string>)
    requires Stores(d, ts, data)
    requires var p := Bgp(tps); JoinTree(p) && HasTriple(p) && Made(p, c) !! Vars(p) && vars <= Vars(p)
    ensures Right(Bgp(tps), c, d, data, vars) <==> forall m :: Solves(tps, data, m) ==> Solves(tps, Shown(data), m)
  {
    HiddenExact(Bgp(tps), c, d, ts, data, vars);
    SameSizeExact(tps, data);
  }

  lemma NoMoreIfCounted(x: seq<Row>, y: seq<Row>, extra: seq<Row>)
    requires More(x, y, extra)
    ensures extra == [] <==> forall m :: multiset(x)[m] <= multiset(y)[m]
  {
    if extra != [] {
      assert extra[0] in multiset(extra);
      assert multiset(x)[extra[0]] > multiset(y)[extra[0]];
    }
  }

  // ----- ends that are literals

  /** No node has a property called value. */
  ghost predicate NoValues(d: Listing) {
    forall k :: "value" !in NodeAt(d.graph, k).props
  }

  predicate HasLiteralEnd(tp: TriplePattern) {
    tp.obj.Fixed? && tp.obj.term.Lit?
  }

  lemma {:induction false} LiteralAsksValue(tps: seq<TriplePattern>, c: nat, i: nat)
    requires i < |tps| && HasLiteralEnd(tps[i])
    ensures exists cond :: cond in CompileBgp(tps, c).conds && cond.ValueIs?
  {
    var first := CompileTriple(tps[0], c);
    assert CompileBgp(tps, c).conds == first.conds + CompileBgp(tps[1..], first.next).conds;
    if i == 0 {
      var s := TermToCypher(tps[0].subj, c);
      var cond := TermToCypher(tps[0].obj, s.next).cond.value;
      assert cond in first.conds && cond.ValueIs?;
    } else {
      LiteralAsksValue(tps[1..], first.next, i - 1);
    }
  }

  lemma {:induction false} NothingHasValue(cs: seq<Cond>, cond: Cond, rows: seq<CRow>, d: Listing)
    requires cond in cs && cond.ValueIs? && NoValues(d)
    ensures Where(cs, rows, d) == []
  {
    if rows != [] {
      NothingHasValue(cs, cond, rows[1..], d);
      var i :| 0 <= i < |cs| && cs[i] == cond;
      assert !CondTrue(cs[i], rows[0], d);
    }
  }

  lemma {:induction false} BgpPaths(tps: seq<TriplePattern>, c: nat)
    ensures PathsOnly(CompileBgp(tps, c).parts) && |CompileBgp(tps, c).parts| == |tps|
  {
    if tps != [] { BgpPaths(tps[1..], CompileTriple(tps[0], c).next); }
  }

  lemma RunBgp(tps: seq<TriplePattern>, c: nat, d: Listing)
    requires tps != []
    ensures var out := CompileBgp(tps, c);
      Run(MatchClauses(out.parts), out.conds, d) == Where(out.conds, MatchAll(out.parts, map[], d.edges), d)
  {
    var out := CompileBgp(tps, c);
    BgpPaths(tps, c);
    ClausesOfPaths(out.parts, []);
    assert [] + out.parts == out.parts;
    MatchEachOne(out.parts, map[], d.edges);
  }

  lemma NothingWanted(rows: seq<CRow>)
    ensures SameBag([], rows) <==> rows == []
  {
    if rows != [] { assert rows[0] in multiset(rows); }
  }

  /** Literals are properties under the names of their predicates, while a literal end asks for a node with a value: where
      no node has one nothing is found, so the answer is right if and only if there is no solution. */
  lemma LiteralEndExact(tps: seq<TriplePattern>, c: nat, d: Listing, data: seq<Triple>, vars: set<string>, i: nat)
    requires i < |tps| && HasLiteralEnd(tps[i]) && NoValues(d)
    ensures Right(Bgp(tps), c, d, data, vars) <==> Eval(Bgp(tps), data) == []
  {
    var out := CompileBgp(tps, c);
    LiteralAsksValue(tps, c, i);
    var cond :| cond in out.conds && cond.ValueIs?;
    RunBgp(tps, c, d);
    NothingHasValue(out.conds, cond, MatchAll(out.parts, map[], d.edges), d);
    ProjectedSize(EvalBgp(tps, data), vars);
    NothingWanted(EncodeAll(ProjectAll(EvalBgp(tps, data), vars)));
  }

  /** Where a node has a value written as a string, the end takes it exactly if it is that literal's text. */
  lemma LiteralConditionReads(l: Literal, c: nat, r: CRow, d: Listing, text: string)
    requires Clean(text) && Clean(l.value)
    requires var v := TermToCypher(Fixed(Lit(l)), c).v;
      && v in r && r[v].NodeVal?
      && var props := NodeAt(d.graph, r[v].key).props; "value" in props && props["value"] == Text(Quoted(text))
    ensures TermToCypher(Fixed(Lit(l)), c).cond.Some?
    ensures CondTrue(TermToCypher(Fixed(Lit(l)), c).cond.value, r, d) <==> text == l.value
  {
    EscapeRoundTripExact(text);
    EscapeRoundTripExact(l.value);
    if Quoted(text) == Quoted(l.value) {
      assert Quoted(text)[1..|Quoted(text)| - 1] == EscapeCypherString(text);
      assert Quoted(l.value)[1..|Quoted(l.value)| - 1] == EscapeCypherString(l.value);
    }
  }

  // ----- predicates that are variables

  /** v stands for a predicate of the pattern, and for nothing else in it or its translation. */
  ghost predicate OnlyPredicate(tps: seq<TriplePattern>, c: nat, v: string) {
    && (exists i :: 0 <= i < |tps| && tps[i].pred == PredVar(v))
    && v !in PartVars(CompileBgp(tps, c).parts)
  }

  lemma {:induction false} PredicateIsVariable(tps: seq<TriplePattern>, v: string)
    requires exists i :: 0 <= i < |tps| && tps[i].pred == PredVar(v)
    ensures v in BgpVars(tps)
  {
    var i :| 0 <= i < |tps| && tps[i].pred == PredVar(v);
    if i > 0 {
      assert tps[1..][i - 1] == tps[i];
      PredicateIsVariable(tps[1..], v);
    }
  }

  lemma {:induction false} NeverReturned(rows: seq<CRow>, vars: set<string>, v: string)
    requires forall r :: r in rows ==> v !in r
    ensures |ReturnAll(rows, vars)| == |rows| && forall r :: r in ReturnAll(rows, vars) ==> v !in r
  {
    if rows != [] {
      assert rows[0] in rows && forall r :: r in rows[1..] ==> r in rows;
      NeverReturned(rows[1..], vars, v);
    }
  }

  lemma {:induction false} AlwaysWanted(ms: seq<Row>, vars: set<string>, v: string)
    requires v in vars && forall m :: m in ms ==> v in m
    ensures |EncodeAll(ProjectAll(ms, vars))| == |ms| && forall r :: r in EncodeAll(ProjectAll(ms, vars)) ==> v in r
  {
    if ms != [] {
      assert ms[0] in ms && forall m :: m in ms[1..] ==> m in ms;
      AlwaysWanted(ms[1..], vars, v);
    }
  }

  lemma DisjointBags(a: seq<CRow>, b: seq<CRow>, v: string)
    requires (forall r :: r in a ==> v !in r) && forall r :: r in b ==> v in r
    ensures SameBag(a, b) <==> a == [] && b == []
  {
    if SameBag(a, b) {
      forall r ensures r in a <==> r in b {
        assert r in multiset(a) <==> r in multiset(b);
      }
      Inhabited(a);
      Inhabited(b);
    }
  }

  /** A predicate variable is never bound: a query that asks for it is right if and only if it finds nothing and there is
      nothing to find. */
  lemma PredicateVariableExact(tps: seq<TriplePattern>, c: nat, d: Listing, data: seq<Triple>, vars: set<string>, v: string)
    requires OnlyPredicate(tps, c, v) && v in vars
    ensures Right(Bgp(tps), c, d, data, vars)
      <==> Run(MatchClauses(CompileBgp(tps, c).parts), CompileBgp(tps, c).conds, d) == [] && EvalBgp(tps, data) == []
  {
    var out := CompileBgp(tps, c);
    RunBgp(tps, c, d);
    BgpPaths(tps, c);
    var rows := MatchAll(out.parts, map[], d.edges);
    forall r | r in Where(out.conds, rows, d) ensures v !in r {
      WhereSubset(out.conds, rows, d);
      MatchAllBinds(out.parts, map[], d.edges, r);
    }
    NeverReturned(Where(out.conds, rows, d), vars, v);
    PredicateIsVariable(tps, v);
    EvalBgpBinds(tps, data);
    AlwaysWanted(EvalBgp(tps, data), vars, v);
    DisjointBags(ReturnAll(Where(out.conds, rows, d), vars), EncodeAll(ProjectAll(EvalBgp(tps, data), vars)), v);
  }

  function OpenPattern(s: string, v: string, o: string): TriplePattern {
    TriplePattern(Var(s), PredVar(v), Var(o))
  }

  /** Three variables with names of their own. */
  predicate OwnNames(s: string, v: string, o: string, c: nat) {
    s != v && s != o && v != o && Fresh("r", c) != s && Fresh("r", c) != v && Fresh("r", c) != o
  }

  lemma OpenCompiles(s: string, v: string, o: string, c: nat)
    ensures CompileBgp([OpenPattern(s, v, o)], c)
      == Compiled([PathPart(Path(s, Fresh("r", c), None, o))], [], {s, v, o}, c + 1)
  {
    var tps := [OpenPattern(s, v, o)];
    assert tps[1..] == [];
    assert CompileTriple(tps[0], c).vars == {s, v, o};
  }

  /** A path with three names of its own binds them all. */
  lemma PathBinds(s: string, rel: string, o: string, pred: Option<string>, e: Edge)
    requires s != rel && s != o && rel != o
    ensures MatchPath(Path(s, rel, pred, o), e, map[])
      == if pred.Some? && ReadCypherString(pred.value) != Some(e.pred) then None
         else Some(map[s := NodeVal(e.source), rel := RelVal(e), o := NodeVal(e.target)])
  {
  }

  /** The solution of one triple. */
  lemma OpenSolution(s: string, v: string, o: string, t: Triple)
    requires s != v && s != o && v != o
    ensures BindTriple(OpenPattern(s, v, o), t) == Some(map[s := t.subj, v := Iri(t.pred), o := t.obj])
  {
    var a: Row := map[s := t.subj];
    var b: Row := map[v := Iri(t.pred)];
    var m: Row := map[o := t.obj];
    assert Compatible(a, b) && Compatible(a + b, m);
    assert a + b + m == map[s := t.subj, v := Iri(t.pred), o := t.obj];
  }

  /** The row of its edge. */
  lemma OpenRow(s: string, rel: string, o: string, t: Triple)
    requires s != rel && s != o && rel != o && !t.obj.Lit?
    ensures MatchPath(Path(s, rel, None, o), EdgeOf(t), map[])
      == Some(map[s := NodeVal(KeyOf(t.subj)), rel := RelVal(EdgeOf(t)), o := NodeVal(KeyOf(t.obj))])
  {
    PathBinds(s, rel, o, None, EdgeOf(t));
  }

  /** The columns of a solution. */
  function Cut(m: Row, vars: set<string>): Row {
    map w | w in m && w in vars :: m[w]
  }

  lemma CutReturned(r: CRow, m: Row, vars: set<string>)
    requires vars <= r.Keys && vars <= m.Keys && forall w :: w in vars ==> r[w] != Null && r[w] == EncodeTerm(m[w])
    ensures ReturnRow(r, vars) == Encode(Cut(m, vars))
  {
  }

  lemma OpenReturned(s: string, v: string, o: string, rel: string, a: Val, e: Val, b: Val, x: Term, p: Term, y: Term, vars: set<string>)
    requires s != v && s != o && v != o && rel != s && rel != o && vars <= {s, o}
    requires a != Null && b != Null && a == EncodeTerm(x) && b == EncodeTerm(y)
    ensures ReturnRow(map[s := a, rel := e, o := b], vars) == Encode(Cut(map[s := x, v := p, o := y], vars))
  {
    CutReturned(map[s := a, rel := e, o := b], map[s := x, v := p, o := y], vars);
  }

  lemma {:induction false} OpenRows(s: string, v: string, o: string, c: nat, edges: seq<Edge>, ts: seq<Triple>, vars: set<string>)
    requires OwnNames(s, v, o, c) && Aligned(edges, ts) && vars <= {s, o}
    ensures ReturnAll(MatchPart(PathPart(Path(s, Fresh("r", c), None, o)), map[], edges), vars)
      == EncodeAll(ProjectAll(EvalTriple(OpenPattern(s, v, o), ts), vars))
    decreases |ts|
  {
    if ts != [] {
      var part, tp := PathPart(Path(s, Fresh("r", c), None, o)), OpenPattern(s, v, o);
      assert Aligned(edges[1..], ts[1..]);
      OpenRows(s, v, o, c, edges[1..], ts[1..], vars);
      OpenRow(s, Fresh("r", c), o, ts[0]);
      OpenSolution(s, v, o, ts[0]);
      OpenReturned(s, v, o, Fresh("r", c), NodeVal(KeyOf(ts[0].subj)), RelVal(EdgeOf(ts[0])), NodeVal(KeyOf(ts[0].obj)),
                   ts[0].subj, Iri(ts[0].pred), ts[0].obj, vars);
      var r, m := MatchPath(part.path, edges[0], map[]).value, BindTriple(tp, ts[0]).value;
      ReturnAllConcat([r], MatchPart(part, map[], edges[1..]), vars);
      ProjectAllConcat([m], EvalTriple(tp, ts[1..]), vars);
      EncodeAllConcat(ProjectAll([m], vars), ProjectAll(EvalTriple(tp, ts[1..]), vars));
      OneReturned(r, m, vars);
    }
  }

  lemma OneReturned(r: CRow, m: Row, vars: set<string>)
    requires ReturnRow(r, vars) == Encode(Cut(m, vars))
    ensures ReturnAll([r], vars) == EncodeAll(ProjectAll([m], vars))
  {
    var one := [m];
    assert [r][1..] == [] && one[1..] == [];
    var projected := ProjectAll(one, vars);
    var cut := map w | w in one[0] && w in vars :: one[0][w];
    assert projected == [cut] + ProjectAll(one[1..], vars) && cut == Cut(m, vars);
    assert projected[1..] == [];
  }

  /** ?s ?v ?o finds every edge, but not its predicate: it is answered rightly if and only if the query does not ask for the
      predicate, or there is nothing to find. */
  lemma OpenPatternExact(s: string, v: string, o: string, c: nat, d: Listing, ts: seq<Triple>, data: seq<Triple>, vars: set<string>)
    requires Serves(d, ts, data) && OwnNames(s, v, o, c) && vars <= {s, v, o}
    ensures Right(Bgp([OpenPattern(s, v, o)]), c, d, data, vars) <==> v !in vars || data == []
  {
    var tp, tps, part := OpenPattern(s, v, o), [OpenPattern(s, v, o)], PathPart(Path(s, Fresh("r", c), None, o));
    var out := CompileBgp(tps, c);
    var aligned := AlignedData(d, ts, data);
    OpenCompiles(s, v, o, c);
    RunBgp(tps, c, d);
    OnePart(out.parts, d.edges);
    WhereNone(MatchPart(part, map[], d.edges), d);
    OneTriplePattern(tp, data);
    assert |aligned| == |multiset(aligned)| == |multiset(data)| == |data|;
    EvalTriplePermutation(tp, aligned, data);
    if v in vars {
      assert tps[0].pred == PredVar(v) && v !in PartVars(out.parts);
      PredicateVariableExact(tps, c, d, data, vars, v);
      OpenRows(s, v, o, c, d.edges, aligned, {});
      OpenSizes(part, tp, d.edges, aligned);
      assert |EvalTriple(tp, aligned)| == |multiset(EvalTriple(tp, aligned))| == |EvalTriple(tp, data)|;
      EveryTripleFits(s, v, o, data);
    } else {
      OpenRows(s, v, o, c, d.edges, aligned, vars);
      ProjectPermutation(EvalTriple(tp, aligned), EvalTriple(tp, data), vars);
    }
  }

  lemma OpenSizes(part: Part, tp: TriplePattern, edges: seq<Edge>, ts: seq<Triple>)
    requires ReturnAll(MatchPart(part, map[], edges), {}) == EncodeAll(ProjectAll(EvalTriple(tp, ts), {}))
    ensures |MatchPart(part, map[], edges)| == |EvalTriple(tp, ts)|
  {
    ReturnAllLength(MatchPart(part, map[], edges), {});
    ProjectedSize(EvalTriple(tp, ts), {});
  }

  lemma EveryTripleFits(s: string, v: string, o: string, ts: seq<Triple>)
    requires s != v && s != o && v != o
    ensures EvalTriple(OpenPattern(s, v, o), ts) == [] <==> ts == []
  {
    if ts != [] { assert BindTriple(OpenPattern(s, v, o), ts[0]).Some?; }
  }

  // ----- ends that are blank nodes

  function BlankPattern(id: string, pred: string, o: string): TriplePattern {
    TriplePattern(Fixed(Blank(id)), PredIri(pred), Var(o))
  }

  /** The label is read as it is written, and the variable has a name of its own. */
  predicate PlainNames(id: string, pred: string, o: string, c: nat) {
    && Clean(id) && Clean(pred) && (forall i :: 0 <= i < |id| ==> id[i] != '\'' && id[i] != '\\')
    && o != "_:" + id && o != Fresh("b", c) && o != Fresh("r", c + 1)
  }

  lemma {:induction false} ReadsItself(s: string)
    requires forall i :: 0 <= i < |s| ==> s[i] != '\'' && s[i] != '\\'
    ensures ReadCypherString(s) == Some(s)
  {
    if s != "" {
      ReadsItself(s[1..]);
      assert s == [s[0]] + s[1..];
    }
  }

  lemma BlankCompiles(id: string, pred: string, o: string, c: nat)
    ensures CompileBgp([BlankPattern(id, pred, o)], c)
      == Compiled([PathPart(Path(Fresh("b", c), Fresh("r", c + 1), Some(EscapeCypherString(pred)), o))],
                  [UriIs(Fresh("b", c), "_:" + id)], {o}, c + 2)
  {
    var tps := [BlankPattern(id, pred, o)];
    assert tps[1..] == [];
    var first := CompileTriple(tps[0], c);
    assert first.vars == {o};
  }

  /** The row of one edge. */
  lemma BlankRow(id: string, pred: string, o: string, c: nat, t: Triple)
    requires PlainNames(id, pred, o, c) && IsEdgeTriple(t) && PlainTriple(t)
    ensures var path := Path(Fresh("b", c), Fresh("r", c + 1), Some(EscapeCypherString(pred)), o);
      var found := MatchPath(path, EdgeOf(t), map[]);
      && (found.Some? <==> t.pred == pred)
      && (found.Some? ==> found.value == map[Fresh("b", c) := NodeVal(KeyOf(t.subj)), Fresh("r", c + 1) := RelVal(EdgeOf(t)),
                                             o := NodeVal(KeyOf(t.obj))])
  {
    EscapeRoundTripExact(pred);
    if Fresh("b", c) == Fresh("r", c + 1) { FreshInjective("b", c, "r", c + 1); }
    EdgePredicate(t);
    PathBinds(Fresh("b", c), Fresh("r", c + 1), o, Some(EscapeCypherString(pred)), EdgeOf(t));
  }

  lemma EdgePredicate(t: Triple)
    requires PlainTriple(t) && !t.obj.Lit?
    ensures EdgeOf(t).pred == t.pred
  {
  }

  lemma BlankHolds(id: string, t: Triple, b: string, r: CRow, d: Listing)
    requires Clean(id) && (forall i :: 0 <= i < |id| ==> id[i] != '\'' && id[i] != '\\') && PlainTriple(t)
    requires b in r && r[b] == NodeVal(KeyOf(t.subj))
    ensures CondTrue(UriIs(b, "_:" + id), r, d) <==> t.subj == Blank(id)
  {
    assert forall i :: 0 <= i < |"_:" + id| ==> ("_:" + id)[i] == if i < 2 then "_:"[i] else id[i - 2];
    ReadsItself("_:" + id);
    KeyOfPlain(t.subj);
    if NodeUri(t.subj) == NodeUri(Blank(id)) { NodeUriInjective(t.subj, Blank(id)); }
  }

  lemma BlankSolution(id: string, pred: string, o: string, t: Triple)
    requires o != "_:" + id
    ensures BindTriple(BlankPattern(id, pred, o), t)
      == if t.pred == pred then Some(map["_:" + id := t.subj, o := t.obj]) else None
  {
    var s: Row := map["_:" + id := t.subj];
    var m: Row := map[o := t.obj];
    assert s + map[] == s && s + m == map["_:" + id := t.subj, o := t.obj] && Compatible(s, m) && Compatible(s, map[]);
  }

  /** Both sides over the same triples in the same order. */
  ghost predicate BlankAgrees(got: seq<CRow>, want: seq<CRow>, id: string, pred: string, ts: seq<Triple>) {
    var all := forall t :: t in ts && t.pred == pred ==> t.subj == Blank(id);
    |got| <= |want| && (|got| == |want| <==> all) && (all ==> got == want)
  }

  lemma {:induction false} BlankRows(id: string, pred: string, o: string, c: nat, edges: seq<Edge>, ts: seq<Triple>, d: Listing)
    requires PlainNames(id, pred, o, c) && Aligned(edges, ts)
    ensures var out := CompileBgp([BlankPattern(id, pred, o)], c);
      BlankAgrees(ReturnAll(Where(out.conds, MatchPart(out.parts[0], map[], edges), d), {o}),
                  EncodeAll(ProjectAll(EvalTriple(BlankPattern(id, pred, o), ts), {o})), id, pred, ts)
    decreases |ts|
  {
    BlankCompiles(id, pred, o, c);
    if ts != [] {
      assert Aligned(edges[1..], ts[1..]);
      BlankRows(id, pred, o, c, edges[1..], ts[1..], d);
      BlankOneMore(id, pred, o, c, edges, ts, d);
    }
  }

  lemma BlankOneMore(id: string, pred: string, o: string, c: nat, edges: seq<Edge>, ts: seq<Triple>, d: Listing)
    requires PlainNames(id, pred, o, c) && Aligned(edges, ts) && ts != []
    ensures var out, tp := CompileBgp([BlankPattern(id, pred, o)], c), BlankPattern(id, pred, o);
      var t, part := ts[0], out.parts[0];
      var row: CRow := map[o := NodeVal(KeyOf(t.obj))];
      && ReturnAll(Where(out.conds, MatchPart(part, map[], edges), d), {o})
         == (if t.pred == pred && t.subj == Blank(id) then [row] else [])
            + ReturnAll(Where(out.conds, MatchPart(part, map[], edges[1..]), d), {o})
      && EncodeAll(ProjectAll(EvalTriple(tp, ts), {o}))
         == (if t.pred == pred then [row] else []) + EncodeAll(ProjectAll(EvalTriple(tp, ts[1..]), {o}))
  {
    BlankCompiles(id, pred, o, c);
    BlankSide(id, pred, o, ts);
    BlankQuerySide(id, pred, o, c, edges, ts, d);
  }

  lemma BlankSide(id: string, pred: string, o: string, ts: seq<Triple>)
    requires o != "_:" + id && ts != [] && !ts[0].obj.Lit?
    ensures var row: CRow := map[o := NodeVal(KeyOf(ts[0].obj))];
      EncodeAll(ProjectAll(EvalTriple(BlankPattern(id, pred, o), ts), {o}))
      == (if ts[0].pred == pred then [row] else []) + EncodeAll(ProjectAll(EvalTriple(BlankPattern(id, pred, o), ts[1..]), {o}))
  {
    var tp := BlankPattern(id, pred, o);
    BlankSolution(id, pred, o, ts[0]);
    var first := Singleton(BindTriple(tp, ts[0]));
    ProjectAllConcat(first, EvalTriple(tp, ts[1..]), {o});
    EncodeAllConcat(ProjectAll(first, {o}), ProjectAll(EvalTriple(tp, ts[1..]), {o}));
    if ts[0].pred == pred { ProjectOne(id, o, ts[0]); }
  }

  lemma ProjectOne(id: string, o: string, t: Triple)
    requires o != "_:" + id && !t.obj.Lit?
    ensures EncodeAll(ProjectAll([map["_:" + id := t.subj, o := t.obj]], {o})) == [map[o := NodeVal(KeyOf(t.obj))]]
  {
    var m: Row := map["_:" + id := t.subj, o := t.obj];
    var short: Row := map[o := t.obj];
    var one := [m];
    assert one[1..] == [];
    var projected := ProjectAll(one, {o});
    assert |projected| == 1 && projected[0] == short;
    assert projected[1..] == [];
    assert Encode(short) == map[o := NodeVal(KeyOf(t.obj))];
  }

  lemma BlankQuerySide(id: string, pred: string, o: string, c: nat, edges: seq<Edge>, ts: seq<Triple>, d: Listing)
    requires PlainNames(id, pred, o, c) && Aligned(edges, ts) && ts != []
    ensures var out := CompileBgp([BlankPattern(id, pred, o)], c);
      var row: CRow := map[o := NodeVal(KeyOf(ts[0].obj))];
      ReturnAll(Where(out.conds, MatchPart(out.parts[0], map[], edges), d), {o})
      == (if ts[0].pred == pred && ts[0].subj == Blank(id) then [row] else [])
         + ReturnAll(Where(out.conds, MatchPart(out.parts[0], map[], edges[1..]), d), {o})
  {
    var out, t := CompileBgp([BlankPattern(id, pred, o)], c), ts[0];
    BlankCompiles(id, pred, o, c);
    BlankRow(id, pred, o, c, t);
    var found := MatchPath(out.parts[0].path, edges[0], map[]);
    var rest := MatchPart(out.parts[0], map[], edges[1..]);
    WhereConcat(out.conds, ToSeq(found), rest, d);
    ReturnAllConcat(Where(out.conds, ToSeq(found), d), Where(out.conds, rest, d), {o});
    if found.Some? {
      BlankHolds(id, t, Fresh("b", c), found.value, d);
      WhereOne(UriIs(Fresh("b", c), "_:" + id), found.value, d);
      ReturnOne(found.value, o);
    }
  }

  lemma WhereOne(cond: Cond, r: CRow, d: Listing)
    ensures Where([cond], [r], d) == if CondTrue(cond, r, d) then [r] else []
  {
    assert [r][1..] == [];
    assert AllTrue([cond], r, d) <==> CondTrue([cond][0], r, d);
  }

  lemma ReturnOne(r: CRow, o: string)
    requires o in r && r[o] != Null
    ensures ReturnAll([r], {o}) == [map[o := r[o]]] && ReturnAll([], {o}) == []
  {
    assert [r][1..] == [];
    assert ReturnRow(r, {o}) == map[o := r[o]];
  }

  /** A blank node in a pattern is a variable, but it is asked for by its label: `_:b p ?o` is answered rightly if and
      only if that very node is the only subject of p. */
  lemma BlankEndExact(id: string, pred: string, o: string, c: nat, d: Listing, ts: seq<Triple>, data: seq<Triple>)
    requires Serves(d, ts, data) && PlainNames(id, pred, o, c)
    ensures Right(Bgp([BlankPattern(id, pred, o)]), c, d, data, {o})
      <==> forall t :: t in data && t.pred == pred ==> t.subj == Blank(id)
  {
    var tp, tps := BlankPattern(id, pred, o), [BlankPattern(id, pred, o)];
    var out := CompileBgp(tps, c);
    var aligned := AlignedData(d, ts, data);
    RunBgp(tps, c, d);
    BlankCompiles(id, pred, o, c);
    BlankRows(id, pred, o, c, d.edges, aligned, d);
    OnePart(out.parts, d.edges);
    OneTriplePattern(tp, data);
    EvalTriplePermutation(tp, aligned, data);
    ProjectPermutation(EvalTriple(tp, aligned), EvalTriple(tp, data), {o});
    var got := ReturnAll(Where(out.conds, MatchPart(out.parts[0], map[], d.edges), d), {o});
    var want, all := EncodeAll(ProjectAll(EvalTriple(tp, aligned), {o})), EncodeAll(ProjectAll(EvalTriple(tp, data), {o}));
    assert |multiset(got)| == |got| && |multiset(want)| == |want| && |multiset(all)| == |all|;
    forall t ensures t in aligned <==> t in data {
      assert t in multiset(aligned) <==> t in multiset(data);
    }
  }

  lemma OnePart(parts: seq<Part>, edges: seq<Edge>)
    requires |parts| == 1
    ensures MatchAll(parts, map[], edges) == MatchPart(parts[0], map[], edges)
  {
    MatchEachEmpty(MatchPart(parts[0], map[], edges), edges);
    assert parts[1..] == [];
  }

  lemma OneTriplePattern(tp: TriplePattern, data: seq<Triple>)
    ensures EvalBgp([tp], data) == EvalTriple(tp, data)
  {
    assert [tp][1..] == [];
    JoinRowsOfUnit(EvalTriple(tp, data));
  }

  lemma {:induction false} JoinRowsOfUnit(ms: seq<Row>)
    ensures JoinRows(ms, [map[]]) == ms
  {
    if ms != [] {
      JoinRowsOfUnit(ms[1..]);
      BothWithEmpty(Some(ms[0]));
      var unit: seq<Row> := [map[]];
      assert unit[1..] == [] && JoinRow(ms[0], unit) == [ms[0]] + JoinRow(ms[0], unit[1..]);
    }
  }
}
