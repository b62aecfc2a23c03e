/** The translation of join trees is correct, row by row and then as bags. */
module TranslatorTheorem {
  import opened Common
  import opened Rdf
  import opened Schema
  import opened PropertyGraph
  import opened CypherGenerator
  import opened CypherQuery
  import opened S = Sparql
  import opened Translator
  import opened TranslatorJoins

  // ----- one triple pattern against one edge

  /** The Cypher row stands for the solution: same nodes at the query's variables. */
  ghost predicate Stands(r: CRow, m: Row, users: set<string>) {
    PlainRow(m) && ReturnRow(r, users) == Encode(m)
  }

  lemma StandsAt(r: CRow, m: Row, users: set<string>, v: string)
    requires Stands(r, m, users) && v in users
    ensures v in m <==> v in r && r[v] != Null
    ensures v in m ==> r[v] == NodeVal(KeyOf(m[v]))
  {
    assert v in ReturnRow(r, users) <==> v in Encode(m);
    if v in m { assert ReturnRow(r, users)[v] == Encode(m)[v]; }
  }

  lemma StandsBind(r: CRow, m: Row, users: set<string>, v: string, x: Subject)
    requires Stands(r, m, users) && v in users && PlainTerm(x)
    ensures Stands(r[v := NodeVal(KeyOf(x))], m[v := x], users)
  {
    var r', m' := r[v := NodeVal(KeyOf(x))], m[v := x];
    forall w ensures w in ReturnRow(r', users) <==> w in Encode(m') {
      assert w in ReturnRow(r, users) <==> w in Encode(m);
    }
    forall w | w in Encode(m') ensures ReturnRow(r', users)[w] == Encode(m')[w] {
      if w != v {
        assert w in ReturnRow(r', users);
        StandsAt(r, m, users, w);
      }
    }
    assert ReturnRow(r', users) == Encode(m');
  }

  lemma StandsBindOther(r: CRow, m: Row, users: set<string>, v: string, x: Val)
    requires Stands(r, m, users) && v !in users
    ensures Stands(r[v := x], m, users)
  {
    assert ReturnRow(r[v := x], users) == ReturnRow(r, users);
  }

  lemma BelowBind(r: CRow, c: nat, v: string, x: Val, c': nat, users: set<string>)
    requires Below(r, c, users) && c <= c'
    requires v in users || forall prefix, n :: prefix in PREFIXES && n >= c' ==> v != Fresh(prefix, n)
    ensures Below(r[v := x], c', users)
  {
  }

  lemma FreshIsOld(p: string, c: nat)
    requires p in PREFIXES
    ensures forall prefix, n :: prefix in PREFIXES && n >= c + 1 ==> Fresh(p, c) != Fresh(prefix, n)
  {
    forall prefix, n | prefix in PREFIXES && n >= c + 1 ensures Fresh(p, c) != Fresh(prefix, n) {
      if Fresh(p, c) == Fresh(prefix, n) { FreshInjective(p, c, prefix, n); }
    }
  }

  lemma UriCondition(v: string, iri: string, r: CRow, x: Subject, d: Listing)
    requires PlainTerm(Iri(iri)) && PlainTerm(x) && v in r && r[v] == NodeVal(KeyOf(x))
    ensures CondTrue(UriIs(v, EscapeCypherString(iri)), r, d) <==> x == Iri(iri)
  {
    KeyOfPlain(x);
    EscapeRoundTripExact(iri);
    if NodeUri(x) == iri { NodeUriInjective(x, Iri(iri)); }
  }

  lemma BothWithOne(m: Row, v: string, x: Term)
    ensures Both(Some(m), Some(map[v := x])) == if v in m && m[v] != x then None else Some(m[v := x])
  {
    assert m + map[v := x] == m[v := x];
    assert Compatible(m, map[v := x]) <==> (v in m ==> m[v] == x);
  }

  lemma VarStep(v: string, c: nat, r: CRow, m: Row, x: Subject, users: set<string>)
    requires v in users
    requires Stands(r, m, users) && Below(r, c, users) && NodesAt(r, {v}) && PlainTerm(x)
    ensures var b, mo := BindVar(Some(r), v, NodeVal(KeyOf(x))), Both(Some(m), Some(map[v := x]));
      && (b.Some? <==> mo.Some?)
      && (mo.Some? ==> Stands(b.value, mo.value, users))
      && (b.Some? ==> Below(b.value, c, users) && b.value == r[v := NodeVal(KeyOf(x))])
  {
    var k := NodeVal(KeyOf(x));
    BothWithOne(m, v, x);
    StandsAt(r, m, users, v);
    BelowBind(r, c, v, k, c, users);
    if v in m {
      assert r[v] == k <==> m[v] == x by {
        if r[v] == k { KeyOfInjective(m[v], x); }
      }
      assert r[v] == k ==> r[v := k] == r && m[v := x] == m;
    } else {
      assert v !in r;
      StandsBind(r, m, users, v, x);
    }
  }

  lemma IriStep(iri: string, c: nat, r: CRow, m: Row, x: Subject, users: set<string>, d: Listing)
    requires Fresh("n", c) !in users && PlainTerm(Iri(iri))
    requires Stands(r, m, users) && Below(r, c, users) && PlainTerm(x)
    ensures var v := Fresh("n", c);
      var b := r[v := NodeVal(KeyOf(x))];
      && BindVar(Some(r), v, NodeVal(KeyOf(x))) == Some(b)
      && (CondTrue(UriIs(v, EscapeCypherString(iri)), b, d) <==> x == Iri(iri))
      && Stands(b, m, users) && Below(b, c + 1, users)
  {
    var v := Fresh("n", c);
    assert "n" in PREFIXES;
    FreshIsOld("n", c);
    StandsBindOther(r, m, users, v, NodeVal(KeyOf(x)));
    BelowBind(r, c, v, NodeVal(KeyOf(x)), c + 1, users);
    UriCondition(v, iri, r[v := NodeVal(KeyOf(x))], x, d);
  }

  /** Binding the Cypher variable of a term and checking its condition is binding the term. */
  ghost predicate TermBinds(code: TermCode, b: Option<CRow>, mo: Option<Row>, r: CRow, key: NodeKey,
                            users: set<string>, d: Listing) {
    && (b.Some? && AllTrue(Conds(code.cond), b.value, d) <==> mo.Some?)
    && (mo.Some? ==> Stands(b.value, mo.value, users))
    && (b.Some? ==> Below(b.value, code.next, users) && b.value == r[code.v := NodeVal(key)])
  }

  lemma TermStep(pt: TermPattern, c: nat, r: CRow, m: Row, x: Subject, users: set<string>, d: Listing)
    requires PlainPatternTerm(pt) && TermVars(pt) <= users && MadeByTerm(pt, c) !! users
    requires Stands(r, m, users) && Below(r, c, users) && NodesAt(r, TermVars(pt)) && PlainTerm(x)
    ensures var code := TermToCypher(pt, c);
      TermBinds(code, BindVar(Some(r), code.v, NodeVal(KeyOf(x))), Both(Some(m), BindTerm(pt, x)), r, KeyOf(x), users, d)
  {
    if pt.Var? {
      VarStep(pt.name, c, r, m, x, users);
    } else {
      var iri, code := pt.term.iri, TermToCypher(pt, c);
      IriStep(iri, c, r, m, x, users, d);
      BothWithEmpty(Some(m));
      var b := r[code.v := NodeVal(KeyOf(x))];
      assert Conds(code.cond) == [UriIs(code.v, EscapeCypherString(iri))];
      assert AllTrue(Conds(code.cond), b, d) <==> CondTrue(Conds(code.cond)[0], b, d);
    }
  }

  lemma MatchPathInOrder(p: Path, e: Edge, r: CRow)
    requires p.rel !in r && p.rel != p.source && p.rel != p.target
    ensures var ends := BindVar(BindVar(Some(r), p.source, NodeVal(e.source)), p.target, NodeVal(e.target));
      MatchPath(p, e, r) ==
        if p.pred.Some? && ReadCypherString(p.pred.value) != Some(e.pred) then None
        else if ends.Some? then Some(ends.value[p.rel := RelVal(e)]) else None
  {
    var a := BindVar(Some(r), p.source, NodeVal(e.source));
    if a.Some? {
      var r1 := a.value;
      assert p.rel !in r1;
      assert r1[p.rel := RelVal(e)][p.target := NodeVal(e.target)] == r1[p.target := NodeVal(e.target)][p.rel := RelVal(e)];
    }
  }

  lemma BothWithEmpty(a: Option<Row>)
    ensures Both(a, Some(map[])) == a
  {
    if a.Some? { assert a.value + map[] == a.value; }
  }

  lemma BindTripleInOrder(m: Row, tp: TriplePattern, t: Triple)
    requires tp.pred.PredIri?
    ensures Both(Some(m), BindTriple(tp, t)) ==
      if tp.pred.iri == t.pred then Both(Both(Some(m), BindTerm(tp.subj, t.subj)), BindTerm(tp.obj, t.obj)) else None
  {
    var s, p, o := BindTerm(tp.subj, t.subj), BindPredicate(tp.pred, t.pred), BindTerm(tp.obj, t.obj);
    BothWithEmpty(s);
    BothAssociates(Some(m), s, o);
  }

  lemma AllTrueConcat(a: seq<Cond>, b: seq<Cond>, r: CRow, d: Listing)
    ensures AllTrue(a + b, r, d) <==> AllTrue(a, r, d) && AllTrue(b, r, d)
  {
    var c := a + b;
    assert forall i :: 0 <= i < |a| ==> c[i] == a[i];
    assert forall i :: 0 <= i < |b| ==> c[|a| + i] == b[i];
  }

  /** What binding one end does to a row. */
  ghost predicate EndBound(pt: TermPattern, code: TermCode, r: CRow, r': CRow, users: set<string>) {
    && Extends(r', r) && Below(r', code.next, users)
    && r'.Keys == r.Keys + {code.v} && r'[code.v].NodeVal?
    && (pt.Var? ==> code.v == pt.name)
    && forall i :: 0 <= i < |Conds(code.cond)| ==> Settled(Conds(code.cond)[i], r')
  }

  lemma EndBinds(pt: TermPattern, c: nat, r: CRow, k: NodeKey, users: set<string>)
    requires PlainPatternTerm(pt) && TermVars(pt) <= users && MadeByTerm(pt, c) !! users && Below(r, c, users)
    ensures var code := TermToCypher(pt, c);
      var b := BindVar(Some(r), code.v, NodeVal(k));
      b.Some? ==> EndBound(pt, code, r, b.value, users) && b.value[code.v] == NodeVal(k)
  {
    assert "n" in PREFIXES;
    FreshIsOld("n", c);
  }

  lemma TripleGrown(tp: TriplePattern, c: nat, r: CRow, r1: CRow, r2: CRow, e: Edge, users: set<string>)
    requires PlainPattern(tp) && TripleVars(tp) <= users && MadeByTriple(tp, c) !! users
    requires var s := TermToCypher(tp.subj, c);
      EndBound(tp.subj, s, r, r1, users) && EndBound(tp.obj, TermToCypher(tp.obj, s.next), r1, r2, users)
    ensures var out := CompileTriple(tp, c);
      Grown(r2[out.parts[0].path.rel := RelVal(e)], r, out, TripleVars(tp), users)
  {
    var out := CompileTriple(tp, c);
    var s := TermToCypher(tp.subj, c);
    var o := TermToCypher(tp.obj, s.next);
    var r3 := r2[Fresh("r", o.next) := RelVal(e)];
    assert "r" in PREFIXES;
    FreshIsOld("r", o.next);
    assert Fresh("r", o.next) !in r2;
    assert Extends(r3, r2) && Below(r3, out.next, users);
    forall i | 0 <= i < |out.conds| ensures Settled(out.conds[i], r3) {
      if i < |Conds(s.cond)| {
        assert Settled(Conds(s.cond)[i], r1);
      } else {
        assert Settled(Conds(o.cond)[i - |Conds(s.cond)|], r2);
      }
    }
    forall v | v in users && v in r3 && v !in r ensures r3[v].NodeVal? {
      assert v != Fresh("r", o.next);
    }
  }

  /** Both ends of a triple pattern, before the relationship is named. */
  lemma EndsStep(tp: TriplePattern, c: nat, r: CRow, m: Row, t: Triple, users: set<string>, d: Listing)
    requires PlainPattern(tp) && TripleVars(tp) <= users && MadeByTriple(tp, c) !! users
    requires Stands(r, m, users) && Below(r, c, users) && NodesAt(r, TripleVars(tp))
    requires !t.obj.Lit? && PlainTriple(t)
    ensures var s := TermToCypher(tp.subj, c);
      var o := TermToCypher(tp.obj, s.next);
      var b1 := BindVar(Some(r), s.v, NodeVal(KeyOf(t.subj)));
      var b2 := BindVar(b1, o.v, NodeVal(KeyOf(t.obj)));
      var mo := Both(Both(Some(m), BindTerm(tp.subj, t.subj)), BindTerm(tp.obj, t.obj));
      && (b2.Some? && AllTrue(Conds(s.cond) + Conds(o.cond), b2.value, d) <==> mo.Some?)
      && (mo.Some? ==> Stands(b2.value, mo.value, users))
      && (b2.Some? ==> EndBound(tp.subj, s, r, b1.value, users) && EndBound(tp.obj, o, b1.value, b2.value, users))
  {
    var s := TermToCypher(tp.subj, c);
    var o := TermToCypher(tp.obj, s.next);
    TermStep(tp.subj, c, r, m, t.subj, users, d);
    EndBinds(tp.subj, c, r, KeyOf(t.subj), users);
    var b1, m1 := BindVar(Some(r), s.v, NodeVal(KeyOf(t.subj))), Both(Some(m), BindTerm(tp.subj, t.subj));
    if b1.Some? {
      EndBinds(tp.obj, s.next, b1.value, KeyOf(t.obj), users);
      if m1.Some? {
        TermStep(tp.obj, s.next, b1.value, m1.value, t.obj, users, d);
      }
      var b2 := BindVar(b1, o.v, NodeVal(KeyOf(t.obj)));
      if b2.Some? {
        AllTrueConcat(Conds(s.cond), Conds(o.cond), b2.value, d);
        SettledStable(Conds(s.cond), b1.value, b2.value, d);
      }
    }
  }

  lemma TripleStep(tp: TriplePattern, c: nat, r: CRow, m: Row, t: Triple, users: set<string>, d: Listing)
    requires PlainPattern(tp) && TripleVars(tp) <= users && MadeByTriple(tp, c) !! users
    requires Stands(r, m, users) && Below(r, c, users) && NodesAt(r, TripleVars(tp))
    requires IsEdgeTriple(t) && PlainTriple(t)
    ensures var out := CompileTriple(tp, c);
      var res, mo := MatchPath(out.parts[0].path, EdgeOf(t), r), Both(Some(m), BindTriple(tp, t));
      && (res.Some? && AllTrue(out.conds, res.value, d) <==> mo.Some?)
      && (mo.Some? ==> Stands(res.value, mo.value, users))
  {
    var out := CompileTriple(tp, c);
    var s := TermToCypher(tp.subj, c);
    var o := TermToCypher(tp.obj, s.next);
    var e, path := EdgeOf(t), out.parts[0].path;
    RelationNameIsNew(tp, c, r, users);
    MatchPathInOrder(path, e, r);
    BindTripleInOrder(m, tp, t);
    EscapeRoundTripExact(tp.pred.iri);
    EndsStep(tp, c, r, m, t, users, d);
    var b1 := BindVar(Some(r), s.v, NodeVal(e.source));
    var b2 := BindVar(b1, o.v, NodeVal(e.target));
    if b2.Some? {
      EndsSettled(tp, c, r, b1.value, b2.value, users);
      assert path.rel !in b2.value;
      var mo := Both(Both(Some(m), BindTerm(tp.subj, t.subj)), BindTerm(tp.obj, t.obj));
      RelationHarmless(out.conds, b2.value, mo, path.rel, RelVal(e), users, d);
    }
  }

  /** Naming the relationship changes neither the conditions nor what the row stands for. */
  lemma RelationHarmless(conds: seq<Cond>, r: CRow, mo: Option<Row>, rel: string, x: Val, users: set<string>, d: Listing)
    requires rel !in r && rel !in users && forall i :: 0 <= i < |conds| ==> Settled(conds[i], r)
    ensures AllTrue(conds, r[rel := x], d) <==> AllTrue(conds, r, d)
    ensures mo.Some? && Stands(r, mo.value, users) ==> Stands(r[rel := x], mo.value, users)
  {
    SettledStable(conds, r, r[rel := x], d);
    if mo.Some? && Stands(r, mo.value, users) { StandsBindOther(r, mo.value, users, rel, x); }
  }

  lemma EndsSettled(tp: TriplePattern, c: nat, r: CRow, r1: CRow, r2: CRow, users: set<string>)
    requires var s := TermToCypher(tp.subj, c);
      EndBound(tp.subj, s, r, r1, users) && EndBound(tp.obj, TermToCypher(tp.obj, s.next), r1, r2, users)
    ensures forall i :: 0 <= i < |CompileTriple(tp, c).conds| ==> Settled(CompileTriple(tp, c).conds[i], r2)
  {
    var s := TermToCypher(tp.subj, c);
    var o := TermToCypher(tp.obj, s.next);
    var conds := CompileTriple(tp, c).conds;
    forall i | 0 <= i < |conds| ensures Settled(conds[i], r2) {
      if i < |Conds(s.cond)| {
        assert Settled(Conds(s.cond)[i], r1);
      } else {
        assert Settled(Conds(o.cond)[i - |Conds(s.cond)|], r2);
      }
    }
  }

  lemma RelationNameIsNew(tp: TriplePattern, c: nat, r: CRow, users: set<string>)
    requires PlainPattern(tp) && TripleVars(tp) <= users && MadeByTriple(tp, c) !! users && Below(r, c, users)
    ensures var path := CompileTriple(tp, c).parts[0].path;
      path.rel !in r && path.rel !in users && path.rel != path.source && path.rel != path.target
  {
    var s := TermToCypher(tp.subj, c);
    var o := TermToCypher(tp.obj, s.next);
    assert "r" in PREFIXES && "n" in PREFIXES;
    if !tp.subj.Var? && Fresh("r", o.next) == s.v { FreshInjective("r", o.next, "n", c); }
    if !tp.obj.Var? && Fresh("r", o.next) == o.v { FreshInjective("r", o.next, "n", s.next); }
  }

  // ----- one triple pattern against all edges

  lemma OneResult(conds: seq<Cond>, res: Option<CRow>, mo: Option<Row>, users: set<string>, d: Listing)
    requires res.Some? && AllTrue(conds, res.value, d) <==> mo.Some?
    requires mo.Some? ==> Stands(res.value, mo.value, users)
    ensures ReturnAll(Where(conds, ToSeq(res), d), users) == EncodeAll(Singleton(mo))
  {
    if res.Some? {
      assert ToSeq(res)[1..] == [];
    }
    if mo.Some? {
      assert Where(conds, ToSeq(res), d) == [res.value];
      assert [res.value][1..] == [] && [mo.value][1..] == [];
    }
  }

  lemma JoinRowOne(m: Row, b: Option<Row>)
    ensures JoinRow(m, Singleton(b)) == Singleton(Both(Some(m), b))
  {
    if b.Some? { assert [b.value][1..] == []; }
  }

  lemma {:induction false} TripleCorrect(tp: TriplePattern, c: nat, r: CRow, m: Row, edges: seq<Edge>,
                                         data: seq<Triple>, users: set<string>, d: Listing)
    requires PlainPattern(tp) && TripleVars(tp) <= users && MadeByTriple(tp, c) !! users
    requires Stands(r, m, users) && Below(r, c, users) && NodesAt(r, TripleVars(tp))
    requires Aligned(edges, data)
    ensures var out := CompileTriple(tp, c);
      ReturnAll(Where(out.conds, MatchPart(out.parts[0], r, edges), d), users)
      == EncodeAll(JoinRow(m, EvalTriple(tp, data)))
  {
    if edges != [] {
      var out := CompileTriple(tp, c);
      var res, b := MatchPath(out.parts[0].path, edges[0], r), BindTriple(tp, data[0]);
      TripleStep(tp, c, r, m, data[0], users, d);
      OneResult(out.conds, res, Both(Some(m), b), users, d);
      JoinRowOne(m, b);
      TripleCorrect(tp, c, r, m, edges[1..], data[1..], users, d);
      var rest, sols := MatchPart(out.parts[0], r, edges[1..]), EvalTriple(tp, data[1..]);
      WhereConcat(out.conds, ToSeq(res), rest, d);
      ReturnAllConcat(Where(out.conds, ToSeq(res), d), Where(out.conds, rest, d), users);
      JoinRowConcat(m, Singleton(b), sols);
      EncodeAllConcat(JoinRow(m, Singleton(b)), JoinRow(m, sols));
    }
  }

  // ----- what matching does to a row, whether or not its conditions hold

  lemma {:induction false} TripleRowsGrown(tp: TriplePattern, c: nat, r: CRow, edges: seq<Edge>, users: set<string>)
    requires PlainPattern(tp) && TripleVars(tp) <= users && MadeByTriple(tp, c) !! users && Below(r, c, users)
    ensures var out := CompileTriple(tp, c);
      forall r' :: r' in MatchPart(out.parts[0], r, edges) ==> Grown(r', r, out, TripleVars(tp), users)
  {
    if edges != [] {
      TripleRowsGrown(tp, c, r, edges[1..], users);
      var s := TermToCypher(tp.subj, c);
      var o := TermToCypher(tp.obj, s.next);
      var e, path := edges[0], CompileTriple(tp, c).parts[0].path;
      RelationNameIsNew(tp, c, r, users);
      MatchPathInOrder(path, e, r);
      EndBinds(tp.subj, c, r, e.source, users);
      var b1 := BindVar(Some(r), s.v, NodeVal(e.source));
      if b1.Some? {
        EndBinds(tp.obj, s.next, b1.value, e.target, users);
        var b2 := BindVar(b1, o.v, NodeVal(e.target));
        if b2.Some? { TripleGrown(tp, c, r, b1.value, b2.value, e, users); }
      }
    }
  }

  lemma {:induction false} MatchEachMember(parts: seq<Part>, rows: seq<CRow>, edges: seq<Edge>, r': CRow)
    requires r' in MatchEach(parts, rows, edges)
    ensures exists r :: r in rows && r' in MatchAll(parts, r, edges)
    decreases |rows|
  {
    if r' !in MatchAll(parts, rows[0], edges) {
      MatchEachMember(parts, rows[1..], edges, r');
    }
  }

  lemma GrownThen(r: CRow, r1: CRow, r2: CRow, a: Compiled, b: Compiled, va: set<string>, vb: set<string>, users: set<string>)
    requires Grown(r1, r, a, va, users) && Grown(r2, r1, b, vb, users)
    ensures Grown(r2, r, Then(a, b), va + vb, users)
  {
    var conds := Then(a, b).conds;
    forall i | 0 <= i < |conds| ensures Settled(conds[i], r2) {
      if i < |a.conds| {
        assert Settled(a.conds[i], r1);
      } else {
        assert Settled(b.conds[i - |a.conds|], r2);
      }
    }
  }

  lemma {:induction false} BgpRowsGrown(tps: seq<TriplePattern>, c: nat, r: CRow, edges: seq<Edge>, users: set<string>)
    requires forall i :: 0 <= i < |tps| ==> PlainPattern(tps[i])
    requires BgpVars(tps) <= users && MadeByBgp(tps, c) !! users && Below(r, c, users)
    ensures forall r' :: r' in MatchAll(CompileBgp(tps, c).parts, r, edges) ==>
      Grown(r', r, CompileBgp(tps, c), BgpVars(tps), users)
  {
    if tps != [] {
      var a := CompileTriple(tps[0], c);
      var b := CompileBgp(tps[1..], a.next);
      TripleRowsGrown(tps[0], c, r, edges, users);
      assert (a.parts + b.parts)[1..] == b.parts;
      forall r' | r' in MatchAll(a.parts + b.parts, r, edges) ensures Grown(r', r, Then(a, b), BgpVars(tps), users) {
        var rows := MatchPart(a.parts[0], r, edges);
        MatchEachMember(b.parts, rows, edges, r');
        var r1 :| r1 in rows && r' in MatchAll(b.parts, r1, edges);
        BgpRowsGrown(tps[1..], a.next, r1, edges, users);
        GrownThen(r, r1, r', a, b, TripleVars(tps[0]), BgpVars(tps[1..]), users);
      }
    }
  }

  lemma {:induction false} RowsGrown(p: Pattern, c: nat, r: CRow, edges: seq<Edge>, users: set<string>)
    requires JoinTree(p) && Vars(p) <= users && Made(p, c) !! users && Below(r, c, users)
    ensures forall r' :: r' in MatchAll(Compile(p, c).parts, r, edges) ==> Grown(r', r, Compile(p, c), Vars(p), users)
  {
    match p
    case Bgp(tps) => BgpRowsGrown(tps, c, r, edges, users);
    case Join(left, right) =>
      var a := Compile(left, c);
      var b := Compile(right, a.next);
      RowsGrown(left, c, r, edges, users);
      MatchAllParts(a.parts, b.parts, r, edges);
      forall r' | r' in MatchAll(a.parts + b.parts, r, edges) ensures Grown(r', r, Then(a, b), Vars(p), users) {
        var rows := MatchAll(a.parts, r, edges);
        MatchEachMember(b.parts, rows, edges, r');
        var r1 :| r1 in rows && r' in MatchAll(b.parts, r1, edges);
        RowsGrown(right, a.next, r1, edges, users);
        GrownThen(r, r1, r', a, b, Vars(left), Vars(right), users);
      }
    case Filter(q, e) =>
      var inner := Compile(q, c);
      RowsGrown(q, c, r, edges, users);
      FilterCondsOf(e);
      forall r' | r' in MatchAll(inner.parts, r, edges) ensures Grown(r', r, Compile(p, c), Vars(p), users) {
        assert Grown(r', r, inner, Vars(q), users);
        var conds := inner.conds + FilterConds(e);
        forall i | 0 <= i < |conds| ensures Settled(conds[i], r') {
          if i < |inner.conds| { assert Settled(inner.conds[i], r'); }
        }
      }
  }

  lemma FilterCondsOf(e: Expr)
    requires Supported(e)
    ensures TranslateExpr(e).Some? && FilterConds(e) == [Holds(TranslateExpr(e).value)]
    ensures ExprVarsC(TranslateExpr(e).value) == ExprVars(e)
  {
    match e
    case And(e1, e2) => FilterCondsOf(e1); FilterCondsOf(e2);
    case Or(e1, e2) => FilterCondsOf(e1); FilterCondsOf(e2);
    case Not(e1) => FilterCondsOf(e1);
    case _ =>
  }

  // ----- composition

  ghost predicate AllStand(rs: seq<CRow>, ms: seq<Row>, users: set<string>) {
    && |rs| == |ms| && forall i :: 0 <= i < |rs| ==> Stands(rs[i], ms[i], users)
  }

  lemma {:induction false} AllStandFromReturn(rs: seq<CRow>, ms: seq<Row>, users: set<string>)
    requires ReturnAll(rs, users) == EncodeAll(ms) && forall m :: m in ms ==> PlainRow(m)
    ensures AllStand(rs, ms, users)
  {
    if rs == [] {
      assert ms == [];
    } else {
      assert ms != [] && ms[0] in ms;
      assert ReturnAll(rs, users)[0] == EncodeAll(ms)[0];
      assert ReturnAll(rs, users)[1..] == EncodeAll(ms)[1..];
      AllStandFromReturn(rs[1..], ms[1..], users);
    }
  }

  /** One filtered match after another is one match filtered at the end. */
  lemma HoistWhere(a: Compiled, b: Compiled, r: CRow, d: Listing)
    requires forall r' :: r' in MatchAll(a.parts, r, d.edges) ==>
      forall i :: 0 <= i < |a.conds| ==> Settled(a.conds[i], r')
    ensures Where(a.conds + b.conds, MatchAll(a.parts + b.parts, r, d.edges), d)
      == Where(b.conds, MatchEach(b.parts, Where(a.conds, MatchAll(a.parts, r, d.edges), d), d.edges), d)
  {
    var rows := MatchAll(a.parts, r, d.edges);
    MatchAllParts(a.parts, b.parts, r, d.edges);
    WhereBeforeMatch(a.conds, b.parts, rows, d);
    WhereWhere(a.conds, b.conds, MatchEach(b.parts, rows, d.edges), d);
  }

  lemma GrownRowsAreReady(rows: seq<CRow>, r: CRow, out: Compiled, bound: set<string>, vars: set<string>, users: set<string>)
    requires forall r' :: r' in rows ==> Grown(r', r, out, bound, users)
    requires vars <= users && NodesAt(r, vars)
    ensures forall r' :: r' in rows ==> Below(r', out.next, users) && NodesAt(r', vars)
  {
    forall r' | r' in rows ensures Below(r', out.next, users) && NodesAt(r', vars) {
      assert Grown(r', r, out, bound, users);
    }
  }

  // ----- the theorem on rows

  /** Data and listing the translation is run on, and no made-up name among the variables. */
  ghost predicate Ready(d: Listing, data: seq<Triple>, vars: set<string>, made: set<string>, users: set<string>) {
    Aligned(d.edges, data) && vars <= users && made !! users
  }

  lemma {:induction false} BgpCorrect(tps: seq<TriplePattern>, c: nat, r: CRow, m: Row, d: Listing,
                                      data: seq<Triple>, users: set<string>)
    requires forall i :: 0 <= i < |tps| ==> PlainPattern(tps[i])
    requires Ready(d, data, BgpVars(tps), MadeByBgp(tps, c), users)
    requires Stands(r, m, users) && Below(r, c, users) && NodesAt(r, BgpVars(tps))
    ensures var out := CompileBgp(tps, c);
      ReturnAll(Where(out.conds, MatchAll(out.parts, r, d.edges), d), users) == EncodeAll(JoinRow(m, EvalBgp(tps, data)))
    decreases |tps|, 0
  {
    if tps == [] {
      WhereNone([r], d);
      assert [r][1..] == [];
      BothWithEmpty(Some(m));
      var sols: seq<Row> := [map[]];
      assert JoinRow(m, sols) == [m] + JoinRow(m, sols[1..]);
      assert [m][1..] == [];
    } else {
      var a := CompileTriple(tps[0], c);
      var b := CompileBgp(tps[1..], a.next);
      TripleRowsGrown(tps[0], c, r, d.edges, users);
      TripleCorrect(tps[0], c, r, m, d.edges, data, users, d);
      var rows := MatchPart(a.parts[0], r, d.edges);
      MatchEachEmpty(rows, d.edges);
      assert a.parts[1..] == [];
      assert MatchAll(a.parts, r, d.edges) == rows;
      HoistWhere(a, b, r, d);
      var first := EvalTriple(tps[0], data);
      EvalTripleShape(tps[0], d.edges, data);
      JoinRowShape(m, first, TripleVars(tps[0]));
      WhereSubset(a.conds, rows, d);
      GrownRowsAreReady(rows, r, a, TripleVars(tps[0]), BgpVars(tps[1..]), users);
      AllStandFromReturn(Where(a.conds, rows, d), JoinRow(m, first), users);
      BgpCorrectEach(tps[1..], a.next, Where(a.conds, rows, d), JoinRow(m, first), d, data, users);
      JoinRowOfJoinRows(m, first, EvalBgp(tps[1..], data));
    }
  }

  lemma {:induction false} BgpCorrectEach(tps: seq<TriplePattern>, c: nat, rs: seq<CRow>, ms: seq<Row>, d: Listing,
                                          data: seq<Triple>, users: set<string>)
    requires forall i :: 0 <= i < |tps| ==> PlainPattern(tps[i])
    requires Ready(d, data, BgpVars(tps), MadeByBgp(tps, c), users)
    requires AllStand(rs, ms, users)
    requires forall r :: r in rs ==> Below(r, c, users) && NodesAt(r, BgpVars(tps))
    ensures var out := CompileBgp(tps, c);
      ReturnAll(Where(out.conds, MatchEach(out.parts, rs, d.edges), d), users) == EncodeAll(JoinRows(ms, EvalBgp(tps, data)))
    decreases |tps|, 1 + |rs|
  {
    if rs != [] {
      var out := CompileBgp(tps, c);
      assert rs[0] in rs;
      BgpCorrect(tps, c, rs[0], ms[0], d, data, users);
      BgpCorrectEach(tps, c, rs[1..], ms[1..], d, data, users);
      ConcatResults(out, rs, ms, EvalBgp(tps, data), d, users);
    }
  }

  lemma ConcatResults(out: Compiled, rs: seq<CRow>, ms: seq<Row>, sols: seq<Row>, d: Listing, users: set<string>)
    requires rs != [] && ms != []
    requires ReturnAll(Where(out.conds, MatchAll(out.parts, rs[0], d.edges), d), users) == EncodeAll(JoinRow(ms[0], sols))
    requires ReturnAll(Where(out.conds, MatchEach(out.parts, rs[1..], d.edges), d), users) == EncodeAll(JoinRows(ms[1..], sols))
    ensures ReturnAll(Where(out.conds, MatchEach(out.parts, rs, d.edges), d), users) == EncodeAll(JoinRows(ms, sols))
  {
    var head, tail := MatchAll(out.parts, rs[0], d.edges), MatchEach(out.parts, rs[1..], d.edges);
    WhereConcat(out.conds, head, tail, d);
    ReturnAllConcat(Where(out.conds, head, d), Where(out.conds, tail, d), users);
    EncodeAllConcat(JoinRow(ms[0], sols), JoinRows(ms[1..], sols));
  }

  lemma {:induction false} WhereHolds(e: Expr, rs: seq<CRow>, ms: seq<Row>, users: set<string>, d: Listing)
    requires Supported(e) && ExprVars(e) <= users && AllStand(rs, ms, users)
    ensures ReturnAll(Where(FilterConds(e), rs, d), users) == EncodeAll(FilterRows(Some(e), ms))
  {
    FilterCondsOf(e);
    if rs != [] {
      WhereHolds(e, rs[1..], ms[1..], users, d);
      ExprAgrees(e, ms[0], rs[0], users);
      var cs := FilterConds(e);
      assert AllTrue(cs, rs[0], d) <==> CondTrue(cs[0], rs[0], d);
      var keptR := if AllTrue(cs, rs[0], d) then [rs[0]] else [];
      var keptM := if Accepts(Some(e), ms[0]) then [ms[0]] else [];
      ReturnAllConcat(keptR, Where(cs, rs[1..], d), users);
      EncodeAllConcat(keptM, FilterRows(Some(e), ms[1..]));
      assert [rs[0]][1..] == [] && [ms[0]][1..] == [];
    }
  }

  lemma {:induction false} CompileCorrect(p: Pattern, c: nat, r: CRow, m: Row, d: Listing, data: seq<Triple>, users: set<string>)
    requires JoinTree(p) && Ready(d, data, Vars(p), Made(p, c), users)
    requires Stands(r, m, users) && Below(r, c, users) && NodesAt(r, Vars(p))
    ensures var out := Compile(p, c);
      ReturnAll(Where(out.conds, MatchAll(out.parts, r, d.edges), d), users) == EncodeAll(JoinRow(m, Eval(p, data)))
    decreases p, 0
  {
    EvalShape(p, d.edges, data);
    match p
    case Bgp(tps) => BgpCorrect(tps, c, r, m, d, data, users);
    case Join(left, right) =>
      var a := Compile(left, c);
      var b := Compile(right, a.next);
      RowsGrown(left, c, r, d.edges, users);
      CompileCorrect(left, c, r, m, d, data, users);
      var rows := MatchAll(a.parts, r, d.edges);
      forall r' | r' in rows ensures forall i :: 0 <= i < |a.conds| ==> Settled(a.conds[i], r') {
        assert Grown(r', r, a, Vars(left), users);
      }
      HoistWhere(a, b, r, d);
      var first := Eval(left, data);
      EvalShape(left, d.edges, data);
      JoinRowShape(m, first, Vars(left));
      WhereSubset(a.conds, rows, d);
      GrownRowsAreReady(rows, r, a, Vars(left), Vars(right), users);
      AllStandFromReturn(Where(a.conds, rows, d), JoinRow(m, first), users);
      CompileCorrectEach(right, a.next, Where(a.conds, rows, d), JoinRow(m, first), d, data, users);
      JoinRowOfJoinRows(m, first, Eval(right, data));
    case Filter(q, e) =>
      var a := Compile(q, c);
      CompileCorrect(q, c, r, m, d, data, users);
      var rows := MatchAll(a.parts, r, d.edges);
      WhereWhere(a.conds, FilterConds(e), rows, d);
      EvalShape(q, d.edges, data);
      JoinRowShape(m, Eval(q, data), Vars(q));
      AllStandFromReturn(Where(a.conds, rows, d), JoinRow(m, Eval(q, data)), users);
      WhereHolds(e, Where(a.conds, rows, d), JoinRow(m, Eval(q, data)), users, d);
      JoinRowOfFilter(m, e, Eval(q, data));
  }

  lemma {:induction false} CompileCorrectEach(p: Pattern, c: nat, rs: seq<CRow>, ms: seq<Row>, d: Listing,
                                              data: seq<Triple>, users: set<string>)
    requires JoinTree(p) && Ready(d, data, Vars(p), Made(p, c), users)
    requires AllStand(rs, ms, users)
    requires forall r :: r in rs ==> Below(r, c, users) && NodesAt(r, Vars(p))
    ensures var out := Compile(p, c);
      ReturnAll(Where(out.conds, MatchEach(out.parts, rs, d.edges), d), users) == EncodeAll(JoinRows(ms, Eval(p, data)))
    decreases p, 1 + |rs|
  {
    if rs != [] {
      var out := Compile(p, c);
      assert rs[0] in rs;
      CompileCorrect(p, c, rs[0], ms[0], d, data, users);
      CompileCorrectEach(p, c, rs[1..], ms[1..], d, data, users);
      ConcatResults(out, rs, ms, Eval(p, data), d, users);
    }
  }
}
