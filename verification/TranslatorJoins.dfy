/** Basic graph patterns, joins and filters: one MATCH with every condition hoisted to the end
    returns the same rows as the algebra, in the same order when data and edges are listed alike. */
module TranslatorJoins {
  import opened Common
  import opened Rdf
  import opened Schema
  import opened PropertyGraph
  import opened CypherGenerator
  import opened CypherQuery
  import opened S = Sparql
  import opened Translator
  import opened BgpSolutions

  // ----- relating rows

  function EncodeTerm(t: Term): Val {
    if t.Lit? then Null else NodeVal(KeyOf(t))
  }

  /** A solution as the query returns it: nodes for terms. */
  function Encode(m: Row): CRow {
    map v | v in m :: EncodeTerm(m[v])
  }

  function EncodeAll(ms: seq<Row>): seq<CRow> {
    if ms == [] then [] else [Encode(ms[0])] + EncodeAll(ms[1..])
  }

  lemma {:induction false} EncodeAllConcat(a: seq<Row>, b: seq<Row>)
    ensures EncodeAll(a + b) == EncodeAll(a) + EncodeAll(b)
  {
    if a == [] {
      assert a + b == b;
    } else {
      assert (a + b)[1..] == a[1..] + b;
      EncodeAllConcat(a[1..], b);
    }
  }

  /** Data whose triples all become edges, listed in the order of the edges. */
  ghost predicate Aligned(edges: seq<Edge>, data: seq<Triple>) {
    && |edges| == |data|
    && forall i :: 0 <= i < |data| ==> IsEdgeTriple(data[i]) && PlainTriple(data[i]) && edges[i] == EdgeOf(data[i])
  }

  ghost predicate PlainRow(m: Row) {
    forall v :: v in m ==> !m[v].Lit? && PlainTerm(m[v])
  }

  const PREFIXES := {"n", "b", "l", "r"}

  // ----- the names a translation makes up

  function MadeByTerm(t: TermPattern, c: nat): set<string> {
    if t.Var? then {} else {TermToCypher(t, c).v}
  }

  function MadeByTriple(tp: TriplePattern, c: nat): set<string> {
    var s := TermToCypher(tp.subj, c);
    var o := TermToCypher(tp.obj, s.next);
    MadeByTerm(tp.subj, c) + MadeByTerm(tp.obj, s.next) + {Fresh("r", o.next)}
  }

  function MadeByBgp(tps: seq<TriplePattern>, c: nat): set<string> {
    if tps == [] then {} else MadeByTriple(tps[0], c) + MadeByBgp(tps[1..], CompileTriple(tps[0], c).next)
  }

  /** The names that Compile(p, c) takes from the counter: those of its constants and relationships. */
  function Made(p: Pattern, c: nat): set<string> {
    match p
    case Bgp(tps) => MadeByBgp(tps, c)
    case Join(l, r) => Made(l, c) + Made(r, Compile(l, c).next)
    case LeftJoin(l, r, _) => Made(l, c) + Made(r, Compile(l, c).next)
    case Filter(q, _) => Made(q, c)
    case Union(_, _) => {}
    case Minus(l, r) => Made(l, c) + Made(r, Compile(l, c).next)
  }

  lemma FreshInjective(p: string, n: nat, p': string, n': nat)
    requires p in PREFIXES && p' in PREFIXES
    requires Fresh(p, n) == Fresh(p', n')
    ensures p == p' && n == n'
  {
    assert Fresh(p, n)[0] == p[0] && Fresh(p', n')[0] == p'[0];
    assert Fresh(p, n)[2..] == Decimal(n) && Fresh(p', n')[2..] == Decimal(n');
    DecimalInjective(n, n');
  }

  /** Apart from variables of the query, the row binds no name the counter has not given out yet. */
  ghost predicate Below(r: CRow, c: nat, users: set<string>) {
    forall prefix, n :: prefix in PREFIXES && n >= c && Fresh(prefix, n) !in users ==> Fresh(prefix, n) !in r
  }

  ghost predicate NodesAt(r: CRow, vars: set<string>) {
    forall v :: v in vars && v in r ==> r[v].NodeVal?
  }

  predicate Extends(r': CRow, r: CRow) {
    r.Keys <= r'.Keys && forall v :: v in r ==> r'[v] == r[v]
  }

  function ExprVarsC(e: CExpr): set<string> {
    match e
    case IsNotNull(v) => {v}
    case Equals(a, b) => {a, b}
    case EqualsText(v, _) => {v}
    case AndC(e1, e2) => ExprVarsC(e1) + ExprVarsC(e2)
    case OrC(e1, e2) => ExprVarsC(e1) + ExprVarsC(e2)
    case NotC(e1) => ExprVarsC(e1)
  }

  /** The condition looks at nothing but variables the row binds. */
  predicate Settled(c: Cond, r: CRow) {
    match c
    case UriIs(v, _) => v in r
    case ValueIs(v, _) => v in r
    case Holds(e) => ExprVarsC(e) <= r.Keys
    case NotExists(_) => false
  }

  /** What matching a compiled pattern does to a row r. */
  ghost predicate Grown(r': CRow, r: CRow, out: Compiled, bound: set<string>, users: set<string>) {
    && Extends(r', r)
    && Below(r', out.next, users)
    && bound <= r'.Keys && NodesAt(r', bound)
    && (forall v :: v in users && v in r' && v !in r ==> r'[v].NodeVal?)
    && forall i :: 0 <= i < |out.conds| ==> Settled(out.conds[i], r')
  }

  // ----- the fragment

  predicate PlainPatternTerm(t: TermPattern) {
    t.Var? || (t.term.Iri? && PlainTerm(t.term))
  }

  predicate PlainPattern(tp: TriplePattern) {
    PlainPatternTerm(tp.subj) && tp.pred.PredIri? && Clean(tp.pred.iri) && PlainPatternTerm(tp.obj)
  }

  predicate Supported(e: Expr) {
    match e
    case And(e1, e2) => Supported(e1) && Supported(e2)
    case Or(e1, e2) => Supported(e1) && Supported(e2)
    case Not(e1) => Supported(e1)
    case EqualIri(_, _) => false
    case Unsupported(_, _) => false
    case _ => true
  }

  /** Trees of basic graph patterns, joins and filters; constant predicates, ends that are
      variables or IRIs, and filters over variables of the pattern they filter. */
  predicate JoinTree(p: Pattern) {
    match p
    case Bgp(tps) => forall i :: 0 <= i < |tps| ==> PlainPattern(tps[i])
    case Join(l, r) => JoinTree(l) && JoinTree(r)
    case Filter(q, e) => JoinTree(q) && Supported(e) && ExprVars(e) <= Vars(q)
    case _ => false
  }

  // ----- algebra of rows

  lemma BothAssociates(a: Option<Row>, b: Option<Row>, c: Option<Row>)
    ensures Both(Both(a, b), c) == Both(a, Both(b, c))
  {
    if a.Some? && b.Some? && c.Some? {
      var x, y, z := a.value, b.value, c.value;
      if Compatible(x, y) && Compatible(x + y, z) {
        assert forall v :: v in y ==> (x + y)[v] == y[v];
        assert forall v :: v in x ==> (x + y)[v] == x[v];
        assert Compatible(y, z) && Compatible(x, y + z);
        assert (x + y) + z == x + (y + z);
      }
      if Compatible(y, z) && Compatible(x, y + z) {
        assert forall v :: v in y ==> (y + z)[v] == y[v];
        assert Compatible(x, y) && Compatible(x + y, z);
      }
    }
  }

  lemma {:induction false} JoinRowConcat(m: Row, a: seq<Row>, b: seq<Row>)
    ensures JoinRow(m, a + b) == JoinRow(m, a) + JoinRow(m, b)
  {
    if a == [] {
      assert a + b == b;
    } else {
      assert (a + b)[1..] == a[1..] + b;
      JoinRowConcat(m, a[1..], b);
    }
  }

  lemma {:induction false} JoinRowsConcat(a: seq<Row>, a': seq<Row>, b: seq<Row>)
    ensures JoinRows(a + a', b) == JoinRows(a, b) + JoinRows(a', b)
  {
    if a == [] {
      assert a + a' == a';
    } else {
      assert (a + a')[1..] == a[1..] + a';
      JoinRowsConcat(a[1..], a', b);
    }
  }

  function JoinOption(m: Option<Row>, b: seq<Row>): seq<Row> {
    if m.Some? then JoinRow(m.value, b) else []
  }

  lemma {:induction false} JoinRowOfJoinRow(m: Row, a: Row, b: seq<Row>)
    ensures JoinRow(m, JoinRow(a, b)) == JoinOption(Both(Some(m), Some(a)), b)
  {
    if b != [] {
      JoinRowOfJoinRow(m, a, b[1..]);
      BothAssociates(Some(m), Some(a), Some(b[0]));
      var ab := Both(Some(a), Some(b[0]));
      JoinRowConcat(m, Singleton(ab), JoinRow(a, b[1..]));
      if ab.Some? {
        assert Singleton(ab)[1..] == [];
      }
    }
  }

  lemma {:induction false} JoinRowOfJoinRows(m: Row, a: seq<Row>, b: seq<Row>)
    ensures JoinRows(JoinRow(m, a), b) == JoinRow(m, JoinRows(a, b))
  {
    if a != [] {
      JoinRowOfJoinRows(m, a[1..], b);
      JoinRowOfJoinRow(m, a[0], b);
      JoinRowConcat(m, JoinRow(a[0], b), JoinRows(a[1..], b));
      var first := Both(Some(m), Some(a[0]));
      JoinRowsConcat(Singleton(first), JoinRow(m, a[1..]), b);
      if first.Some? {
        assert Singleton(first)[1..] == [];
      }
    }
  }

  lemma EvalExprLocal(e: Expr, m: Row, m': Row)
    requires Supported(e) && ExprVars(e) <= m.Keys && m.Keys <= m'.Keys
    requires forall v :: v in m ==> m'[v] == m[v]
    ensures EvalExpr(e, m') == EvalExpr(e, m)
  {
  }

  lemma {:induction false} JoinRowOfFilter(m: Row, e: Expr, a: seq<Row>)
    requires Supported(e) && forall x :: x in a ==> ExprVars(e) <= x.Keys
    ensures JoinRow(m, FilterRows(Some(e), a)) == FilterRows(Some(e), JoinRow(m, a))
  {
    if a != [] {
      JoinRowOfFilter(m, e, a[1..]);
      var first := Both(Some(m), Some(a[0]));
      assert a[0] in a;
      FilterRowsConcat(Some(e), Singleton(first), JoinRow(m, a[1..]));
      var kept := if Accepts(Some(e), a[0]) then [a[0]] else [];
      JoinRowConcat(m, kept, FilterRows(Some(e), a[1..]));
      assert kept != [] ==> kept[1..] == [];
      if first.Some? {
        assert forall v :: v in a[0] ==> first.value[v] == a[0][v];
        EvalExprLocal(e, a[0], first.value);
        assert Singleton(first)[1..] == [];
      }
    }
  }

  lemma {:induction false} JoinRowOfEmptyRow(a: seq<Row>)
    ensures JoinRow(map[], a) == a
  {
    if a != [] {
      JoinRowOfEmptyRow(a[1..]);
      assert map[] + a[0] == a[0];
    }
  }

  // ----- every row of a join tree binds exactly its variables, to plain nodes

  lemma JoinRowShape(m: Row, rows: seq<Row>, vars: set<string>)
    requires PlainRow(m) && forall x :: x in rows ==> PlainRow(x) && x.Keys == vars
    ensures forall x :: x in JoinRow(m, rows) ==> PlainRow(x) && x.Keys == m.Keys + vars
  {
  }

  lemma JoinRowsShape(a: seq<Row>, va: set<string>, b: seq<Row>, vb: set<string>)
    requires forall x :: x in a ==> PlainRow(x) && x.Keys == va
    requires forall x :: x in b ==> PlainRow(x) && x.Keys == vb
    ensures forall x :: x in JoinRows(a, b) ==> PlainRow(x) && x.Keys == va + vb
  {
    if a != [] {
      JoinRowShape(a[0], b, vb);
      JoinRowsShape(a[1..], va, b, vb);
    }
  }

  lemma BindTripleShape(tp: TriplePattern, t: Triple)
    requires PlainPattern(tp) && IsEdgeTriple(t) && PlainTriple(t)
    ensures var b := BindTriple(tp, t); b.Some? ==> PlainRow(b.value) && b.value.Keys == TripleVars(tp)
  {
    var b := BindTriple(tp, t);
    if b.Some? {
      BindTripleIff(tp, t, b.value);
    }
  }

  lemma {:induction false} EvalTripleShape(tp: TriplePattern, edges: seq<Edge>, data: seq<Triple>)
    requires Aligned(edges, data) && PlainPattern(tp)
    ensures forall x :: x in EvalTriple(tp, data) ==> PlainRow(x) && x.Keys == TripleVars(tp)
  {
    if data != [] {
      EvalTripleShape(tp, edges[1..], data[1..]);
      BindTripleShape(tp, data[0]);
    }
  }

  lemma {:induction false} EvalBgpShape(tps: seq<TriplePattern>, edges: seq<Edge>, data: seq<Triple>)
    requires Aligned(edges, data) && forall i :: 0 <= i < |tps| ==> PlainPattern(tps[i])
    ensures forall x :: x in EvalBgp(tps, data) ==> PlainRow(x) && x.Keys == BgpVars(tps)
  {
    if tps != [] {
      EvalTripleShape(tps[0], edges, data);
      EvalBgpShape(tps[1..], edges, data);
      JoinRowsShape(EvalTriple(tps[0], data), TripleVars(tps[0]), EvalBgp(tps[1..], data), BgpVars(tps[1..]));
    }
  }

  lemma FilterRowsSubset(e: Option<Expr>, a: seq<Row>)
    ensures forall x :: x in FilterRows(e, a) ==> x in a
  {
  }

  lemma {:induction false} EvalShape(p: Pattern, edges: seq<Edge>, data: seq<Triple>)
    requires Aligned(edges, data) && JoinTree(p)
    ensures forall x :: x in Eval(p, data) ==> PlainRow(x) && x.Keys == Vars(p)
  {
    match p
    case Bgp(tps) => EvalBgpShape(tps, edges, data);
    case Join(l, r) =>
      EvalShape(l, edges, data);
      EvalShape(r, edges, data);
      JoinRowsShape(Eval(l, data), Vars(l), Eval(r, data), Vars(r));
    case Filter(q, e) =>
      EvalShape(q, edges, data);
      FilterRowsSubset(Some(e), Eval(q, data));
  }

  // ----- expressions and conditions

  lemma VariablesAgree(a: string, b: string, m: Row, r: CRow, users: set<string>)
    requires {a, b} <= users && PlainRow(m) && ReturnRow(r, users) == Encode(m)
    ensures EvalC(IsNotNull(a), r) == EvalExpr(Bound(a), m)
    ensures EvalC(Equals(a, b), r) == EvalExpr(Equal(a, b), m) == EvalExpr(SameTerm(a, b), m)
  {
    forall v | v in {a, b}
      ensures v in m <==> v in r && r[v] != Null
      ensures v in m ==> r[v] == NodeVal(KeyOf(m[v]))
    {
      assert v in ReturnRow(r, users) <==> v in Encode(m);
      if v in m { assert ReturnRow(r, users)[v] == Encode(m)[v]; }
    }
    if a in m && b in m {
      assert KeyOf(m[a]) == KeyOf(m[b]) ==> m[a] == m[b] by {
        if KeyOf(m[a]) == KeyOf(m[b]) { KeyOfInjective(m[a], m[b]); }
      }
    }
  }

  lemma {:induction false} ExprAgrees(e: Expr, m: Row, r: CRow, users: set<string>)
    requires Supported(e) && ExprVars(e) <= users
    requires PlainRow(m) && ReturnRow(r, users) == Encode(m)
    ensures TranslateExpr(e).Some?
    ensures EvalC(TranslateExpr(e).value, r) == EvalExpr(e, m)
  {
    match e
    case Bound(v) => VariablesAgree(v, v, m, r, users);
    case Equal(a, b) => VariablesAgree(a, b, m, r, users);
    case SameTerm(a, b) => VariablesAgree(a, b, m, r, users);
    case And(e1, e2) =>
      ExprAgrees(e1, m, r, users);
      ExprAgrees(e2, m, r, users);
    case Or(e1, e2) =>
      ExprAgrees(e1, m, r, users);
      ExprAgrees(e2, m, r, users);
    case Not(e1) => ExprAgrees(e1, m, r, users);
  }

  lemma EvalCLocal(e: CExpr, r: CRow, r': CRow)
    requires ExprVarsC(e) <= r.Keys && Extends(r', r)
    ensures EvalC(e, r') == EvalC(e, r)
  {
  }

  lemma SettledStable(cs: seq<Cond>, r: CRow, r': CRow, d: Listing)
    requires Extends(r', r) && forall i :: 0 <= i < |cs| ==> Settled(cs[i], r)
    ensures AllTrue(cs, r', d) == AllTrue(cs, r, d)
  {
    forall i | 0 <= i < |cs| ensures CondTrue(cs[i], r', d) == CondTrue(cs[i], r, d) {
      if cs[i].Holds? { EvalCLocal(cs[i].e, r, r'); }
    }
  }

  // ----- matching only extends rows

  lemma MatchPathExtends(p: Path, e: Edge, r: CRow)
    ensures MatchPath(p, e, r).Some? ==> Extends(MatchPath(p, e, r).value, r)
  {
  }

  lemma {:induction false} MatchPartExtends(p: Part, r: CRow, edges: seq<Edge>)
    ensures forall r' :: r' in MatchPart(p, r, edges) ==> Extends(r', r)
  {
    if p.PathPart? && edges != [] {
      MatchPathExtends(p.path, edges[0], r);
      MatchPartExtends(p, r, edges[1..]);
    }
  }

  lemma {:induction false} MatchAllExtends(parts: seq<Part>, r: CRow, edges: seq<Edge>)
    ensures forall r' :: r' in MatchAll(parts, r, edges) ==> Extends(r', r)
    decreases |parts|, 0
  {
    if parts != [] {
      MatchPartExtends(parts[0], r, edges);
      MatchEachExtends(parts[1..], MatchPart(parts[0], r, edges), r, edges);
    }
  }

  lemma {:induction false} MatchEachExtends(parts: seq<Part>, rows: seq<CRow>, r: CRow, edges: seq<Edge>)
    requires forall x :: x in rows ==> Extends(x, r)
    ensures forall r' :: r' in MatchEach(parts, rows, edges) ==> Extends(r', r)
    decreases |parts|, |rows|
  {
    if rows != [] {
      assert rows[0] in rows && forall x :: x in rows[1..] ==> x in rows;
      MatchAllExtends(parts, rows[0], edges);
      MatchEachExtends(parts, rows[1..], r, edges);
    }
  }

  /** Conditions settled by the rows may be checked before or after the next match. */
  lemma {:induction false} WhereBeforeMatch(cs: seq<Cond>, parts: seq<Part>, rows: seq<CRow>, d: Listing)
    requires forall r, i :: r in rows && 0 <= i < |cs| ==> Settled(cs[i], r)
    ensures Where(cs, MatchEach(parts, rows, d.edges), d) == MatchEach(parts, Where(cs, rows, d), d.edges)
  {
    if rows != [] {
      var r := rows[0];
      assert r in rows && forall x :: x in rows[1..] ==> x in rows;
      WhereBeforeMatch(cs, parts, rows[1..], d);
      var found := MatchAll(parts, r, d.edges);
      WhereConcat(cs, found, MatchEach(parts, rows[1..], d.edges), d);
      MatchAllExtends(parts, r, d.edges);
      WhereUniform(cs, found, r, d);
      var kept := if AllTrue(cs, r, d) then [r] else [];
      MatchEachConcatRows(parts, kept, Where(cs, rows[1..], d), d.edges);
      MatchEachOne(parts, r, d.edges);
    }
  }

  lemma {:induction false} WhereUniform(cs: seq<Cond>, rows: seq<CRow>, r: CRow, d: Listing)
    requires forall x :: x in rows ==> Extends(x, r)
    requires forall i :: 0 <= i < |cs| ==> Settled(cs[i], r)
    ensures Where(cs, rows, d) == if AllTrue(cs, r, d) then rows else []
  {
    if rows != [] {
      assert rows[0] in rows;
      SettledStable(cs, r, rows[0], d);
      WhereUniform(cs, rows[1..], r, d);
    }
  }

  lemma WhereSubset(cs: seq<Cond>, rows: seq<CRow>, d: Listing)
    ensures forall r :: r in Where(cs, rows, d) ==> r in rows
  {
  }
}
