/** SPARQL algebra over a set of triples, after sections 18.3 and 18.5 of SPARQL 1.1.
    Bags of solutions are sequences of rows compared as multisets. */
module Sparql {
  import opened Common
  import opened Rdf

  datatype TermPattern = Var(name: string) | Fixed(term: Term)

  datatype PredicatePattern = PredVar(name: string) | PredIri(iri: string)

  datatype TriplePattern = TriplePattern(subj: TermPattern, pred: PredicatePattern, obj: TermPattern)

  type Row = map<string, Term>

  /** Filter expressions. Unsupported stands for any call the translator has no
      Cypher for; it carries the rows on which it is true and false. */
  datatype Expr =
    | Bound(name: string)
    | Equal(left: string, right: string)
    | EqualIri(name: string, iri: string)
    | SameTerm(left: string, right: string)
    | And(e1: Expr, e2: Expr)
    | Or(e1: Expr, e2: Expr)
    | Not(e: Expr)
    | Unsupported(holds: set<Row>, fails: set<Row>)

  datatype Pattern =
    | Bgp(triples: seq<TriplePattern>)
    | Join(left: Pattern, right: Pattern)
    | LeftJoin(left: Pattern, right: Pattern, expr: Option<Expr>)
    | Filter(inner: Pattern, cond: Expr)
    | Union(left: Pattern, right: Pattern)
    | Minus(left: Pattern, right: Pattern)

  // ----- three-valued logic (section 17.2); Unknown is an error in SPARQL and null in Cypher

  datatype Truth = Yes | No | Unknown

  function TruthOf(b: bool): Truth { if b then Yes else No }

  function AndT(a: Truth, b: Truth): Truth {
    if a == No || b == No then No else if a == Yes && b == Yes then Yes else Unknown
  }

  function OrT(a: Truth, b: Truth): Truth {
    if a == Yes || b == Yes then Yes else if a == No && b == No then No else Unknown
  }

  function NotT(a: Truth): Truth {
    match a case Yes => No case No => Yes case Unknown => Unknown
  }

  /** RDFterm-equal (section 17.4.1.7): two different literals are an error. */
  function TermEqual(a: Term, b: Term): Truth {
    if a == b then Yes else if a.Lit? && b.Lit? then Unknown else No
  }

  function EvalExpr(e: Expr, m: Row): Truth {
    match e
    case Bound(v) => TruthOf(v in m)
    case Equal(a, b) => if a in m && b in m then TermEqual(m[a], m[b]) else Unknown
    case EqualIri(v, iri) => if v in m then TermEqual(m[v], Iri(iri)) else Unknown
    case SameTerm(a, b) => if a in m && b in m then TruthOf(m[a] == m[b]) else Unknown
    case And(e1, e2) => AndT(EvalExpr(e1, m), EvalExpr(e2, m))
    case Or(e1, e2) => OrT(EvalExpr(e1, m), EvalExpr(e2, m))
    case Not(e1) => NotT(EvalExpr(e1, m))
    case Unsupported(holds, fails) => if m in holds then Yes else if m in fails then No else Unknown
  }

  function Accepts(e: Option<Expr>, m: Row): bool {
    e.None? || EvalExpr(e.value, m) == Yes
  }

  // ----- variables

  /** A blank node of a pattern acts as a variable whose name no query can spell. */
  function TermVars(p: TermPattern): set<string> {
    match p
    case Var(v) => {v}
    case Fixed(t) => if t.Blank? then {"_:" + t.id} else {}
  }

  function PredicateVars(p: PredicatePattern): set<string> {
    if p.PredVar? then {p.name} else {}
  }

  function TripleVars(tp: TriplePattern): set<string> {
    TermVars(tp.subj) + PredicateVars(tp.pred) + TermVars(tp.obj)
  }

  function BgpVars(tps: seq<TriplePattern>): set<string> {
    if tps == [] then {} else TripleVars(tps[0]) + BgpVars(tps[1..])
  }

  function ExprVars(e: Expr): set<string> {
    match e
    case Bound(v) => {v}
    case Equal(a, b) => {a, b}
    case EqualIri(v, _) => {v}
    case SameTerm(a, b) => {a, b}
    case And(e1, e2) => ExprVars(e1) + ExprVars(e2)
    case Or(e1, e2) => ExprVars(e1) + ExprVars(e2)
    case Not(e1) => ExprVars(e1)
    case Unsupported(_, _) => {}
  }

  /** Variables a solution of p can bind. */
  function Vars(p: Pattern): set<string> {
    match p
    case Bgp(tps) => BgpVars(tps)
    case Join(l, r) => Vars(l) + Vars(r)
    case LeftJoin(l, r, _) => Vars(l) + Vars(r)
    case Filter(q, _) => Vars(q)
    case Union(l, r) => Vars(l) + Vars(r)
    case Minus(l, _) => Vars(l)
  }

  // ----- evaluation

  predicate Compatible(a: Row, b: Row) {
    forall v | v in a && v in b :: a[v] == b[v]
  }

  function BindTerm(p: TermPattern, t: Term): Option<Row> {
    match p
    case Var(v) => Some(map[v := t])
    case Fixed(x) =>
      if x.Blank? then Some(map["_:" + x.id := t])
      else if x == t then Some(map[]) else None
  }

  function BindPredicate(p: PredicatePattern, iri: string): Option<Row> {
    match p
    case PredVar(v) => Some(map[v := Iri(iri)])
    case PredIri(x) => if x == iri then Some(map[]) else None
  }

  function Both(a: Option<Row>, b: Option<Row>): Option<Row> {
    if a.Some? && b.Some? && Compatible(a.value, b.value) then Some(a.value + b.value) else None
  }

  function BindTriple(tp: TriplePattern, t: Triple): Option<Row> {
    Both(Both(BindTerm(tp.subj, t.subj), BindPredicate(tp.pred, t.pred)), BindTerm(tp.obj, t.obj))
  }

  function Singleton(o: Option<Row>): seq<Row> {
    if o.Some? then [o.value] else []
  }

  function EvalTriple(tp: TriplePattern, data: seq<Triple>): seq<Row> {
    if data == [] then [] else Singleton(BindTriple(tp, data[0])) + EvalTriple(tp, data[1..])
  }

  function JoinRow(m: Row, rows: seq<Row>): seq<Row> {
    if rows == [] then [] else Singleton(Both(Some(m), Some(rows[0]))) + JoinRow(m, rows[1..])
  }

  function JoinRows(a: seq<Row>, b: seq<Row>): seq<Row> {
    if a == [] then [] else JoinRow(a[0], b) + JoinRows(a[1..], b)
  }

  function FilterRows(e: Option<Expr>, rows: seq<Row>): seq<Row> {
    if rows == [] then []
    else (if Accepts(e, rows[0]) then [rows[0]] else []) + FilterRows(e, rows[1..])
  }

  function LeftJoinRow(m: Row, rows: seq<Row>, e: Option<Expr>): seq<Row> {
    var extended := FilterRows(e, JoinRow(m, rows));
    if extended == [] then [m] else extended
  }

  function LeftJoinRows(a: seq<Row>, b: seq<Row>, e: Option<Expr>): seq<Row> {
    if a == [] then [] else LeftJoinRow(a[0], b, e) + LeftJoinRows(a[1..], b, e)
  }

  /** Minus removes a row that is compatible with, and shares a variable with, some row of b. */
  predicate Removed(m: Row, b: seq<Row>) {
    exists i | 0 <= i < |b| :: Compatible(m, b[i]) && m.Keys * b[i].Keys != {}
  }

  function MinusRows(a: seq<Row>, b: seq<Row>): seq<Row> {
    if a == [] then [] else (if Removed(a[0], b) then [] else [a[0]]) + MinusRows(a[1..], b)
  }

  function EvalBgp(tps: seq<TriplePattern>, data: seq<Triple>): seq<Row> {
    if tps == [] then [map[]] else JoinRows(EvalTriple(tps[0], data), EvalBgp(tps[1..], data))
  }

  function Eval(p: Pattern, data: seq<Triple>): seq<Row> {
    match p
    case Bgp(tps) => EvalBgp(tps, data)
    case Join(l, r) => JoinRows(Eval(l, data), Eval(r, data))
    case LeftJoin(l, r, e) => LeftJoinRows(Eval(l, data), Eval(r, data), e)
    case Filter(q, e) => FilterRows(Some(e), Eval(q, data))
    case Union(l, r) => Eval(l, data) + Eval(r, data)
    case Minus(l, r) => MinusRows(Eval(l, data), Eval(r, data))
  }

  // ----- the row-by-row LeftJoin is the LeftJoin of section 18.5

  /** Diff of section 18.5: the rows no accepted extension exists for. */
  function DiffRows(a: seq<Row>, b: seq<Row>, e: Option<Expr>): seq<Row> {
    if a == [] then []
    else (if FilterRows(e, JoinRow(a[0], b)) == [] then [a[0]] else []) + DiffRows(a[1..], b, e)
  }

  lemma {:induction false} FilterRowsConcat(e: Option<Expr>, a: seq<Row>, b: seq<Row>)
    ensures FilterRows(e, a + b) == FilterRows(e, a) + FilterRows(e, b)
  {
    if a == [] {
      assert a + b == b;
    } else {
      assert (a + b)[1..] == a[1..] + b;
      FilterRowsConcat(e, a[1..], b);
    }
  }

  lemma {:induction false} LeftJoinIsFilteredJoinAndDiff(a: seq<Row>, b: seq<Row>, e: Option<Expr>)
    ensures multiset(LeftJoinRows(a, b, e))
         == multiset(FilterRows(e, JoinRows(a, b))) + multiset(DiffRows(a, b, e))
  {
    if a != [] {
      LeftJoinIsFilteredJoinAndDiff(a[1..], b, e);
      FilterRowsConcat(e, JoinRow(a[0], b), JoinRows(a[1..], b));
    }
  }

  // ----- evaluation does not depend on the order in which the data is listed

  lemma {:induction false} EvalTripleIsFlatMap(tp: TriplePattern, data: seq<Triple>)
    ensures EvalTriple(tp, data) == FlatMap((t: Triple) => Singleton(BindTriple(tp, t)), data)
  {
    if data != [] { EvalTripleIsFlatMap(tp, data[1..]); }
  }

  lemma {:induction false} JoinRowIsFlatMap(m: Row, rows: seq<Row>)
    ensures JoinRow(m, rows) == FlatMap((b: Row) => Singleton(Both(Some(m), Some(b))), rows)
  {
    if rows != [] { JoinRowIsFlatMap(m, rows[1..]); }
  }

  lemma {:induction false} JoinRowsIsFlatMap(a: seq<Row>, b: seq<Row>)
    ensures JoinRows(a, b) == FlatMap((m: Row) => JoinRow(m, b), a)
  {
    if a != [] { JoinRowsIsFlatMap(a[1..], b); }
  }

  lemma {:induction false} FilterRowsIsFlatMap(e: Option<Expr>, a: seq<Row>)
    ensures FilterRows(e, a) == FlatMap((m: Row) => if Accepts(e, m) then [m] else [], a)
  {
    if a != [] { FilterRowsIsFlatMap(e, a[1..]); }
  }

  lemma {:induction false} LeftJoinRowsIsFlatMap(a: seq<Row>, b: seq<Row>, e: Option<Expr>)
    ensures LeftJoinRows(a, b, e) == FlatMap((m: Row) => LeftJoinRow(m, b, e), a)
  {
    if a != [] { LeftJoinRowsIsFlatMap(a[1..], b, e); }
  }

  lemma {:induction false} MinusRowsIsFlatMap(a: seq<Row>, b: seq<Row>)
    ensures MinusRows(a, b) == FlatMap((m: Row) => if Removed(m, b) then [] else [m], a)
  {
    if a != [] { MinusRowsIsFlatMap(a[1..], b); }
  }

  lemma JoinRowPermutation(m: Row, b: seq<Row>, b': seq<Row>)
    requires multiset(b) == multiset(b')
    ensures multiset(JoinRow(m, b)) == multiset(JoinRow(m, b'))
  {
    JoinRowIsFlatMap(m, b);
    JoinRowIsFlatMap(m, b');
    FlatMapPermutation((b: Row) => Singleton(Both(Some(m), Some(b))), b, b');
  }

  lemma FilterRowsPermutation(e: Option<Expr>, a: seq<Row>, a': seq<Row>)
    requires multiset(a) == multiset(a')
    ensures multiset(FilterRows(e, a)) == multiset(FilterRows(e, a'))
  {
    FilterRowsIsFlatMap(e, a);
    FilterRowsIsFlatMap(e, a');
    FlatMapPermutation((m: Row) => if Accepts(e, m) then [m] else [], a, a');
  }

  lemma JoinRowsPermutation(a: seq<Row>, a': seq<Row>, b: seq<Row>, b': seq<Row>)
    requires multiset(a) == multiset(a') && multiset(b) == multiset(b')
    ensures multiset(JoinRows(a, b)) == multiset(JoinRows(a', b'))
  {
    var f, g := (m: Row) => JoinRow(m, b), (m: Row) => JoinRow(m, b');
    JoinRowsIsFlatMap(a, b);
    JoinRowsIsFlatMap(a', b');
    FlatMapPermutation(f, a, a');
    forall m | m in a' ensures multiset(f(m)) == multiset(g(m)) {
      JoinRowPermutation(m, b, b');
    }
    FlatMapCongruence(f, g, a');
  }

  lemma LeftJoinRowPermutation(m: Row, b: seq<Row>, b': seq<Row>, e: Option<Expr>)
    requires multiset(b) == multiset(b')
    ensures multiset(LeftJoinRow(m, b, e)) == multiset(LeftJoinRow(m, b', e))
  {
    JoinRowPermutation(m, b, b');
    var x, y := JoinRow(m, b), JoinRow(m, b');
    FilterRowsPermutation(e, x, y);
    assert |FilterRows(e, x)| == |multiset(FilterRows(e, x))| == |FilterRows(e, y)|;
  }

  lemma LeftJoinRowsPermutation(a: seq<Row>, a': seq<Row>, b: seq<Row>, b': seq<Row>, e: Option<Expr>)
    requires multiset(a) == multiset(a') && multiset(b) == multiset(b')
    ensures multiset(LeftJoinRows(a, b, e)) == multiset(LeftJoinRows(a', b', e))
  {
    var f, g := (m: Row) => LeftJoinRow(m, b, e), (m: Row) => LeftJoinRow(m, b', e);
    LeftJoinRowsIsFlatMap(a, b, e);
    LeftJoinRowsIsFlatMap(a', b', e);
    FlatMapPermutation(f, a, a');
    forall m | m in a' ensures multiset(f(m)) == multiset(g(m)) {
      LeftJoinRowPermutation(m, b, b', e);
    }
    FlatMapCongruence(f, g, a');
  }

  lemma RemovedByElements(m: Row, b: seq<Row>, b': seq<Row>)
    requires multiset(b) == multiset(b')
    requires Removed(m, b)
    ensures Removed(m, b')
  {
    var i :| 0 <= i < |b| && Compatible(m, b[i]) && m.Keys * b[i].Keys != {};
    assert b[i] in multiset(b');
    var j :| 0 <= j < |b'| && b'[j] == b[i];
  }

  lemma MinusRowsPermutation(a: seq<Row>, a': seq<Row>, b: seq<Row>, b': seq<Row>)
    requires multiset(a) == multiset(a') && multiset(b) == multiset(b')
    ensures multiset(MinusRows(a, b)) == multiset(MinusRows(a', b'))
  {
    var f := (m: Row) => if Removed(m, b) then [] else [m];
    var g := (m: Row) => if Removed(m, b') then [] else [m];
    MinusRowsIsFlatMap(a, b);
    MinusRowsIsFlatMap(a', b');
    FlatMapPermutation(f, a, a');
    forall m | m in a' ensures multiset(f(m)) == multiset(g(m)) {
      if Removed(m, b) { RemovedByElements(m, b, b'); }
      if Removed(m, b') { RemovedByElements(m, b', b); }
    }
    FlatMapCongruence(f, g, a');
  }

  lemma EvalTriplePermutation(tp: TriplePattern, data: seq<Triple>, data': seq<Triple>)
    requires multiset(data) == multiset(data')
    ensures multiset(EvalTriple(tp, data)) == multiset(EvalTriple(tp, data'))
  {
    EvalTripleIsFlatMap(tp, data);
    EvalTripleIsFlatMap(tp, data');
    FlatMapPermutation((t: Triple) => Singleton(BindTriple(tp, t)), data, data');
  }

  lemma {:induction false} EvalBgpPermutation(tps: seq<TriplePattern>, data: seq<Triple>, data': seq<Triple>)
    requires multiset(data) == multiset(data')
    ensures multiset(EvalBgp(tps, data)) == multiset(EvalBgp(tps, data'))
  {
    if tps != [] {
      EvalTriplePermutation(tps[0], data, data');
      EvalBgpPermutation(tps[1..], data, data');
      JoinRowsPermutation(EvalTriple(tps[0], data), EvalTriple(tps[0], data'),
                          EvalBgp(tps[1..], data), EvalBgp(tps[1..], data'));
    }
  }

  lemma EvalJoinPermutation(l: Pattern, r: Pattern, data: seq<Triple>, data': seq<Triple>)
    requires multiset(Eval(l, data)) == multiset(Eval(l, data')) && multiset(Eval(r, data)) == multiset(Eval(r, data'))
    ensures multiset(Eval(Join(l, r), data)) == multiset(Eval(Join(l, r), data'))
  {
    JoinRowsPermutation(Eval(l, data), Eval(l, data'), Eval(r, data), Eval(r, data'));
  }

  lemma EvalLeftJoinPermutation(l: Pattern, r: Pattern, e: Option<Expr>, data: seq<Triple>, data': seq<Triple>)
    requires multiset(Eval(l, data)) == multiset(Eval(l, data')) && multiset(Eval(r, data)) == multiset(Eval(r, data'))
    ensures multiset(Eval(LeftJoin(l, r, e), data)) == multiset(Eval(LeftJoin(l, r, e), data'))
  {
    LeftJoinRowsPermutation(Eval(l, data), Eval(l, data'), Eval(r, data), Eval(r, data'), e);
  }

  lemma EvalMinusPermutation(l: Pattern, r: Pattern, data: seq<Triple>, data': seq<Triple>)
    requires multiset(Eval(l, data)) == multiset(Eval(l, data')) && multiset(Eval(r, data)) == multiset(Eval(r, data'))
    ensures multiset(Eval(Minus(l, r), data)) == multiset(Eval(Minus(l, r), data'))
  {
    assert Eval(Minus(l, r), data) == MinusRows(Eval(l, data), Eval(r, data));
    assert Eval(Minus(l, r), data') == MinusRows(Eval(l, data'), Eval(r, data'));
    MinusRowsPermutation(Eval(l, data), Eval(l, data'), Eval(r, data), Eval(r, data'));
  }

  lemma EvalFilterPermutation(q: Pattern, e: Expr, data: seq<Triple>, data': seq<Triple>)
    requires multiset(Eval(q, data)) == multiset(Eval(q, data'))
    ensures multiset(Eval(Filter(q, e), data)) == multiset(Eval(Filter(q, e), data'))
  {
    FilterRowsPermutation(Some(e), Eval(q, data), Eval(q, data'));
  }

  /** The bag a pattern denotes depends on the data as a bag, for every operator. */
  lemma {:induction false} EvalPermutation(p: Pattern, data: seq<Triple>, data': seq<Triple>)
    requires multiset(data) == multiset(data')
    ensures multiset(Eval(p, data)) == multiset(Eval(p, data'))
  {
    if p.Bgp? {
      EvalBgpPermutation(p.triples, data, data');
    } else if p.Filter? {
      EvalPermutation(p.inner, data, data');
      EvalFilterPermutation(p.inner, p.cond, data, data');
    } else {
      EvalPermutation(p.left, data, data');
      EvalPermutation(p.right, data, data');
      match p
      case Join(l, r) => EvalJoinPermutation(l, r, data, data');
      case LeftJoin(l, r, e) => EvalLeftJoinPermutation(l, r, e, data, data');
      case Minus(l, r) => EvalMinusPermutation(l, r, data, data');
      case Union(_, _) =>
    }
  }
}
