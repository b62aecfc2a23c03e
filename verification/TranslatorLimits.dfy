/** A constant before an OPTIONAL, and filters of groups inside OPTIONAL and of MINUS parts, whose place in
    the query the translation loses: when that is harmless, in terms of the data. */
module TranslatorLimits {
  import opened Common
  import opened Rdf
  import opened Schema
  import opened PropertyGraph
  import opened CypherGenerator
  import opened CypherQuery
  import opened S = Sparql
  import opened Translator
  import opened BgpSolutions
  import opened TranslatorJoins
  import opened TranslatorTheorem
  import opened TranslatorResults
  import opened TranslatorOptional
  import opened TranslatorMinus
  import opened TranslatorNames
  import opened TranslatorDropped

  lemma CompileOne(tp: TriplePattern, c: nat)
    ensures Compile(Bgp([tp]), c) == CompileTriple(tp, c) && Vars(Bgp([tp])) == TripleVars(tp)
    ensures Made(Bgp([tp]), c) == MadeByTriple(tp, c)
  {
    var tps, first := [tp], CompileTriple(tp, c);
    assert tps[1..] == [] && tps[0] == tp;
    assert CompileBgp(tps, c) == Then(first, CompileBgp(tps[1..], first.next)) == first;
    assert BgpVars(tps) == TripleVars(tp) + BgpVars(tps[1..]);
    assert MadeByBgp(tps, c) == MadeByTriple(tp, c) + MadeByBgp(tps[1..], first.next);
  }

  /** The triple behind an edge. */
  lemma EdgeTriple(d: Listing, ts: seq<Triple>, data: seq<Triple>, e: Edge) returns (t: Triple)
    requires Serves(d, ts, data) && e in d.edges
    ensures t in data && IsEdgeTriple(t) && PlainTriple(t) && EdgeOf(t) == e
  {
    assert e in Elements(d.edges) && e in EdgesOf(ts);
    t :| t in ts && IsEdgeTriple(t) && EdgeOf(t) == e;
    assert t in Elements(ts) && t in Elements(data);
  }

  lemma TripleEdge(d: Listing, ts: seq<Triple>, data: seq<Triple>, t: Triple)
    requires Serves(d, ts, data) && t in data
    ensures IsEdgeTriple(t) && PlainTriple(t) && EdgeOf(t) in d.edges
  {
    assert t in Elements(data) && t in Elements(ts);
    assert EdgeOf(t) in EdgesOf(ts);
    assert EdgeOf(t) in Elements(d.edges);
  }

  lemma {:induction false} EdgeMatched(p: Path, r: CRow, edges: seq<Edge>, e: Edge)
    requires e in edges && MatchPath(p, e, r).Some?
    ensures MatchPath(p, e, r).value in MatchPart(PathPart(p), r, edges)
  {
    if edges[0] != e { EdgeMatched(p, r, edges[1..], e); }
  }

  // ----- OPTIONAL after a pattern with a constant

  function FromConstant(x: string, pred: string, v: string): TriplePattern {
    TriplePattern(Fixed(Iri(x)), PredIri(pred), Var(v))
  }

  lemma ConstantRow(tp: TriplePattern, c: nat, x: string, e: Edge)
    requires tp.subj == Fixed(Iri(x)) && tp.pred.PredIri? && Clean(tp.pred.iri) && tp.obj.Var?
    requires tp.obj.name !in MadeByTriple(tp, c) && e.pred == tp.pred.iri
    ensures var path := CompileTriple(tp, c).parts[0].path;
      MatchPath(path, e, map[]).Some? && Traverses(MatchPath(path, e, map[]).value, path, e)
  {
    EscapeRoundTripExact(tp.pred.iri);
    assert Fresh("n", c)[0] == 'n' && Fresh("r", c + 1)[0] == 'r';
  }

  lemma ConstantCondition(tp: TriplePattern, c: nat, x: string, row: CRow, t: Triple, d: Listing)
    requires tp.subj == Fixed(Iri(x)) && PlainTerm(Iri(x)) && tp.obj.Var? && PlainTriple(t) && !t.obj.Lit?
    requires Traverses(row, CompileTriple(tp, c).parts[0].path, EdgeOf(t))
    ensures AllTrue(CompileTriple(tp, c).conds, row, d) <==> t.subj == Iri(x)
  {
    var cs := CompileTriple(tp, c).conds;
    assert cs == [UriIs(Fresh("n", c), EscapeCypherString(x))];
    UriCondition(Fresh("n", c), x, row, t.subj, d);
    assert AllTrue(cs, row, d) <==> CondTrue(cs[0], row, d);
  }

  lemma ConstantRows(tp: TriplePattern, c: nat, x: string, d: Listing)
    requires tp.subj == Fixed(Iri(x)) && tp.pred.PredIri? && tp.obj.Var?
    ensures MatchAll(Compile(Bgp([tp]), c).parts, map[], d.edges) == MatchPart(CompileTriple(tp, c).parts[0], map[], d.edges)
    ensures Compile(Bgp([tp]), c) == CompileTriple(tp, c)
  {
    CompileOne(tp, c);
    var parts := CompileTriple(tp, c).parts;
    assert parts[1..] == [];
    MatchEachEmpty(MatchPart(parts[0], map[], d.edges), d.edges);
  }

  /** <x> pred ?v OPTIONAL { r } asks about every subject: the answer is right if and only if x is
      the only subject of pred in the data. */
  lemma OptionalLosesConstant(x: string, pred: string, v: string, r: Pattern, e: Option<Expr>, c: nat,
                              d: Listing, ts: seq<Triple>, data: seq<Triple>)
    requires Serves(d, ts, data) && PlainTerm(Iri(x)) && Clean(pred) && VarTree(r)
    requires var l := Bgp([FromConstant(x, pred, v)]);
      TwoSides(l, r, e) && Made(LeftJoin(l, r, e), c) !! Vars(l) + Vars(r)
    ensures var l := Bgp([FromConstant(x, pred, v)]);
      Right(LeftJoin(l, r, e), c, d, data, Vars(l) + Vars(r)) <==> forall t :: t in data && t.pred == pred ==> t.subj == Iri(x)
  {
    var tp := FromConstant(x, pred, v);
    var l := Bgp([tp]);
    OptionalExact(l, r, e, c, d, ts, data);
    VariablesOnRight(l, r, e, c, d);
    CompileOne(tp, c);
    ConstantRows(tp, c, x, d);
    assert v in Vars(l) && v !in Made(l, c);
    OnlySubject(tp, c, x, d, ts, data);
  }

  lemma FoundSubject(tp: TriplePattern, c: nat, x: string, d: Listing, ts: seq<Triple>, data: seq<Triple>, row: CRow)
    requires Serves(d, ts, data) && tp.pred.PredIri? && tp.obj.Var? && tp == FromConstant(x, tp.pred.iri, tp.obj.name)
    requires PlainTerm(Iri(x)) && Clean(tp.pred.iri)
    requires row in MatchPart(CompileTriple(tp, c).parts[0], map[], d.edges)
    requires forall t :: t in data && t.pred == tp.pred.iri ==> t.subj == Iri(x)
    ensures AllTrue(CompileTriple(tp, c).conds, row, d)
  {
    var out := CompileTriple(tp, c);
    PartTraverses(out.parts[0], map[], d.edges, row);
    var edge :| edge in d.edges && Traverses(row, out.parts[0].path, edge);
    var t := EdgeTriple(d, ts, data, edge);
    EscapeRoundTripExact(tp.pred.iri);
    ConstantCondition(tp, c, x, row, t, d);
  }

  lemma SubjectFound(tp: TriplePattern, c: nat, x: string, d: Listing, ts: seq<Triple>, data: seq<Triple>, t: Triple)
    requires Serves(d, ts, data) && tp.pred.PredIri? && tp.obj.Var? && tp == FromConstant(x, tp.pred.iri, tp.obj.name)
    requires PlainTerm(Iri(x)) && Clean(tp.pred.iri)
    requires tp.obj.name !in MadeByTriple(tp, c) && t in data && t.pred == tp.pred.iri
    requires forall row :: row in MatchPart(CompileTriple(tp, c).parts[0], map[], d.edges) ==> AllTrue(CompileTriple(tp, c).conds, row, d)
    ensures t.subj == Iri(x)
  {
    var path := CompileTriple(tp, c).parts[0].path;
    TripleEdge(d, ts, data, t);
    ConstantRow(tp, c, x, EdgeOf(t));
    EdgeMatched(path, map[], d.edges, EdgeOf(t));
    ConstantCondition(tp, c, x, MatchPath(path, EdgeOf(t), map[]).value, t, d);
  }

  lemma OnlySubject(tp: TriplePattern, c: nat, x: string, d: Listing, ts: seq<Triple>, data: seq<Triple>)
    requires Serves(d, ts, data) && tp.pred.PredIri? && tp.obj.Var? && tp == FromConstant(x, tp.pred.iri, tp.obj.name)
    requires PlainTerm(Iri(x)) && Clean(tp.pred.iri)
    requires tp.obj.name !in MadeByTriple(tp, c)
    ensures (forall row :: row in MatchPart(CompileTriple(tp, c).parts[0], map[], d.edges) ==> AllTrue(CompileTriple(tp, c).conds, row, d))
      <==> forall t :: t in data && t.pred == tp.pred.iri ==> t.subj == Iri(x)
  {
    var out := CompileTriple(tp, c);
    var rows := MatchPart(out.parts[0], map[], d.edges);
    if forall t :: t in data && t.pred == tp.pred.iri ==> t.subj == Iri(x) {
      forall row | row in rows ensures AllTrue(out.conds, row, d) {
        FoundSubject(tp, c, x, d, ts, data, row);
      }
    }
    if forall row :: row in rows ==> AllTrue(out.conds, row, d) {
      forall t | t in data && t.pred == tp.pred.iri ensures t.subj == Iri(x) {
        SubjectFound(tp, c, x, d, ts, data, t);
      }
    }
  }

  // ----- a filter of a group inside an OPTIONAL, or of a MINUS part

  /** The filter of a group nested in an OPTIONAL, and the filter of a MINUS part, leave no trace in the
      query. (A filter that stands directly in an OPTIONAL is the condition e, and is kept.) */
  lemma InnerFilterDropped(l: Pattern, r: Pattern, f: Expr, e: Option<Expr>, c: nat)
    ensures Compile(LeftJoin(l, Filter(r, f), e), c) == Compile(LeftJoin(l, r, e), c)
    ensures Compile(Minus(l, Filter(r, f)), c) == Compile(Minus(l, r), c)
  {
    var left := Compile(l, c);
    assert Compile(Filter(r, f), left.next).parts == Compile(r, left.next).parts;
    assert Compile(Filter(r, f), left.next).next == Compile(r, left.next).next;
    assert Compile(Filter(r, f), left.next).vars == Compile(r, left.next).vars;
  }

  lemma {:induction false} TreeBinds(p: Pattern, data: seq<Triple>)
    requires JoinTree(p)
    ensures Binds(Eval(p, data), Vars(p)) && (NoDup(data) ==> NoDup(Eval(p, data)))
  {
    match p
    case Bgp(tps) =>
      EvalBgpBinds(tps, data);
      if NoDup(data) { EvalBgpNoDup(tps, data); }
    case Join(l, r) =>
      TreeBinds(l, data);
      TreeBinds(r, data);
      var a, b := Eval(l, data), Eval(r, data);
      forall m | m in JoinRows(a, b) ensures m.Keys == Vars(p) {
        JoinRowsMember(a, Vars(l), b, Vars(r), m);
      }
      if NoDup(data) { JoinRowsNoDup(a, Vars(l), b, Vars(r)); }
    case Filter(q, e) =>
      TreeBinds(q, data);
      FilterRowsSubset(Some(e), Eval(q, data));
      if NoDup(data) { FilterNoDup(Some(e), Eval(q, data)); }
  }

  lemma {:induction false} FilterNoDup(e: Option<Expr>, rows: seq<Row>)
    requires NoDup(rows)
    ensures NoDup(FilterRows(e, rows))
  {
    if rows != [] {
      FilterNoDup(e, rows[1..]);
      FilterRowsSubset(e, rows[1..]);
      assert forall x :: x in rows[1..] ==> x != rows[0];
      NoDupConcat(if Accepts(e, rows[0]) then [rows[0]] else [], FilterRows(e, rows[1..]));
    }
  }

  /** m extended by b under the filter of the OPTIONAL. */
  predicate Extending(m: Row, b: Row, e: Option<Expr>) {
    Compatible(m, b) && Accepts(e, m + b)
  }

  /** What leaving out the filter f of the right side adds to one left row. */
  lemma {:induction false} FilterOnRight(m: Row, b: seq<Row>, f: Expr, e: Option<Expr>)
    ensures var found, kept := FilterRows(e, JoinRow(m, b)), FilterRows(e, JoinRow(m, FilterRows(Some(f), b)));
      && |kept| <= |found| && (|kept| == |found| ==> kept == found)
      && (forall x :: x in kept ==> x in found)
      && (|kept| == |found| <==> forall x :: x in b && Extending(m, x, e) ==> Accepts(Some(f), x))
  {
    if b != [] {
      var one, rest := Singleton(Both(Some(m), Some(b[0]))), FilterRows(Some(f), b[1..]);
      FilterOnRight(m, b[1..], f, e);
      assert b == [b[0]] + b[1..];
      FilterRowsConcat(e, one, JoinRow(m, b[1..]));
      var kept := if Accepts(Some(f), b[0]) then [b[0]] else [];
      JoinRowConcat(m, kept, rest);
      FilterRowsConcat(e, JoinRow(m, kept), JoinRow(m, rest));
      assert kept != [] ==> kept[1..] == [] && JoinRow(m, kept) == one;
      OneExtension(m, b[0], e);
    }
  }

  lemma OneExtension(m: Row, b: Row, e: Option<Expr>)
    ensures FilterRows(e, Singleton(Both(Some(m), Some(b)))) == if Extending(m, b, e) then [m + b] else []
  {
    assert [m + b][1..] == [];
  }

  function FilteredExtension(m: Row, b: seq<Row>, f: Expr, e: Option<Expr>): Extension {
    Extension(EncodeAll(FilterRows(e, JoinRow(m, b))),
              Some(EncodeAll(FilterRows(e, JoinRow(m, FilterRows(Some(f), b))))), Encode(m))
  }

  function FilteredExtensions(ms: seq<Row>, b: seq<Row>, f: Expr, e: Option<Expr>): (r: seq<Extension>)
    ensures |r| == |ms| && forall i :: 0 <= i < |ms| ==> r[i] == FilteredExtension(ms[i], b, f, e)
  {
    if ms == [] then [] else [FilteredExtension(ms[0], b, f, e)] + FilteredExtensions(ms[1..], b, f, e)
  }

  lemma EncodeLeftJoinRow(m: Row, b: seq<Row>, e: Option<Expr>)
    ensures EncodeAll(LeftJoinRow(m, b, e)) == OrBare(EncodeAll(FilterRows(e, JoinRow(m, b))), Encode(m))
  {
    EncodeAllLength(FilterRows(e, JoinRow(m, b)));
    assert [m][1..] == [];
  }

  lemma {:induction false} FilteredSides(ms: seq<Row>, b: seq<Row>, f: Expr, e: Option<Expr>)
    ensures Answer(FilteredExtensions(ms, b, f, e)) == EncodeAll(LeftJoinRows(ms, b, e))
    ensures Wanted(FilteredExtensions(ms, b, f, e)) == EncodeAll(LeftJoinRows(ms, FilterRows(Some(f), b), e))
  {
    if ms != [] {
      FilteredSides(ms[1..], b, f, e);
      EncodeLeftJoinRow(ms[0], b, e);
      EncodeLeftJoinRow(ms[0], FilterRows(Some(f), b), e);
      LeftJoinRowsCons(ms, b, e);
      LeftJoinRowsCons(ms, FilterRows(Some(f), b), e);
      assert FilteredExtensions(ms, b, f, e)[1..] == FilteredExtensions(ms[1..], b, f, e);
    }
  }

  lemma {:induction false} EncodedMembers(a: seq<Row>)
    ensures |EncodeAll(a)| == |a|
    ensures forall y :: y in EncodeAll(a) ==> exists m :: m in a && y == Encode(m)
    ensures forall m :: m in a ==> Encode(m) in EncodeAll(a)
  {
    if a != [] {
      EncodedMembers(a[1..]);
      assert a == [a[0]] + a[1..];
    }
  }

  lemma {:induction false} AtMostOneInside(m: Row, b: seq<Row>, vb: set<string>)
    requires Binds(b, vb) && NoDup(b) && vb <= m.Keys
    ensures |JoinRow(m, b)| <= 1
  {
    JoinRowNoDup(m, b, vb);
    if |JoinRow(m, b)| >= 2 {
      var x, y := JoinRow(m, b)[0], JoinRow(m, b)[1];
      assert x in JoinRow(m, b) && y in JoinRow(m, b);
      InsideRow(m, b, vb, x);
      InsideRow(m, b, vb, y);
      assert false;
    }
  }

  lemma InsideRow(m: Row, b: seq<Row>, vb: set<string>, x: Row)
    requires Binds(b, vb) && vb <= m.Keys && x in JoinRow(m, b)
    ensures x == m
  {
    JoinRowMember(m, b, vb, x);
    assert m.Keys + vb == m.Keys;
    assert Restrict(x, m.Keys) == x;
  }

  lemma {:induction false} FilterShorter(e: Option<Expr>, a: seq<Row>)
    ensures |FilterRows(e, a)| <= |a|
  {
    if a != [] { FilterShorter(e, a[1..]); }
  }

  lemma FoundShape(m: Row, va: set<string>, b: seq<Row>, vb: set<string>, e: Option<Expr>)
    requires m.Keys == va && Binds(b, vb)
    ensures forall y :: y in EncodeAll(FilterRows(e, JoinRow(m, b))) ==> vb - va <= y.Keys && (vb <= va ==> y == Encode(m))
  {
    var found := FilterRows(e, JoinRow(m, b));
    EncodedMembers(found);
    FilterRowsSubset(e, JoinRow(m, b));
    forall z | z in found ensures vb - va <= Encode(z).Keys && (vb <= va ==> z == m) {
      JoinRowMember(m, b, vb, z);
      if vb <= va { InsideRow(m, b, vb, z); }
    }
  }

  lemma KeptShape(m: Row, b: seq<Row>, f: Expr, e: Option<Expr>)
    ensures var found := EncodeAll(FilterRows(e, JoinRow(m, b)));
      var kept := EncodeAll(FilterRows(e, JoinRow(m, FilterRows(Some(f), b))));
      && |kept| <= |found| && (|kept| == |found| ==> kept == found)
      && (forall y :: y in kept ==> y in found)
      && (|kept| == |found| <==> forall x :: x in b && Extending(m, x, e) ==> Accepts(Some(f), x))
  {
    FilterOnRight(m, b, f, e);
    EncodedMembers(FilterRows(e, JoinRow(m, b)));
    EncodedMembers(FilterRows(e, JoinRow(m, FilterRows(Some(f), b))));
  }

  lemma FoundInside(m: Row, b: seq<Row>, vb: set<string>, e: Option<Expr>)
    requires Binds(b, vb) && NoDup(b) && vb <= m.Keys
    ensures |EncodeAll(FilterRows(e, JoinRow(m, b)))| <= 1
  {
    AtMostOneInside(m, b, vb);
    FilterShorter(e, JoinRow(m, b));
    EncodeAllLength(FilterRows(e, JoinRow(m, b)));
  }

  lemma FilteredShape(m: Row, va: set<string>, b: seq<Row>, vb: set<string>, f: Expr, e: Option<Expr>)
    requires m.Keys == va && Binds(b, vb) && NoDup(b)
    ensures var x := FilteredExtension(m, b, f, e);
      && WellFormed(x, vb - va)
      && (Exact(x, vb - va) <==> vb <= va || forall y :: y in b && Extending(m, y, e) ==> Accepts(Some(f), y))
  {
    FoundShape(m, va, b, vb, e);
    KeptShape(m, b, f, e);
    if vb <= va { FoundInside(m, b, vb, e); }
    NothingNew(vb, va);
  }

  /** Every right row that extends a left row passes the right side's filter. */
  ghost predicate FilterHolds(a: seq<Row>, b: seq<Row>, f: Expr, e: Option<Expr>) {
    forall m, x :: m in a && x in b && Extending(m, x, e) ==> Accepts(Some(f), x)
  }

  lemma FilteredAgree(a: seq<Row>, va: set<string>, b: seq<Row>, vb: set<string>, f: Expr, e: Option<Expr>)
    requires Binds(a, va) && Binds(b, vb) && NoDup(b)
    ensures SameBag(EncodeAll(LeftJoinRows(a, b, e)), EncodeAll(LeftJoinRows(a, FilterRows(Some(f), b), e)))
      <==> vb <= va || FilterHolds(a, b, f, e)
  {
    var xs, extra := FilteredExtensions(a, b, f, e), vb - va;
    FilteredSides(a, b, f, e);
    forall i | 0 <= i < |a|
      ensures WellFormed(xs[i], extra)
      ensures Exact(xs[i], extra) <==> vb <= va || forall y :: y in b && Extending(a[i], y, e) ==> Accepts(Some(f), y)
    {
      assert a[i] in a;
      FilteredShape(a[i], va, b, vb, f, e);
    }
    AnswersAgree(xs, extra);
    FilteredExactly(xs, extra, a, b, f, e, vb <= va);
  }

  lemma FilteredExactly(xs: seq<Extension>, extra: set<string>, a: seq<Row>, b: seq<Row>, f: Expr, e: Option<Expr>, inside: bool)
    requires |xs| == |a| && forall i :: 0 <= i < |a| ==>
      (Exact(xs[i], extra) <==> inside || forall y :: y in b && Extending(a[i], y, e) ==> Accepts(Some(f), y))
    ensures (forall x :: x in xs ==> Exact(x, extra)) <==> inside || FilterHolds(a, b, f, e)
  {
    if (forall x :: x in xs ==> Exact(x, extra)) && !inside {
      forall m, y | m in a && y in b && Extending(m, y, e) ensures Accepts(Some(f), y) {
        var i :| 0 <= i < |a| && a[i] == m;
        assert xs[i] in xs;
      }
    }
    if inside || FilterHolds(a, b, f, e) {
      forall x | x in xs ensures Exact(x, extra) {
        var i :| 0 <= i < |xs| && xs[i] == x;
        assert a[i] in a;
      }
    }
  }

  lemma FilteredSolutions(l: Pattern, r: Pattern, f: Expr, e: Option<Expr>, data: seq<Triple>)
    ensures Eval(LeftJoin(l, r, e), data) == LeftJoinRows(Eval(l, data), Eval(r, data), e)
    ensures Eval(LeftJoin(l, Filter(r, f), e), data) == LeftJoinRows(Eval(l, data), FilterRows(Some(f), Eval(r, data)), e)
  {
    assert Eval(Filter(r, f), data) == FilterRows(Some(f), Eval(r, data));
  }

  lemma SameAnswer(p: Pattern, q: Pattern, c: nat, d: Listing, data: seq<Triple>)
    requires Compile(p, c) == Compile(q, c) && Vars(p) == Vars(q) && Right(p, c, d, data, Vars(p))
    ensures Right(q, c, d, data, Vars(q)) <==> SameBag(EncodeAll(Eval(p, data)), EncodeAll(Eval(q, data)))
  {
    RightIs(p, c, d, data, data);
    RightIs(q, c, d, data, data);
    assert Answered(p, c, d) == Answered(q, c, d);
  }

  /** l OPTIONAL { { r FILTER(f) } FILTER(e) }, whatever f says: right if and only if the right side binds
      nothing new, or f accepts every right row that extends a left row under e. */
  lemma OptionalFilterExact(l: Pattern, r: Pattern, f: Expr, e: Option<Expr>, c: nat, d: Listing, ts: seq<Triple>, data: seq<Triple>)
    requires Serves(d, ts, data) && OptionalQuery(LeftJoin(l, r, e)) && VarTree(l)
    requires Made(LeftJoin(l, r, e), c) !! Vars(l) + Vars(r)
    ensures Right(LeftJoin(l, Filter(r, f), e), c, d, data, Vars(l) + Vars(r))
      <==> Vars(r) <= Vars(l) || FilterHolds(Eval(l, data), Eval(r, data), f, e)
  {
    var p, q := LeftJoin(l, r, e), LeftJoin(l, Filter(r, f), e);
    InnerFilterDropped(l, r, f, e, c);
    assert Vars(Filter(r, f)) == Vars(r);
    OptionalCorrect(p, c, d, ts, data, Vars(p));
    SameAnswer(p, q, c, d, data);
    FilteredSolutions(l, r, f, e, data);
    VarTreeIsJoinTree(l, c);
    VarTreeIsJoinTree(r, c);
    TreeBinds(l, data);
    TreeBinds(r, data);
    FilteredAgree(Eval(l, data), Vars(l), Eval(r, data), Vars(r), f, e);
  }

  lemma SameMembers(p: Pattern, data: seq<Triple>, data': seq<Triple>)
    requires multiset(data) == multiset(data')
    ensures forall m :: m in Eval(p, data) <==> m in Eval(p, data')
  {
    EvalPermutation(p, data, data');
    assert forall m :: m in Eval(p, data) <==> m in multiset(Eval(p, data));
    assert forall m :: m in Eval(p, data') <==> m in multiset(Eval(p, data'));
  }

  // ----- a filter inside a MINUS part

  /** Some right row is compatible with m. */
  ghost predicate Meets(m: Row, b: seq<Row>) {
    exists x :: x in b && Compatible(m, x)
  }

  /** A left row that meets a right row meets one that f accepts. */
  ghost predicate MeetsAccepted(a: seq<Row>, b: seq<Row>, f: Expr, shared: bool) {
    forall m :: m in a && Meets(m, b) ==> shared && Meets(m, FilterRows(Some(f), b))
  }

  lemma {:induction false} FilterMember(e: Option<Expr>, a: seq<Row>)
    ensures forall x :: x in FilterRows(e, a) <==> x in a && Accepts(e, x)
  {
    if a != [] {
      FilterMember(e, a[1..]);
      assert a == [a[0]] + a[1..];
    }
  }

  lemma {:induction false} KeepAgainstFiltered(a: seq<Row>, va: set<string>, b: seq<Row>, vb: set<string>, f: Expr)
    requires Binds(a, va) && Binds(b, vb)
    ensures var got, want := KeepIncompatible(a, b), MinusRows(a, FilterRows(Some(f), b));
      |got| <= |want| && (|got| == |want| ==> MeetsAccepted(a, b, f, va * vb != {}))
      && (MeetsAccepted(a, b, f, va * vb != {}) ==> got == want)
  {
    if a != [] {
      var some := FilterRows(Some(f), b);
      assert a[0] in a && a == [a[0]] + a[1..];
      KeepAgainstFiltered(a[1..], va, b, vb, f);
      FilterMember(Some(f), b);
      JoinRowEmpty(a[0], b);
      JoinRowEmpty(a[0], some);
      RemovedByJoin(a[0], some, va, vb);
      assert Meets(a[0], some) ==> Meets(a[0], b);
    }
  }

  lemma KeptBags(a: seq<Row>, va: set<string>, b: seq<Row>, vb: set<string>, f: Expr, vars: set<string>)
    requires Binds(a, va) && Binds(b, vb)
    ensures SameBag(EncodeAll(ProjectAll(KeepIncompatible(a, b), vars)), EncodeAll(ProjectAll(MinusRows(a, FilterRows(Some(f), b)), vars)))
      <==> MeetsAccepted(a, b, f, va * vb != {})
  {
    KeepAgainstFiltered(a, va, b, vb, f);
    ProjectedSizes(KeepIncompatible(a, b), vars);
    ProjectedSizes(MinusRows(a, FilterRows(Some(f), b)), vars);
  }

  lemma FilteredMinus(l: Pattern, r: Pattern, f: Expr, data: seq<Triple>)
    ensures Eval(Minus(l, Filter(r, f)), data) == MinusRows(Eval(l, data), FilterRows(Some(f), Eval(r, data)))
  {
    FilterIs(r, f, data);
    MinusIs(l, Filter(r, f), data, FilterRows(Some(f), Eval(r, data)));
  }

  lemma FilterIs(r: Pattern, f: Expr, data: seq<Triple>)
    ensures Eval(Filter(r, f), data) == FilterRows(Some(f), Eval(r, data))
  {
  }

  lemma MinusIs(l: Pattern, q: Pattern, data: seq<Triple>, b: seq<Row>)
    requires Eval(q, data) == b
    ensures Eval(Minus(l, q), data) == MinusRows(Eval(l, data), b)
  {
  }

  lemma MinusFilterSides(l: Pattern, r: Pattern, f: Expr, c: nat, d: Listing, data: seq<Triple>, vars: set<string>)
    requires MinusQuery(Minus(l, r)) && Aligned(d.edges, data) && vars <= Vars(l)
    requires Made(Minus(l, r), c) !! Vars(l) + Vars(r)
    ensures SameBag(MinusAnswer(l, Filter(r, f), c, d, vars), EncodeAll(ProjectAll(Eval(Minus(l, Filter(r, f)), data), vars)))
      <==> MeetsAccepted(Eval(l, data), Eval(r, data), f, Vars(l) * Vars(r) != {})
  {
    InnerFilterDropped(l, r, f, None, c);
    MinusBranch(l, r, c, d, data, vars);
    FilteredMinus(l, r, f, data);
    VarTreeIsJoinTree(r, c);
    TreeBinds(l, data);
    TreeBinds(r, data);
    KeptBags(Eval(l, data), Vars(l), Eval(r, data), Vars(r), f, vars);
  }

  lemma ProjectedSizes(a: seq<Row>, vars: set<string>)
    ensures |multiset(EncodeAll(ProjectAll(a, vars)))| == |a|
  {
    ProjectAllLength(a, vars);
    EncodeAllLength(ProjectAll(a, vars));
  }

  lemma SameMeets(a: seq<Row>, a': seq<Row>, b: seq<Row>, b': seq<Row>, f: Expr, shared: bool)
    requires multiset(a) == multiset(a') && multiset(b) == multiset(b')
    requires MeetsAccepted(a, b, f, shared)
    ensures MeetsAccepted(a', b', f, shared)
  {
    FilterMember(Some(f), b);
    FilterMember(Some(f), b');
    assert forall x :: x in b <==> x in multiset(b);
    assert forall x :: x in b' <==> x in multiset(b');
    forall m | m in a' && Meets(m, b') ensures shared && Meets(m, FilterRows(Some(f), b')) {
      assert m in multiset(a');
      assert Meets(m, b);
      var x :| x in FilterRows(Some(f), b) && Compatible(m, x);
      assert x in FilterRows(Some(f), b');
    }
  }

  /** l MINUS { r FILTER(f) }, whatever f says: right if and only if the two sides share a variable
      and every left row with a compatible right row has one that f accepts, or no left row has a
      compatible right row at all. */
  lemma MinusFilterExact(l: Pattern, r: Pattern, f: Expr, c: nat, d: Listing, ts: seq<Triple>, data: seq<Triple>, vars: set<string>)
    requires Serves(d, ts, data) && MinusQuery(Minus(l, r)) && vars <= Vars(l)
    requires Made(Minus(l, r), c) !! Vars(l) + Vars(r)
    ensures Right(Minus(l, Filter(r, f)), c, d, data, vars)
      <==> MeetsAccepted(Eval(l, data), Eval(r, data), f, Vars(l) * Vars(r) != {})
  {
    var q, shared := Minus(l, Filter(r, f)), Vars(l) * Vars(r) != {};
    var aligned := AlignedData(d, ts, data);
    MinusFilterSides(l, r, f, c, d, aligned, vars);
    EvalPermutation(q, aligned, data);
    ProjectPermutation(Eval(q, aligned), Eval(q, data), vars);
    EvalPermutation(l, aligned, data);
    EvalPermutation(r, aligned, data);
    if MeetsAccepted(Eval(l, data), Eval(r, data), f, shared) {
      SameMeets(Eval(l, data), Eval(l, aligned), Eval(r, data), Eval(r, aligned), f, shared);
    }
    if MeetsAccepted(Eval(l, aligned), Eval(r, aligned), f, shared) {
      SameMeets(Eval(l, aligned), Eval(l, data), Eval(r, aligned), Eval(r, data), f, shared);
    }
  }
}
