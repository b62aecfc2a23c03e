/** Filters that compare a variable with an IRI. The translation compares the node itself, not its uri,
    with the text of the IRI, and no node is equal to a text. */
module TranslatorComparisons {
  import opened Common
  import opened Rdf
  import opened Schema
  import opened CypherQuery
  import opened S = Sparql
  import opened Translator
  import opened TranslatorJoins
  import opened TranslatorResults
  import opened TranslatorMinus
  import opened TranslatorDropped
  import opened TranslatorLimits

  lemma RunFilter(q: Pattern, e: Expr, c: nat, d: Listing)
    requires JoinTree(q) && HasTriple(q)
    ensures LeftAnswer(Filter(q, e), c, d) == Where(FilterConds(e), LeftAnswer(q, c, d), d)
  {
    var out := Compile(q, c);
    JoinTreeParts(q, c);
    RunJoinTree(q, c, d);
    ClausesOfPaths(out.parts, []);
    assert [] + out.parts == out.parts;
    MatchEachOne(out.parts, map[], d.edges);
    WhereWhere(out.conds, FilterConds(e), MatchAll(out.parts, map[], d.edges), d);
    assert Compile(Filter(q, e), c) == out.(conds := out.conds + FilterConds(e));
  }

  /** The text compared with reads as the IRI. */
  lemma ComparisonText(x: string, iri: string)
    ensures var e := TranslateExpr(EqualIri(x, iri));
      e.Some? && e.value.EqualsText? && e.value.v == x && ReadCypherString(e.value.text) == Some(StripDropped(iri))
  {
    ReadUndoesEscape(iri);
  }

  predicate AtNode(r: CRow, x: string) {
    x in r && r[x].NodeVal?
  }

  predicate AtResource(m: Row, x: string) {
    x in m && !m[x].Lit?
  }

  /** At a row that binds x to a node, the comparison is false and its negation true. */
  lemma ComparisonAt(x: string, iri: string, r: CRow, d: Listing)
    requires AtNode(r, x)
    ensures !AllTrue(FilterConds(EqualIri(x, iri)), r, d) && AllTrue(FilterConds(Not(EqualIri(x, iri))), r, d)
  {
    var cs, ns := FilterConds(EqualIri(x, iri)), FilterConds(Not(EqualIri(x, iri)));
    assert !CondTrue(cs[0], r, d) && CondTrue(ns[0], r, d);
  }

  lemma {:induction false} ComparisonRows(x: string, iri: string, rows: seq<CRow>, d: Listing)
    requires forall r :: r in rows ==> AtNode(r, x)
    ensures Where(FilterConds(EqualIri(x, iri)), rows, d) == []
    ensures Where(FilterConds(Not(EqualIri(x, iri))), rows, d) == rows
  {
    if rows != [] {
      assert rows[0] in rows && forall r :: r in rows[1..] ==> r in rows;
      ComparisonRows(x, iri, rows[1..], d);
      ComparisonAt(x, iri, rows[0], d);
    }
  }

  /** Some solution has the IRI at x. */
  ghost predicate Occurs(x: string, iri: string, ms: seq<Row>) {
    exists m :: m in ms && x in m && m[x] == Iri(iri)
  }

  lemma {:induction false} ComparisonSolutions(x: string, iri: string, ms: seq<Row>)
    requires forall m :: m in ms ==> AtResource(m, x)
    ensures FilterRows(Some(EqualIri(x, iri)), ms) == [] <==> !Occurs(x, iri, ms)
    ensures |FilterRows(Some(Not(EqualIri(x, iri))), ms)| <= |ms|
    ensures |FilterRows(Some(Not(EqualIri(x, iri))), ms)| == |ms| <==> !Occurs(x, iri, ms)
    ensures !Occurs(x, iri, ms) ==> FilterRows(Some(Not(EqualIri(x, iri))), ms) == ms
  {
    if ms != [] {
      var m := ms[0];
      assert m in ms && ms == [m] + ms[1..] && forall n :: n in ms[1..] ==> n in ms;
      ComparisonSolutions(x, iri, ms[1..]);
      assert EvalExpr(EqualIri(x, iri), m) == TruthOf(m[x] == Iri(iri));
    }
  }

  lemma ComparedRows(q: Pattern, x: string, c: nat, d: Listing, data: seq<Triple>)
    requires JoinTree(q) && HasTriple(q) && x in Vars(q) && Aligned(d.edges, data) && Made(q, c) !! Vars(q)
    ensures forall r :: r in LeftAnswer(q, c, d) ==> AtNode(r, x)
    ensures ReturnAll(LeftAnswer(q, c, d), Vars(q)) == EncodeAll(Eval(q, data))
    ensures forall m :: m in Eval(q, data) ==> AtResource(m, x)
  {
    JoinTreeRows(q, c, d, data, Vars(q));
    RowsBind(LeftAnswer(q, c, d), Compile(q, c), x, Vars(q));
    EvalShape(q, d.edges, data);
    ProjectStanding(LeftAnswer(q, c, d), Eval(q, data), Vars(q), Vars(q));
    ProjectWide(Eval(q, data), Vars(q));
  }

  lemma RowsBind(rows: seq<CRow>, out: Compiled, x: string, vars: set<string>)
    requires x in vars && forall r :: r in rows ==> Grown(r, map[], out, vars, vars)
    ensures forall r :: r in rows ==> AtNode(r, x)
  {
    forall r | r in rows ensures AtNode(r, x) {
      assert Grown(r, map[], out, vars, vars);
    }
  }

  lemma ComparedBags(x: string, iri: string, ms: seq<Row>)
    requires forall m :: m in ms ==> AtResource(m, x)
    ensures SameBag([], EncodeAll(FilterRows(Some(EqualIri(x, iri)), ms))) <==> !Occurs(x, iri, ms)
    ensures SameBag(EncodeAll(ms), EncodeAll(FilterRows(Some(Not(EqualIri(x, iri))), ms))) <==> !Occurs(x, iri, ms)
  {
    var equal, other := FilterRows(Some(EqualIri(x, iri)), ms), FilterRows(Some(Not(EqualIri(x, iri))), ms);
    ComparisonSolutions(x, iri, ms);
    EncodeAllLength(equal);
    EncodeAllLength(other);
    EncodeAllLength(ms);
    assert |multiset(EncodeAll(equal))| == |equal| && |multiset(EncodeAll(other))| == |other| && |multiset(EncodeAll(ms))| == |ms|;
  }

  lemma FilterAnswered(q: Pattern, e: Expr, c: nat, d: Listing, data: seq<Triple>)
    requires JoinTree(q) && HasTriple(q)
    ensures Answered(Filter(q, e), c, d) == ReturnAll(Where(FilterConds(e), LeftAnswer(q, c, d), d), Vars(q))
    ensures Eval(Filter(q, e), data) == FilterRows(Some(e), Eval(q, data)) && Vars(Filter(q, e)) == Vars(q)
  {
    RunFilter(q, e, c, d);
  }

  /** FILTER(?x = <iri>) finds nothing and FILTER(?x != <iri>) everything: each is right if and only if
      no solution has the IRI at x. */
  lemma IriComparisonExact(q: Pattern, x: string, iri: string, c: nat, d: Listing, ts: seq<Triple>, data: seq<Triple>)
    requires Serves(d, ts, data) && JoinTree(q) && HasTriple(q) && x in Vars(q) && Made(q, c) !! Vars(q)
    ensures Right(Filter(q, EqualIri(x, iri)), c, d, data, Vars(q)) <==> !Occurs(x, iri, Eval(q, data))
    ensures Right(Filter(q, Not(EqualIri(x, iri))), c, d, data, Vars(q)) <==> !Occurs(x, iri, Eval(q, data))
  {
    var e, n := EqualIri(x, iri), Not(EqualIri(x, iri));
    var aligned := AlignedData(d, ts, data);
    ComparedRows(q, x, c, d, aligned);
    ComparisonRows(x, iri, LeftAnswer(q, c, d), d);
    FilterAnswered(q, e, c, d, aligned);
    FilterAnswered(q, n, c, d, aligned);
    RightIs(Filter(q, e), c, d, aligned, data);
    RightIs(Filter(q, n), c, d, aligned, data);
    ComparedBags(x, iri, Eval(q, aligned));
    SameMembers(q, aligned, data);
  }
}
