/** Constants inside OPTIONAL and MINUS parts, whose conditions the translation loses: when that is
    harmless, in terms of the data. At the end, inputs on which a lost condition is not. */
module TranslatorConstants {
  import opened Common
  import opened Rdf
  import opened Schema
  import opened PropertyGraph
  import opened CypherGenerator
  import opened CypherQuery
  import opened S = Sparql
  import opened Translator
  import opened BgpSolutions
  import opened TranslatorJoins
  import opened TranslatorTheorem
  import opened TranslatorResults
  import opened TranslatorOptional
  import opened TranslatorNames
  import opened TranslatorDropped
  import opened TranslatorLimits

  // ----- a constant inside an OPTIONAL or MINUS part

  function ToConstant(v: string, q: string, k: string): TriplePattern {
    TriplePattern(Var(v), PredIri(q), Fixed(Iri(k)))
  }

  /** t starts where m has v, if m has it at all, and goes by q. */
  predicate Reaches(m: Row, v: string, q: string, t: Triple) {
    t.pred == q && (v in m ==> m[v] == t.subj)
  }

  /** A row of the left side and the solution it stands for, as the right side meets them. */
  ghost predicate Met(x: CRow, m: Row, tp: TriplePattern, c: nat, users: set<string>) {
    && Stands(x, m, users) && ReadyRow(x, c, TripleVars(tp), users)
    && TripleVars(tp) <= users && MadeByTriple(tp, c) !! users
  }

  function PathOf(tp: TriplePattern, c: nat): Path {
    CompileTriple(tp, c).parts[0].path
  }

  lemma PathToConstant(v: string, q: string, k: string, c: nat)
    ensures PathOf(ToConstant(v, q, k), c) == Path(v, Fresh("r", c + 1), Some(EscapeCypherString(q)), Fresh("n", c))
    ensures CompileTriple(ToConstant(v, q, k), c).conds == [UriIs(Fresh("n", c), EscapeCypherString(k))]
    ensures MadeByTriple(ToConstant(v, q, k), c) == {Fresh("n", c), Fresh("r", c + 1)}
    ensures Fresh("n", c) != Fresh("r", c + 1)
  {
    assert Fresh("n", c)[0] == 'n' && Fresh("r", c + 1)[0] == 'r';
  }

  /** The path goes along an edge exactly when its triple is reached. */
  lemma ReachedEdge(x: CRow, m: Row, v: string, q: string, k: string, c: nat, users: set<string>, t: Triple)
    requires Met(x, m, ToConstant(v, q, k), c, users) && Clean(q) && IsEdgeTriple(t) && PlainTriple(t)
    ensures var y := MatchPath(PathOf(ToConstant(v, q, k), c), EdgeOf(t), x);
      && (y.Some? <==> Reaches(m, v, q, t))
      && (y.Some? ==> Fresh("n", c) in y.value && y.value[Fresh("n", c)] == NodeVal(KeyOf(t.obj))
                      && Fresh("r", c + 1) in y.value && y.value[Fresh("r", c + 1)] == RelVal(EdgeOf(t)))
  {
    PathToConstant(v, q, k, c);
    EscapeRoundTripExact(q);
    assert "n" in PREFIXES && "r" in PREFIXES;
    assert Fresh("n", c) !in x && Fresh("r", c + 1) !in x;
    assert v in TripleVars(ToConstant(v, q, k));
    StandsAt(x, m, users, v);
    if v in m && x[v] == NodeVal(KeyOf(t.subj)) { KeyOfInjective(m[v], t.subj); }
  }

  lemma {:induction false} PartRow(p: Part, r: CRow, edges: seq<Edge>, y: CRow) returns (e: Edge)
    requires p.PathPart? && y in MatchPart(p, r, edges)
    ensures e in edges && MatchPath(p.path, e, r) == Some(y)
  {
    if y in ToSeq(MatchPath(p.path, edges[0], r)) {
      e := edges[0];
    } else {
      e := PartRow(p, r, edges[1..], y);
    }
  }

  lemma SameRowSameEdge(p: Path, e: Edge, e': Edge, r: CRow)
    requires MatchPath(p, e, r).Some? && MatchPath(p, e, r) == MatchPath(p, e', r)
    ensures e == e'
  {
    var y := MatchPath(p, e, r).value;
    assert y[p.rel] == RelVal(e) && y[p.rel] == RelVal(e');
  }

  /** Different edges give different rows. */
  lemma {:induction false} PartRowsDiffer(p: Part, r: CRow, edges: seq<Edge>)
    requires p.PathPart? && NoDup(edges)
    ensures NoDup(MatchPart(p, r, edges))
  {
    if edges != [] {
      PartRowsDiffer(p, r, edges[1..]);
      var first := MatchPath(p.path, edges[0], r);
      if first.Some? && first.value in MatchPart(p, r, edges[1..]) {
        var e := PartRow(p, r, edges[1..], first.value);
        SameRowSameEdge(p.path, e, edges[0], r);
        assert false;
      }
      NoDupConcat(ToSeq(first), MatchPart(p, r, edges[1..]));
    }
  }

  /** What the paths of the right side find from x, triple by triple. */
  lemma FoundTriple(x: CRow, m: Row, v: string, q: string, k: string, c: nat, users: set<string>, d: Listing,
                    ts: seq<Triple>, data: seq<Triple>, y: CRow) returns (t: Triple)
    requires Serves(d, ts, data) && Met(x, m, ToConstant(v, q, k), c, users) && Clean(q)
    requires y in MatchPart(CompileTriple(ToConstant(v, q, k), c).parts[0], x, d.edges)
    ensures t in data && Reaches(m, v, q, t) && !t.obj.Lit? && PlainTriple(t)
    ensures MatchPath(PathOf(ToConstant(v, q, k), c), EdgeOf(t), x) == Some(y)
  {
    var e := PartRow(CompileTriple(ToConstant(v, q, k), c).parts[0], x, d.edges, y);
    t := EdgeTriple(d, ts, data, e);
    ReachedEdge(x, m, v, q, k, c, users, t);
  }

  lemma ReachedRow(x: CRow, m: Row, v: string, q: string, k: string, c: nat, users: set<string>, d: Listing,
                   ts: seq<Triple>, data: seq<Triple>, t: Triple) returns (y: CRow)
    requires Serves(d, ts, data) && Met(x, m, ToConstant(v, q, k), c, users) && Clean(q) && PlainTerm(Iri(k))
    requires t in data && Reaches(m, v, q, t)
    ensures y in MatchPart(CompileTriple(ToConstant(v, q, k), c).parts[0], x, d.edges)
    ensures !t.obj.Lit? && MatchPath(PathOf(ToConstant(v, q, k), c), EdgeOf(t), x) == Some(y)
  {
    TripleEdge(d, ts, data, t);
    ReachedEdge(x, m, v, q, k, c, users, t);
    EdgeMatched(PathOf(ToConstant(v, q, k), c), x, d.edges, EdgeOf(t));
    y := MatchPath(PathOf(ToConstant(v, q, k), c), EdgeOf(t), x).value;
  }

  /** The condition of the constant holds at the end of its own triples only. */
  lemma RowAtConstant(x: CRow, m: Row, v: string, q: string, k: string, c: nat, users: set<string>, d: Listing, t: Triple, y: CRow)
    requires Met(x, m, ToConstant(v, q, k), c, users) && Clean(q) && PlainTerm(Iri(k)) && IsEdgeTriple(t) && PlainTriple(t)
    requires MatchPath(PathOf(ToConstant(v, q, k), c), EdgeOf(t), x) == Some(y)
    ensures AllTrue(CompileTriple(ToConstant(v, q, k), c).conds, y, d) <==> t.obj == Iri(k)
  {
    PathToConstant(v, q, k, c);
    ReachedEdge(x, m, v, q, k, c, users, t);
    UriCondition(Fresh("n", c), k, y, t.obj, d);
    var cs := CompileTriple(ToConstant(v, q, k), c).conds;
    assert AllTrue(cs, y, d) <==> CondTrue(cs[0], y, d);
  }

  /** At most one triple is reached, or all that are end at k. */
  ghost predicate EndsAtOnly(m: Row, v: string, q: string, k: string, data: seq<Triple>, inside: bool) {
    || (forall t :: t in data && Reaches(m, v, q, t) ==> t.obj == Iri(k))
    || (inside && forall t, u :: t in data && u in data && Reaches(m, v, q, t) && Reaches(m, v, q, u) ==> t == u)
  }

  lemma SameFoundRow(x: CRow, m: Row, v: string, q: string, k: string, c: nat, users: set<string>, d: Listing,
                     ts: seq<Triple>, data: seq<Triple>, t: Triple, u: Triple)
    requires Serves(d, ts, data) && Met(x, m, ToConstant(v, q, k), c, users) && Clean(q) && PlainTerm(Iri(k))
    requires |MatchPart(CompileTriple(ToConstant(v, q, k), c).parts[0], x, d.edges)| <= 1
    requires t in data && u in data && Reaches(m, v, q, t) && Reaches(m, v, q, u)
    ensures t == u
  {
    var rows := MatchPart(CompileTriple(ToConstant(v, q, k), c).parts[0], x, d.edges);
    var y := ReachedRow(x, m, v, q, k, c, users, d, ts, data, t);
    var z := ReachedRow(x, m, v, q, k, c, users, d, ts, data, u);
    assert y == rows[0] == z;
    TripleEdge(d, ts, data, t);
    TripleEdge(d, ts, data, u);
    SameRowSameEdge(PathOf(ToConstant(v, q, k), c), EdgeOf(t), EdgeOf(u), x);
    EdgeOfInjective(t, u);
  }

  lemma TwoFoundRows(x: CRow, m: Row, v: string, q: string, k: string, c: nat, users: set<string>, d: Listing,
                     ts: seq<Triple>, data: seq<Triple>) returns (t: Triple, u: Triple)
    requires Serves(d, ts, data) && Met(x, m, ToConstant(v, q, k), c, users) && Clean(q)
    requires |MatchPart(CompileTriple(ToConstant(v, q, k), c).parts[0], x, d.edges)| > 1
    ensures t in data && u in data && Reaches(m, v, q, t) && Reaches(m, v, q, u) && t != u
  {
    var rows := MatchPart(CompileTriple(ToConstant(v, q, k), c).parts[0], x, d.edges);
    PartRowsDiffer(CompileTriple(ToConstant(v, q, k), c).parts[0], x, d.edges);
    t := FoundTriple(x, m, v, q, k, c, users, d, ts, data, rows[0]);
    u := FoundTriple(x, m, v, q, k, c, users, d, ts, data, rows[1]);
    assert rows[0] != rows[1];
  }

  lemma FoundAtMostOne(x: CRow, m: Row, v: string, q: string, k: string, c: nat, users: set<string>, d: Listing,
                       ts: seq<Triple>, data: seq<Triple>)
    requires Serves(d, ts, data) && Met(x, m, ToConstant(v, q, k), c, users) && Clean(q) && PlainTerm(Iri(k))
    ensures |MatchPart(CompileTriple(ToConstant(v, q, k), c).parts[0], x, d.edges)| <= 1
      <==> forall t, u :: t in data && u in data && Reaches(m, v, q, t) && Reaches(m, v, q, u) ==> t == u
  {
    if |MatchPart(CompileTriple(ToConstant(v, q, k), c).parts[0], x, d.edges)| <= 1 {
      forall t, u | t in data && u in data && Reaches(m, v, q, t) && Reaches(m, v, q, u) ensures t == u {
        SameFoundRow(x, m, v, q, k, c, users, d, ts, data, t, u);
      }
    } else {
      var t, u := TwoFoundRows(x, m, v, q, k, c, users, d, ts, data);
    }
  }

  lemma FoundAllEnd(x: CRow, m: Row, v: string, q: string, k: string, c: nat, users: set<string>, d: Listing,
                    ts: seq<Triple>, data: seq<Triple>)
    requires Serves(d, ts, data) && Met(x, m, ToConstant(v, q, k), c, users) && Clean(q) && PlainTerm(Iri(k))
    ensures var out := CompileTriple(ToConstant(v, q, k), c);
      (forall y :: y in MatchPart(out.parts[0], x, d.edges) ==> AllTrue(out.conds, y, d))
      <==> forall t :: t in data && Reaches(m, v, q, t) ==> t.obj == Iri(k)
  {
    var out := CompileTriple(ToConstant(v, q, k), c);
    var rows := MatchPart(out.parts[0], x, d.edges);
    if forall y :: y in rows ==> AllTrue(out.conds, y, d) {
      forall t | t in data && Reaches(m, v, q, t) ensures t.obj == Iri(k) {
        var y := ReachedRow(x, m, v, q, k, c, users, d, ts, data, t);
        TripleEdge(d, ts, data, t);
        RowAtConstant(x, m, v, q, k, c, users, d, t, y);
      }
    }
    if forall t :: t in data && Reaches(m, v, q, t) ==> t.obj == Iri(k) {
      forall y | y in rows ensures AllTrue(out.conds, y, d) {
        var t := FoundTriple(x, m, v, q, k, c, users, d, ts, data, y);
        TripleEdge(d, ts, data, t);
        RowAtConstant(x, m, v, q, k, c, users, d, t, y);
      }
    }
  }

  lemma OneTriple(tp: TriplePattern, c: nat, x: CRow, d: Listing)
    ensures var out := Compile(Bgp([tp]), c);
      out == CompileTriple(tp, c) && MatchAll(out.parts, x, d.edges) == MatchPart(CompileTriple(tp, c).parts[0], x, d.edges)
  {
    CompileOne(tp, c);
    var parts := CompileTriple(tp, c).parts;
    assert parts[1..] == [];
    MatchEachEmpty(MatchPart(parts[0], x, d.edges), d.edges);
  }

  lemma OffersToConstant(x: CRow, m: Row, v: string, q: string, k: string, c: nat, users: set<string>, d: Listing,
                         ts: seq<Triple>, data: seq<Triple>, inside: bool)
    requires Serves(d, ts, data) && Met(x, m, ToConstant(v, q, k), c, users) && Clean(q) && PlainTerm(Iri(k))
    ensures OffersExactly(Compile(Bgp([ToConstant(v, q, k)]), c), None, x, inside, d) <==> EndsAtOnly(m, v, q, k, data, inside)
  {
    var tp := ToConstant(v, q, k);
    OneTriple(tp, c, x, d);
    WhereNone(MatchPart(CompileTriple(tp, c).parts[0], x, d.edges), d);
    FoundAllEnd(x, m, v, q, k, c, users, d, ts, data);
    FoundAtMostOne(x, m, v, q, k, c, users, d, ts, data);
  }

  /** Left rows and solutions, met one by one. */
  ghost predicate AllMet(xs: seq<CRow>, ms: seq<Row>, tp: TriplePattern, c: nat, users: set<string>) {
    |xs| == |ms| && forall i :: 0 <= i < |xs| ==> Met(xs[i], ms[i], tp, c, users)
  }

  lemma OffersThroughout(xs: seq<CRow>, ms: seq<Row>, v: string, q: string, k: string, c: nat, users: set<string>, d: Listing,
                         ts: seq<Triple>, data: seq<Triple>, inside: bool)
    requires Serves(d, ts, data) && AllMet(xs, ms, ToConstant(v, q, k), c, users) && Clean(q) && PlainTerm(Iri(k))
    ensures (forall x :: x in xs ==> OffersExactly(Compile(Bgp([ToConstant(v, q, k)]), c), None, x, inside, d))
      <==> forall m :: m in ms ==> EndsAtOnly(m, v, q, k, data, inside)
  {
    var right := Compile(Bgp([ToConstant(v, q, k)]), c);
    forall i | 0 <= i < |xs| ensures OffersExactly(right, None, xs[i], inside, d) <==> EndsAtOnly(ms[i], v, q, k, data, inside) {
      OffersToConstant(xs[i], ms[i], v, q, k, c, users, d, ts, data, inside);
    }
    if forall x :: x in xs ==> OffersExactly(right, None, x, inside, d) {
      forall m | m in ms ensures EndsAtOnly(m, v, q, k, data, inside) {
        var i :| 0 <= i < |ms| && ms[i] == m;
        assert xs[i] in xs;
      }
    }
    if forall m :: m in ms ==> EndsAtOnly(m, v, q, k, data, inside) {
      forall x | x in xs ensures OffersExactly(right, None, x, inside, d) {
        var i :| 0 <= i < |xs| && xs[i] == x;
        assert ms[i] in ms;
      }
    }
  }

  lemma MetFrom(xs: seq<CRow>, ms: seq<Row>, tp: TriplePattern, c: nat, users: set<string>)
    requires AllStand(xs, ms, users) && (forall x :: x in xs ==> ReadyRow(x, c, TripleVars(tp), users))
    requires TripleVars(tp) <= users && MadeByTriple(tp, c) !! users
    ensures AllMet(xs, ms, tp, c, users)
  {
    forall i | 0 <= i < |xs| ensures Met(xs[i], ms[i], tp, c, users) {
      assert xs[i] in xs && Stands(xs[i], ms[i], users);
    }
  }

  lemma OneTripleSides(l: Pattern, tp: TriplePattern, c: nat)
    requires JoinTree(l) && HasTriple(l) && PlainPattern(tp)
    ensures var r := Bgp([tp]);
      MinusSidesOf(l, r) && Vars(r) == TripleVars(tp) && MadeByTriple(tp, Compile(l, c).next) <= Made(Minus(l, r), c)
  {
    CompileOne(tp, Compile(l, c).next);
  }

  lemma MetRows(l: Pattern, tp: TriplePattern, c: nat, d: Listing, data: seq<Triple>)
    requires JoinTree(l) && HasTriple(l) && PlainPattern(tp) && Aligned(d.edges, data)
    requires var r := Bgp([tp]); Made(Minus(l, r), c) !! Vars(l) + Vars(r)
    ensures AllMet(LeftAnswer(l, c, d), Eval(l, data), tp, Compile(l, c).next, Vars(l) + TripleVars(tp))
    ensures forall m :: m in Eval(l, data) ==> m.Keys == Vars(l)
  {
    OneTripleSides(l, tp, c);
    LeftAnswerStands(l, Bgp([tp]), c, d, data);
    MetFrom(LeftAnswer(l, c, d), Eval(l, data), tp, Compile(l, c).next, Vars(l) + TripleVars(tp));
  }

  lemma VariablesOnLeft(l: Pattern, c: nat, d: Listing)
    requires VarTree(l) && HasTriple(l)
    ensures JoinTree(l) && MeetsOwn(l, c, d) && LeftAnswer(l, c, d) == MatchAll(Compile(l, c).parts, map[], d.edges)
  {
    VarTreeIsJoinTree(l, c);
    RunJoinTree(l, c, d);
    WhereNone(MatchAll(Compile(l, c).parts, map[], d.edges), d);
  }

  lemma RightIfOffered(l: Pattern, r: Pattern, c: nat, d: Listing, ts: seq<Triple>, data: seq<Triple>)
    requires Serves(d, ts, data) && VarTree(l) && HasTriple(l) && JoinTree(r) && HasTriple(r)
    requires Made(LeftJoin(l, r, None), c) !! Vars(l) + Vars(r)
    ensures Right(LeftJoin(l, r, None), c, d, data, Vars(l) + Vars(r)) <==> OffersOnlyOwn(l, r, None, c, d)
  {
    VariablesOnLeft(l, c, d);
    OptionalExact(l, r, None, c, d, ts, data);
  }

  lemma OffersConstantOnly(l: Pattern, v: string, q: string, k: string, c: nat, d: Listing, ts: seq<Triple>, data: seq<Triple>)
    requires Serves(d, ts, data) && VarTree(l) && HasTriple(l) && JoinTree(l) && Clean(q) && PlainTerm(Iri(k))
    requires var r := Bgp([ToConstant(v, q, k)]); Made(Minus(l, r), c) !! Vars(l) + Vars(r)
    ensures OffersOnlyOwn(l, Bgp([ToConstant(v, q, k)]), None, c, d)
      <==> forall m :: m in Eval(l, data) ==> EndsAtOnly(m, v, q, k, data, v in Vars(l))
  {
    var tp, next := ToConstant(v, q, k), Compile(l, c).next;
    var aligned := AlignedData(d, ts, data);
    CompileOne(tp, next);
    VariablesOnLeft(l, c, d);
    MetRows(l, tp, c, d, aligned);
    OffersThroughout(LeftAnswer(l, c, d), Eval(l, aligned), v, q, k, next, Vars(l) + TripleVars(tp), d, ts, data, v in Vars(l));
    SameMembers(l, aligned, data);
    assert v in Vars(l) <==> Vars(Bgp([tp])) <= Vars(l);
  }

  /** l OPTIONAL { ?v q <k> } with nothing but variables in l: right if and only if, for every solution
      of l, all triples with q that start where it has v end at k, or there is only one and l binds v. */
  lemma OptionalConstantExact(l: Pattern, v: string, q: string, k: string, c: nat, d: Listing, ts: seq<Triple>, data: seq<Triple>)
    requires Serves(d, ts, data) && VarTree(l) && HasTriple(l) && Clean(q) && PlainTerm(Iri(k))
    requires var r := Bgp([ToConstant(v, q, k)]); Made(LeftJoin(l, r, None), c) !! Vars(l) + Vars(r)
    ensures var r := Bgp([ToConstant(v, q, k)]);
      Right(LeftJoin(l, r, None), c, d, data, Vars(l) + Vars(r))
      <==> forall m :: m in Eval(l, data) ==> EndsAtOnly(m, v, q, k, data, v in Vars(l))
  {
    var r := Bgp([ToConstant(v, q, k)]);
    VarTreeIsJoinTree(l, c);
    assert JoinTree(r) && HasTriple(r) && Made(Minus(l, r), c) == Made(LeftJoin(l, r, None), c);
    OffersConstantOnly(l, v, q, k, c, d, ts, data);
    RightIfOffered(l, r, c, d, ts, data);
  }

  /** Whatever the data says of v by q, it says k. */
  ghost predicate SaysConstant(m: Row, v: string, q: string, k: string, data: seq<Triple>) {
    (exists t :: t in data && Reaches(m, v, q, t)) ==> exists t :: t in data && Reaches(m, v, q, t) && t.obj == Iri(k)
  }

  lemma FoundAtAll(x: CRow, m: Row, v: string, q: string, k: string, c: nat, users: set<string>, d: Listing,
                   ts: seq<Triple>, data: seq<Triple>)
    requires Serves(d, ts, data) && Met(x, m, ToConstant(v, q, k), c, users) && Clean(q) && PlainTerm(Iri(k))
    ensures MatchPart(CompileTriple(ToConstant(v, q, k), c).parts[0], x, d.edges) != []
      <==> exists t :: t in data && Reaches(m, v, q, t)
  {
    var rows := MatchPart(CompileTriple(ToConstant(v, q, k), c).parts[0], x, d.edges);
    if t :| t in data && Reaches(m, v, q, t) {
      var y := ReachedRow(x, m, v, q, k, c, users, d, ts, data, t);
    }
    if rows != [] {
      var t := FoundTriple(x, m, v, q, k, c, users, d, ts, data, rows[0]);
    }
  }

  lemma FoundAtConstant(x: CRow, m: Row, v: string, q: string, k: string, c: nat, users: set<string>, d: Listing,
                        ts: seq<Triple>, data: seq<Triple>)
    requires Serves(d, ts, data) && Met(x, m, ToConstant(v, q, k), c, users) && Clean(q) && PlainTerm(Iri(k))
    ensures var out := CompileTriple(ToConstant(v, q, k), c);
      Where(out.conds, MatchPart(out.parts[0], x, d.edges), d) != []
      <==> exists t :: t in data && Reaches(m, v, q, t) && t.obj == Iri(k)
  {
    var out := CompileTriple(ToConstant(v, q, k), c);
    var rows := MatchPart(out.parts[0], x, d.edges);
    if t :| t in data && Reaches(m, v, q, t) && t.obj == Iri(k) {
      var y := ReachedRow(x, m, v, q, k, c, users, d, ts, data, t);
      TripleEdge(d, ts, data, t);
      RowAtConstant(x, m, v, q, k, c, users, d, t, y);
      WhereMember(out.conds, rows, d, y);
    }
    if Where(out.conds, rows, d) != [] {
      var y := Where(out.conds, rows, d)[0];
      KeptRow(out.conds, rows, d, y);
      var t := FoundTriple(x, m, v, q, k, c, users, d, ts, data, y);
      TripleEdge(d, ts, data, t);
      RowAtConstant(x, m, v, q, k, c, users, d, t, y);
    }
  }

  lemma ExcludesByConstant(x: CRow, m: Row, v: string, q: string, k: string, c: nat, users: set<string>, d: Listing,
                           ts: seq<Triple>, data: seq<Triple>)
    requires Serves(d, ts, data) && Met(x, m, ToConstant(v, q, k), c, users) && Clean(q) && PlainTerm(Iri(k))
    ensures ExcludesExactly(Compile(Bgp([ToConstant(v, q, k)]), c), x, true, d) <==> SaysConstant(m, v, q, k, data)
  {
    OneTriple(ToConstant(v, q, k), c, x, d);
    FoundAtAll(x, m, v, q, k, c, users, d, ts, data);
    FoundAtConstant(x, m, v, q, k, c, users, d, ts, data);
  }

  lemma {:induction false} WhereMember(cs: seq<Cond>, rows: seq<CRow>, d: Listing, y: CRow)
    requires y in rows && AllTrue(cs, y, d)
    ensures y in Where(cs, rows, d)
  {
    if rows[0] != y { WhereMember(cs, rows[1..], d, y); }
  }

  lemma ExcludesThroughout(xs: seq<CRow>, ms: seq<Row>, v: string, q: string, k: string, c: nat, users: set<string>, d: Listing,
                           ts: seq<Triple>, data: seq<Triple>)
    requires Serves(d, ts, data) && AllMet(xs, ms, ToConstant(v, q, k), c, users) && Clean(q) && PlainTerm(Iri(k))
    ensures (forall x :: x in xs ==> ExcludesExactly(Compile(Bgp([ToConstant(v, q, k)]), c), x, true, d))
      <==> forall m :: m in ms ==> SaysConstant(m, v, q, k, data)
  {
    var right := Compile(Bgp([ToConstant(v, q, k)]), c);
    forall i | 0 <= i < |xs| ensures ExcludesExactly(right, xs[i], true, d) <==> SaysConstant(ms[i], v, q, k, data) {
      ExcludesByConstant(xs[i], ms[i], v, q, k, c, users, d, ts, data);
    }
    if forall x :: x in xs ==> ExcludesExactly(right, x, true, d) {
      forall m | m in ms ensures SaysConstant(m, v, q, k, data) {
        var i :| 0 <= i < |ms| && ms[i] == m;
        assert xs[i] in xs;
      }
    }
    if forall m :: m in ms ==> SaysConstant(m, v, q, k, data) {
      forall x | x in xs ensures ExcludesExactly(right, x, true, d) {
        var i :| 0 <= i < |xs| && xs[i] == x;
        assert ms[i] in ms;
      }
    }
  }

  /** l MINUS { ?v q <k> } where l binds v: right if and only if every solution of l whose v has some
      triple with q has one that ends at k. */
  lemma MinusConstantExact(l: Pattern, v: string, q: string, k: string, c: nat, d: Listing, ts: seq<Triple>, data: seq<Triple>,
                           vars: set<string>)
    requires Serves(d, ts, data) && JoinTree(l) && HasTriple(l) && v in Vars(l) && vars <= Vars(l)
    requires Clean(q) && PlainTerm(Iri(k))
    requires var r := Bgp([ToConstant(v, q, k)]); Made(Minus(l, r), c) !! Vars(l) + Vars(r)
    ensures Right(Minus(l, Bgp([ToConstant(v, q, k)])), c, d, data, vars)
      <==> forall m :: m in Eval(l, data) ==> SaysConstant(m, v, q, k, data)
  {
    var tp, left := ToConstant(v, q, k), Compile(l, c);
    var r := Bgp([tp]);
    var aligned := AlignedData(d, ts, data);
    CompileOne(tp, left.next);
    assert v in Vars(l) * Vars(r);
    MinusConditionsExact(l, r, c, d, ts, data, vars);
    MetRows(l, tp, c, d, aligned);
    ExcludesThroughout(LeftAnswer(l, c, d), Eval(l, aligned), v, q, k, left.next, Vars(l) + TripleVars(tp), d, ts, data);
    SameMembers(l, aligned, data);
  }

  // ----- inputs that are answered wrongly

  lemma BgpSolution(tp: TriplePattern, data: seq<Triple>, m: Row, t: Triple)
    requires t in data && m.Keys == TripleVars(tp) && Matches(tp, m, t)
    ensures m in Eval(Bgp([tp]), data)
  {
    CompileOne(tp, 0);
    EvalBgpMember([tp], data, m);
  }

  function BetweenVars(v: string, p: string, w: string): TriplePattern {
    TriplePattern(Var(v), PredIri(p), Var(w))
  }

  lemma CompileBetween(v: string, p: string, w: string, c: nat)
    requires Clean(p)
    ensures var l := Bgp([BetweenVars(v, p, w)]);
      VarTree(l) && HasTriple(l) && Vars(l) == {v, w} && Made(l, c) == {Fresh("r", c)} && Compile(l, c).next == c + 1
  {
    CompileOne(BetweenVars(v, p, w), c);
  }

  lemma OnlyTriple(t: Triple, d: Listing, data: seq<Triple>)
    requires Serves(d, [t], data)
    ensures IsEdgeTriple(t) && PlainTriple(t) && t in data && forall u :: u in data ==> u == t
  {
    assert t in [t] && t in Elements([t]) && t in Elements(data);
    forall u | u in data ensures u == t {
      assert u in Elements(data) && u in Elements([t]);
    }
  }

  lemma SolutionBetween(v: string, w: string, t: Triple, data: seq<Triple>) returns (m: Row)
    requires v != w && t in data
    ensures m.Keys == {v, w} && m[v] == t.subj && m[w] == t.obj && m in Eval(Bgp([BetweenVars(v, t.pred, w)]), data)
  {
    m := map[v := t.subj, w := t.obj];
    BgpSolution(BetweenVars(v, t.pred, w), data, m, t);
  }

  /** On data with the one triple a p b, where a is not b, OPTIONAL { ?s p ?w FILTER(sameTerm(?s, ?w)) } after
      ?s p ?o is answered rightly, but OPTIONAL { { ?s p ?w FILTER(sameTerm(?s, ?w)) } FILTER(BOUND(?w)) } is not:
      ?w comes back as b. */
  lemma OptionalFilterWrong(t: Triple, s: string, o: string, w: string, d: Listing, data: seq<Triple>)
    requires Serves(d, [t], data) && t.subj != t.obj
    requires s != o && s != w && o != w && {Fresh("r", 0), Fresh("r", 1)} !! {s, o, w}
    ensures var l, r := Bgp([BetweenVars(s, t.pred, o)]), Bgp([BetweenVars(s, t.pred, w)]);
      && Right(LeftJoin(l, r, Some(SameTerm(s, w))), 0, d, data, Vars(l) + Vars(r))
      && !Right(LeftJoin(l, Filter(r, SameTerm(s, w)), Some(Bound(w))), 0, d, data, Vars(l) + Vars(r))
  {
    var l, r, f := Bgp([BetweenVars(s, t.pred, o)]), Bgp([BetweenVars(s, t.pred, w)]), SameTerm(s, w);
    OnlyTriple(t, d, data);
    TwoBetween(s, t.pred, o, w);
    var m := SolutionBetween(s, o, t, data);
    var x := SolutionBetween(s, w, t, data);
    assert EvalExpr(f, x) == No && Compatible(m, x) && w in m + x;
    FilterKept(l, r, f, d, [t], data);
    FilterFails(l, r, f, Bound(w), m, x, d, [t], data);
  }

  lemma TwoBetween(s: string, p: string, o: string, w: string)
    requires Clean(p)
    ensures var l, r := Bgp([BetweenVars(s, p, o)]), Bgp([BetweenVars(s, p, w)]);
      && VarTree(l) && VarTree(r) && HasTriple(l) && HasTriple(r) && Vars(l) == {s, o} && Vars(r) == {s, w}
      && Made(LeftJoin(l, r, None), 0) == Made(Join(l, r), 0) == {Fresh("r", 0), Fresh("r", 1)}
  {
    CompileBetween(s, p, o, 0);
    CompileBetween(s, p, w, 1);
  }

  lemma OneOptional(l: Pattern, r: Pattern, e: Expr)
    requires VarTree(l) && VarTree(r) && HasTriple(r) && Supported(e) && ExprVars(e) <= Vars(l) + Vars(r)
    ensures OptionalQuery(LeftJoin(l, r, Some(e))) && Made(LeftJoin(l, r, Some(e)), 0) == Made(LeftJoin(l, r, None), 0)
  {
  }

  /** The filter that stands directly in the OPTIONAL is its LeftJoin's condition, and is kept. */
  lemma FilterKept(l: Pattern, r: Pattern, f: Expr, d: Listing, ts: seq<Triple>, data: seq<Triple>)
    requires Serves(d, ts, data) && VarTree(l) && VarTree(r) && HasTriple(r)
    requires Supported(f) && ExprVars(f) <= Vars(l) + Vars(r) && Made(LeftJoin(l, r, None), 0) !! Vars(l) + Vars(r)
    ensures Right(LeftJoin(l, r, Some(f)), 0, d, data, Vars(l) + Vars(r))
  {
    OneOptional(l, r, f);
    OptionalCorrect(LeftJoin(l, r, Some(f)), 0, d, ts, data, Vars(l) + Vars(r));
  }

  lemma FilterFails(l: Pattern, r: Pattern, f: Expr, e: Expr, m: Row, x: Row, d: Listing, ts: seq<Triple>, data: seq<Triple>)
    requires Serves(d, ts, data) && VarTree(l) && VarTree(r) && HasTriple(r)
    requires Supported(e) && ExprVars(e) <= Vars(l) + Vars(r)
    requires Made(LeftJoin(l, r, None), 0) !! Vars(l) + Vars(r) && !(Vars(r) <= Vars(l))
    requires m in Eval(l, data) && x in Eval(r, data) && Extending(m, x, Some(e)) && !Accepts(Some(f), x)
    ensures !Right(LeftJoin(l, Filter(r, f), Some(e)), 0, d, data, Vars(l) + Vars(r))
  {
    OneOptional(l, r, e);
    OptionalFilterExact(l, r, f, Some(e), 0, d, ts, data);
  }

  lemma ConstantFails(l: Pattern, v: string, q: string, k: string, m: Row, t: Triple, d: Listing, ts: seq<Triple>, data: seq<Triple>)
    requires Serves(d, ts, data) && VarTree(l) && HasTriple(l) && v in Vars(l) && Clean(q) && PlainTerm(Iri(k))
    requires var r := Bgp([ToConstant(v, q, k)]); Made(Minus(l, r), 0) !! Vars(l) + Vars(r)
    requires m in Eval(l, data) && t in data && Reaches(m, v, q, t)
    requires forall u :: u in data && Reaches(m, v, q, u) ==> u.obj != Iri(k)
    ensures !Right(Minus(l, Bgp([ToConstant(v, q, k)])), 0, d, data, Vars(l))
  {
    VarTreeIsJoinTree(l, 0);
    MinusConstantExact(l, v, q, k, 0, d, ts, data, Vars(l));
    assert !SaysConstant(m, v, q, k, data);
  }

  lemma BetweenAndConstant(s: string, p: string, o: string, k: string)
    requires Clean(p)
    ensures var l, r := Bgp([BetweenVars(s, p, o)]), Bgp([ToConstant(s, p, k)]);
      && VarTree(l) && HasTriple(l) && Vars(l) == {s, o} && Vars(r) == {s}
      && Made(Minus(l, r), 0) == {Fresh("r", 0), Fresh("n", 1), Fresh("r", 2)}
  {
    CompileBetween(s, p, o, 0);
    CompileOne(ToConstant(s, p, k), 1);
    PathToConstant(s, p, k, 1);
  }

  /** On the same data, ?s p ?o MINUS { ?s p <k> } is answered wrongly if b is not k: its one row is gone. */
  lemma MinusConstantWrong(t: Triple, s: string, o: string, k: string, d: Listing, data: seq<Triple>)
    requires Serves(d, [t], data) && PlainTerm(Iri(k)) && t.obj != Iri(k)
    requires s != o && {Fresh("r", 0), Fresh("n", 1), Fresh("r", 2)} !! {s, o}
    ensures var l := Bgp([BetweenVars(s, t.pred, o)]);
      !Right(Minus(l, Bgp([ToConstant(s, t.pred, k)])), 0, d, data, Vars(l))
  {
    OnlyTriple(t, d, data);
    BetweenAndConstant(s, t.pred, o, k);
    var m := SolutionBetween(s, o, t, data);
    ConstantFails(Bgp([BetweenVars(s, t.pred, o)]), s, t.pred, k, m, t, d, [t], data);
  }
}
