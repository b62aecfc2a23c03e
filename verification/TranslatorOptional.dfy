/** OPTIONAL: chains of OPTIONAL MATCH against nested LeftJoins, for parts without conditions of their own. */
module TranslatorOptional {
  import opened Common
  import opened Rdf
  import opened PropertyGraph
  import opened CypherQuery
  import opened S = Sparql
  import opened Translator
  import opened TranslatorJoins
  import opened TranslatorTheorem
  import opened TranslatorResults

  // ----- OPTIONAL

  /** Basic graph patterns and joins all of whose ends are variables: they compile to no condition. */
  predicate VarTree(p: Pattern) {
    match p
    case Bgp(tps) => forall i :: 0 <= i < |tps| ==> PlainPattern(tps[i]) && tps[i].subj.Var? && tps[i].obj.Var?
    case Join(l, r) => VarTree(l) && VarTree(r)
    case _ => false
  }

  lemma {:induction false} VarTreeIsJoinTree(p: Pattern, c: nat)
    requires VarTree(p)
    ensures JoinTree(p) && Compile(p, c).conds == []
  {
    match p
    case Bgp(tps) => BgpNoConds(tps, c);
    case Join(l, r) =>
      VarTreeIsJoinTree(l, c);
      VarTreeIsJoinTree(r, Compile(l, c).next);
  }

  lemma {:induction false} BgpNoConds(tps: seq<TriplePattern>, c: nat)
    requires forall i :: 0 <= i < |tps| ==> tps[i].subj.Var? && tps[i].obj.Var?
    ensures CompileBgp(tps, c).conds == []
  {
    if tps != [] { BgpNoConds(tps[1..], CompileTriple(tps[0], c).next); }
  }

  /** The part of a chain of OPTIONALs that every solution binds. */
  function Mandatory(p: Pattern): Pattern {
    if p.LeftJoin? then Mandatory(p.left) else p
  }

  /** A left-deep chain of OPTIONALs without filters, well designed: what an optional part shares
      with the parts before it, it shares with the mandatory part. */
  predicate Chain(p: Pattern) {
    match p
    case LeftJoin(l, r, e) =>
      e.None? && Chain(l) && VarTree(r) && HasTriple(r) && Vars(r) * Vars(l) <= Vars(Mandatory(l))
    case _ => VarTree(p)
  }

  /** Such a chain with a filter at most on its last OPTIONAL. */
  predicate OptionalQuery(p: Pattern) {
    && p.LeftJoin? && Chain(p.left) && VarTree(p.right) && HasTriple(p.right)
    && Vars(p.right) * Vars(p.left) <= Vars(Mandatory(p.left))
    && (p.expr.Some? ==> Supported(p.expr.value) && ExprVars(p.expr.value) <= Vars(p))
  }

  /** A row in the middle of a chain: it binds the chain's variables and no other name of the
      query, the mandatory ones to nodes. */
  ghost predicate ChainRow(r: CRow, p: Pattern, next: nat, users: set<string>) {
    && Below(r, next, users)
    && Vars(Mandatory(p)) <= r.Keys && NodesAt(r, Vars(Mandatory(p)))
    && forall v :: v in users && v in r ==> v in Vars(p)
  }

  lemma {:induction false} GrownBindsOnlyPart(p: Pattern, c: nat, r: CRow, edges: seq<Edge>, users: set<string>)
    requires JoinTree(p) && Vars(p) <= users && Made(p, c) !! users
    ensures forall r' :: r' in MatchAll(Compile(p, c).parts, r, edges) ==>
      forall v :: v in users && v in r' && v !in r ==> v in Vars(p)
  {
    JoinTreePartVars(p, c);
    forall r', v | r' in MatchAll(Compile(p, c).parts, r, edges) && v in users && v in r' && v !in r ensures v in Vars(p) {
      MatchAllBinds(Compile(p, c).parts, r, edges, r');
    }
  }

  lemma {:induction false} MatchPartBinds(p: Part, r: CRow, edges: seq<Edge>, r': CRow)
    requires p.PathPart? && r' in MatchPart(p, r, edges)
    ensures r'.Keys <= r.Keys + {p.path.source, p.path.rel, p.path.target}
  {
    if r' !in ToSeq(MatchPath(p.path, edges[0], r)) { MatchPartBinds(p, r, edges[1..], r'); }
  }

  lemma {:induction false} MatchAllBinds(parts: seq<Part>, r: CRow, edges: seq<Edge>, r': CRow)
    requires PathsOnly(parts) && r' in MatchAll(parts, r, edges)
    ensures r'.Keys <= r.Keys + PartVars(parts)
    decreases |parts|
  {
    if parts != [] {
      var rows := MatchPart(parts[0], r, edges);
      MatchEachMember(parts[1..], rows, edges, r');
      var r1 :| r1 in rows && r' in MatchAll(parts[1..], r1, edges);
      MatchPartBinds(parts[0], r, edges, r1);
      MatchAllBinds(parts[1..], r1, edges, r');
      PartVarsCons(parts);
    }
  }

  lemma PartVarsCons(parts: seq<Part>)
    requires parts != [] && PathsOnly(parts)
    ensures PartVars(parts) == {parts[0].path.source, parts[0].path.rel, parts[0].path.target} + PartVars(parts[1..])
  {
    var tail := parts[1..];
    forall v ensures v in PartVars(parts)
      <==> v in {parts[0].path.source, parts[0].path.rel, parts[0].path.target} + PartVars(tail)
    {
      if v in PartVars(tail) {
        var i :| 0 <= i < |tail| && tail[i].PathPart? && v in [tail[i].path.source, tail[i].path.rel, tail[i].path.target];
        assert parts[i + 1] == tail[i];
      }
      if v in PartVars(parts) {
        var i :| 0 <= i < |parts| && parts[i].PathPart? && v in [parts[i].path.source, parts[i].path.rel, parts[i].path.target];
        if i > 0 { assert tail[i - 1] == parts[i]; }
      }
      if v in {parts[0].path.source, parts[0].path.rel, parts[0].path.target} {
        assert v in [parts[0].path.source, parts[0].path.rel, parts[0].path.target];
      }
    }
  }

  lemma PartVarsConcat(a: seq<Part>, b: seq<Part>)
    requires PathsOnly(a) && PathsOnly(b)
    ensures PartVars(a + b) == PartVars(a) + PartVars(b)
    decreases |a|
  {
    if a == [] {
      assert a + b == b;
    } else {
      assert (a + b)[1..] == a[1..] + b;
      PartVarsCons(a);
      PartVarsCons(a + b);
      PartVarsConcat(a[1..], b);
    }
  }

  /** The variables of the emitted paths are those of the pattern and the names made up for it. */
  lemma {:induction false} JoinTreePartVars(p: Pattern, c: nat)
    requires JoinTree(p)
    ensures PathsOnly(Compile(p, c).parts) && PartVars(Compile(p, c).parts) == Vars(p) + Made(p, c)
  {
    JoinTreeParts(p, c);
    match p
    case Bgp(tps) => BgpPartVars(tps, c);
    case Filter(q, _) => JoinTreePartVars(q, c);
    case Join(l, r) =>
      var a := Compile(l, c);
      JoinTreeParts(l, c);
      JoinTreeParts(r, a.next);
      JoinTreePartVars(l, c);
      JoinTreePartVars(r, a.next);
      PartVarsConcat(a.parts, Compile(r, a.next).parts);
  }

  lemma {:induction false} BgpPartVars(tps: seq<TriplePattern>, c: nat)
    requires forall i :: 0 <= i < |tps| ==> PlainPattern(tps[i])
    ensures PathsOnly(CompileBgp(tps, c).parts) && PartVars(CompileBgp(tps, c).parts) == BgpVars(tps) + MadeByBgp(tps, c)
  {
    if tps != [] {
      var a := CompileTriple(tps[0], c);
      var parts := CompileBgp(tps, c).parts;
      var rest := CompileBgp(tps[1..], a.next).parts;
      BgpParts(tps, c);
      BgpPartVars(tps[1..], a.next);
      TriplePartVars(tps[0], c);
      assert parts[0] == a.parts[0] && parts[1..] == rest;
      PartVarsCons(parts);
    }
  }

  lemma TriplePartVars(tp: TriplePattern, c: nat)
    requires PlainPattern(tp)
    ensures var path := CompileTriple(tp, c).parts[0].path;
      {path.source, path.rel, path.target} == TripleVars(tp) + MadeByTriple(tp, c)
  {
  }

  lemma NullsStand(r: CRow, m: Row, parts: seq<Part>, users: set<string>)
    requires Stands(r, m, users)
    ensures Stands(WithNulls(r, parts), m, users)
  {
    assert ReturnRow(WithNulls(r, parts), users) == ReturnRow(r, users);
  }

  /** No name here is one the counter will still give out. */
  ghost predicate NamesBelow(names: set<string>, c: nat, users: set<string>) {
    forall prefix, n :: prefix in PREFIXES && n >= c && Fresh(prefix, n) !in users ==> Fresh(prefix, n) !in names
  }

  lemma {:induction false} JoinTreeNamesBelow(p: Pattern, c: nat, users: set<string>)
    requires JoinTree(p) && Vars(p) <= users && Made(p, c) !! users
    ensures c <= Compile(p, c).next && NamesBelow(PartVars(Compile(p, c).parts), Compile(p, c).next, users)
  {
    JoinTreeParts(p, c);
    match p
    case Bgp(tps) => BgpNamesBelow(tps, c, users);
    case Filter(q, _) => JoinTreeNamesBelow(q, c, users);
    case Join(l, r) =>
      var a := Compile(l, c);
      JoinTreeParts(l, c);
      JoinTreeParts(r, a.next);
      JoinTreeNamesBelow(l, c, users);
      JoinTreeNamesBelow(r, a.next, users);
      PartVarsConcat(a.parts, Compile(r, a.next).parts);
  }

  lemma PathNamesBelow(tp: TriplePattern, c: nat, users: set<string>)
    requires PlainPattern(tp) && TripleVars(tp) <= users && MadeByTriple(tp, c) !! users
    ensures var out := CompileTriple(tp, c);
      var path := out.parts[0].path;
      c < out.next && NamesBelow({path.source, path.rel, path.target}, out.next, users)
  {
    var s := TermToCypher(tp.subj, c);
    var o := TermToCypher(tp.obj, s.next);
    assert "n" in PREFIXES && "r" in PREFIXES;
    FreshIsOld("n", c);
    FreshIsOld("n", s.next);
    FreshIsOld("r", o.next);
  }

  lemma {:induction false} BgpNamesBelow(tps: seq<TriplePattern>, c: nat, users: set<string>)
    requires forall i :: 0 <= i < |tps| ==> PlainPattern(tps[i])
    requires BgpVars(tps) <= users && MadeByBgp(tps, c) !! users
    ensures c <= CompileBgp(tps, c).next && NamesBelow(PartVars(CompileBgp(tps, c).parts), CompileBgp(tps, c).next, users)
  {
    if tps != [] {
      var first := CompileTriple(tps[0], c);
      var out, rest := CompileBgp(tps, c), CompileBgp(tps[1..], first.next);
      PathNamesBelow(tps[0], c, users);
      BgpNamesBelow(tps[1..], first.next, users);
      BgpParts(tps, c);
      assert out.parts[0] == first.parts[0] && out.parts[1..] == rest.parts;
      PartVarsCons(out.parts);
    }
  }

  ghost predicate StepRow(r': CRow, r: CRow, next: nat, vars: set<string>, users: set<string>) {
    Extends(r', r) && Below(r', next, users) && forall v :: v in users && v in r' && v !in r ==> v in vars
  }

  lemma OptionalStepRows(p: Pattern, conds: seq<Cond>, c: nat, r: CRow, d: Listing, users: set<string>)
    requires VarTree(p) && Vars(p) <= users && Made(p, c) !! users && Below(r, c, users) && NodesAt(r, Vars(p))
    ensures var out := Compile(p, c);
      forall r' :: r' in OptionalRow(conds, out.parts, r, d) ==> StepRow(r', r, out.next, Vars(p), users)
  {
    var out := Compile(p, c);
    VarTreeIsJoinTree(p, c);
    RowsGrown(p, c, r, d.edges, users);
    GrownBindsOnlyPart(p, c, r, d.edges, users);
    JoinTreePartVars(p, c);
    JoinTreeNamesBelow(p, c, users);
    var matched := MatchAll(out.parts, r, d.edges);
    WhereSubset(conds, matched, d);
    forall r' | r' in OptionalRow(conds, out.parts, r, d) ensures StepRow(r', r, out.next, Vars(p), users) {
      if Where(conds, matched, d) != [] {
        assert r' in matched && Grown(r', r, out, Vars(p), users);
      } else {
        assert r' == WithNulls(r, out.parts);
      }
    }
  }

  /** One row through one OPTIONAL MATCH. */
  lemma OptionalStep(p: Pattern, e: Option<Expr>, c: nat, r: CRow, m: Row, d: Listing, data: seq<Triple>, users: set<string>)
    requires VarTree(p) && Ready(d, data, Vars(p), Made(p, c), users)
    requires Stands(r, m, users) && Below(r, c, users) && NodesAt(r, Vars(p))
    requires e.Some? ==> Supported(e.value) && ExprVars(e.value) <= users
    ensures var out := Compile(p, c);
      var conds := if e.Some? then FilterConds(e.value) else [];
      var rows := OptionalRow(conds, out.parts, r, d);
      && AllStand(rows, LeftJoinRow(m, Eval(p, data), e), users)
      && forall r' :: r' in rows ==> StepRow(r', r, out.next, Vars(p), users)
  {
    var out := Compile(p, c);
    var conds := if e.Some? then FilterConds(e.value) else [];
    VarTreeIsJoinTree(p, c);
    CompileCorrect(p, c, r, m, d, data, users);
    var matched, joined := MatchAll(out.parts, r, d.edges), JoinRow(m, Eval(p, data));
    WhereNone(matched, d);
    EvalShape(p, d.edges, data);
    JoinRowShape(m, Eval(p, data), Vars(p));
    AllStandFromReturn(matched, joined, users);
    FilterStands(e, matched, joined, users, d);
    JoinTreePartVars(p, c);
    NullsStand(r, m, out.parts, users);
    OptionalStepRows(p, conds, c, r, d, users);
  }

  lemma FilterStands(e: Option<Expr>, rs: seq<CRow>, ms: seq<Row>, users: set<string>, d: Listing)
    requires e.Some? ==> Supported(e.value) && ExprVars(e.value) <= users
    requires AllStand(rs, ms, users)
    ensures var conds := if e.Some? then FilterConds(e.value) else [];
      AllStand(Where(conds, rs, d), FilterRows(e, ms), users)
  {
    ReturnFromAllStand(rs, ms, users);
    FilterRowsSubset(e, ms);
    if e.Some? {
      WhereHolds(e.value, rs, ms, users, d);
      AllStandFromReturn(Where(FilterConds(e.value), rs, d), FilterRows(e, ms), users);
    } else {
      WhereNone(rs, d);
      FilterNone(ms);
    }
  }

  lemma {:induction false} FilterNone(ms: seq<Row>)
    ensures FilterRows(None, ms) == ms
  {
    if ms != [] { FilterNone(ms[1..]); }
  }

  lemma {:induction false} ReturnFromAllStand(rs: seq<CRow>, ms: seq<Row>, users: set<string>)
    requires AllStand(rs, ms, users)
    ensures ReturnAll(rs, users) == EncodeAll(ms) && forall m :: m in ms ==> PlainRow(m)
  {
    if rs != [] {
      assert Stands(rs[0], ms[0], users);
      ReturnFromAllStand(rs[1..], ms[1..], users);
      assert ms == [ms[0]] + ms[1..];
    }
  }

  lemma AllStandConcat(a: seq<CRow>, b: seq<CRow>, ma: seq<Row>, mb: seq<Row>, users: set<string>)
    requires AllStand(a, ma, users) && AllStand(b, mb, users)
    ensures AllStand(a + b, ma + mb, users)
  {
    ReturnFromAllStand(a, ma, users);
    ReturnFromAllStand(b, mb, users);
    ReturnAllConcat(a, b, users);
    EncodeAllConcat(ma, mb);
    AllStandFromReturn(a + b, ma + mb, users);
  }

  lemma {:induction false} OptionalStepEach(before: Pattern, p: Pattern, e: Option<Expr>, c: nat, rs: seq<CRow>,
                                            ms: seq<Row>, d: Listing, data: seq<Triple>, users: set<string>)
    requires VarTree(p) && Ready(d, data, Vars(p), Made(p, c), users)
    requires Vars(p) * Vars(before) <= Vars(Mandatory(before))
    requires AllStand(rs, ms, users) && forall r :: r in rs ==> ChainRow(r, before, c, users)
    requires e.Some? ==> Supported(e.value) && ExprVars(e.value) <= users
    ensures var out := Compile(p, c);
      var rows := OptionalEach(if e.Some? then FilterConds(e.value) else [], out.parts, rs, d);
      && AllStand(rows, LeftJoinRows(ms, Eval(p, data), e), users)
      && forall r :: r in rows ==> ChainRow(r, LeftJoin(before, p, e), out.next, users)
    decreases |rs|
  {
    if rs != [] {
      var out := Compile(p, c);
      var conds := if e.Some? then FilterConds(e.value) else [];
      assert rs[0] in rs && ChainRow(rs[0], before, c, users) && Stands(rs[0], ms[0], users);
      OptionalStep(p, e, c, rs[0], ms[0], d, data, users);
      OptionalStepEach(before, p, e, c, rs[1..], ms[1..], d, data, users);
      var head, tail := OptionalRow(conds, out.parts, rs[0], d), OptionalEach(conds, out.parts, rs[1..], d);
      AllStandConcat(head, tail, LeftJoinRow(ms[0], Eval(p, data), e), LeftJoinRows(ms[1..], Eval(p, data), e), users);
      forall r | r in head ensures ChainRow(r, LeftJoin(before, p, e), out.next, users) {
        assert StepRow(r, rs[0], out.next, Vars(p), users);
      }
    }
  }

  // ----- the whole chain

  /** Rows of the clauses so far, and the solutions of the chain so far. */
  lemma {:induction false} ChainCorrect(p: Pattern, c: nat, d: Listing, data: seq<Triple>, users: set<string>)
    requires Chain(p) && Ready(d, data, Vars(p), Made(p, c), users)
    ensures var out := Compile(p, c);
      var rows := RunFrom(Clauses(out.parts, []), [], [map[]], d);
      && out.conds == []
      && AllStand(rows, Eval(p, data), users)
      && forall r :: r in rows ==> ChainRow(r, p, out.next, users)
  {
    if p.LeftJoin? {
      var left := Compile(p.left, c);
      var right := Compile(p.right, left.next);
      ChainCorrect(p.left, c, d, data, users);
      VarTreeIsJoinTree(p.right, left.next);
      JoinTreeParts(p.right, left.next);
      ClausesThenOptional(left.parts, [], right.parts);
      RunThenLast(Clauses(left.parts, []), OptionalMatch(right.parts), [], [map[]], d);
      var rs := RunFrom(Clauses(left.parts, []), [], [map[]], d);
      OptionalStepEach(p.left, p.right, None, left.next, rs, Eval(p.left, data), d, data, users);
    } else {
      MandatoryPart(p, c, d, data, users);
    }
  }

  lemma MandatoryPart(p: Pattern, c: nat, d: Listing, data: seq<Triple>, users: set<string>)
    requires VarTree(p) && Ready(d, data, Vars(p), Made(p, c), users)
    ensures var out := Compile(p, c);
      var rows := RunFrom(Clauses(out.parts, []), [], [map[]], d);
      && out.conds == []
      && AllStand(rows, Eval(p, data), users)
      && forall r :: r in rows ==> ChainRow(r, p, out.next, users)
  {
    var out := Compile(p, c);
    var start: seq<CRow> := [map[]];
    VarTreeIsJoinTree(p, c);
    JoinTreeParts(p, c);
    ClausesOfPaths(out.parts, []);
    assert [] + out.parts == out.parts;
    var rows := RunFrom(Clauses(out.parts, []), [], start, d);
    assert rows == MatchAll(out.parts, map[], d.edges) by {
      if out.parts != [] {
        MatchEachOne(out.parts, map[], d.edges);
        WhereNone(MatchAll(out.parts, map[], d.edges), d);
      }
    }
    StandsAtStart(users);
    CompileCorrect(p, c, map[], map[], d, data, users);
    WhereNone(rows, d);
    JoinRowOfEmptyRow(Eval(p, data));
    EvalShape(p, d.edges, data);
    AllStandFromReturn(rows, Eval(p, data), users);
    RowsGrown(p, c, map[], d.edges, users);
    GrownBindsOnlyPart(p, c, map[], d.edges, users);
    forall r | r in rows ensures ChainRow(r, p, out.next, users) {
      assert Grown(r, map[], out, Vars(p), users);
    }
  }

  lemma OptionalRows(p: Pattern, c: nat, d: Listing, data: seq<Triple>)
    requires OptionalQuery(p) && Ready(d, data, Vars(p), Made(p, c), Vars(p))
    ensures var out := Compile(p, c);
      AllStand(Run(MatchClauses(out.parts), out.conds, d), Eval(p, data), Vars(p))
  {
    var users := Vars(p);
    var left := Compile(p.left, c);
    var right := Compile(p.right, left.next);
    ChainCorrect(p.left, c, d, data, users);
    VarTreeIsJoinTree(p.right, left.next);
    JoinTreeParts(p.right, left.next);
    ClausesThenOptional(left.parts, [], right.parts);
    var rs := RunFrom(Clauses(left.parts, []), [], [map[]], d);
    OptionalStepEach(p.left, p.right, p.expr, left.next, rs, Eval(p.left, data), d, data, users);
    var conds := if p.expr.Some? then FilterConds(p.expr.value) else [];
    RunThenLast(Clauses(left.parts, []), OptionalMatch(right.parts), conds, [map[]], d);
    assert Compile(p, c).conds == [] + conds == conds;
  }

  /** A well-designed chain of OPTIONALs returns the bag of the nested LeftJoins. */
  lemma OptionalCorrect(p: Pattern, c: nat, d: Listing, ts: seq<Triple>, data: seq<Triple>, vars: set<string>)
    requires Serves(d, ts, data)
    requires OptionalQuery(p) && Made(p, c) !! Vars(p) && vars <= Vars(p)
    ensures Right(p, c, d, data, vars)
  {
    var aligned := AlignedData(d, ts, data);
    OptionalRows(p, c, d, aligned);
    var out := Compile(p, c);
    ProjectStanding(Run(MatchClauses(out.parts), out.conds, d), Eval(p, aligned), Vars(p), vars);
    EvalPermutation(p, aligned, data);
    ProjectPermutation(Eval(p, aligned), Eval(p, data), vars);
  }
}
