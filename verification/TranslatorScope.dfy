/** Filters of a group inside a join. The translation checks them at the end of the query, where the
    whole join is in scope; the algebra checks them inside the group. */
module TranslatorScope {
  import opened Common
  import opened Rdf
  import opened Schema
  import opened PropertyGraph
  import opened CypherGenerator
  import opened CypherQuery
  import opened S = Sparql
  import opened Translator
  import opened BgpSolutions
  import opened TranslatorJoins
  import opened TranslatorTheorem
  import opened TranslatorResults
  import opened TranslatorOptional
  import opened TranslatorDropped
  import opened TranslatorLimits
  import opened TranslatorConstants

  // ----- both sides filter the same join

  /** The rows whose part on vars the filter accepts. */
  function FilterInside(e: Expr, vars: set<string>, rows: seq<Row>): seq<Row> {
    if rows == [] then []
    else (if Accepts(Some(e), Restrict(rows[0], vars)) then [rows[0]] else []) + FilterInside(e, vars, rows[1..])
  }

  lemma {:induction false} FilterInsideConcat(e: Expr, vars: set<string>, a: seq<Row>, b: seq<Row>)
    ensures FilterInside(e, vars, a + b) == FilterInside(e, vars, a) + FilterInside(e, vars, b)
  {
    if a == [] {
      assert a + b == b;
    } else {
      assert (a + b)[1..] == a[1..] + b;
      FilterInsideConcat(e, vars, a[1..], b);
    }
  }

  lemma {:induction false} FilterInsideUniform(e: Expr, vars: set<string>, rows: seq<Row>, m: Row)
    requires forall x :: x in rows ==> Restrict(x, vars) == m
    ensures FilterInside(e, vars, rows) == if Accepts(Some(e), m) then rows else []
  {
    if rows != [] {
      assert rows[0] in rows && forall x :: x in rows[1..] ==> x in rows;
      FilterInsideUniform(e, vars, rows[1..], m);
    }
  }

  lemma {:induction false} FilterInsideMember(e: Expr, vars: set<string>, rows: seq<Row>)
    ensures forall x :: x in FilterInside(e, vars, rows) <==> x in rows && Accepts(Some(e), Restrict(x, vars))
  {
    if rows != [] {
      FilterInsideMember(e, vars, rows[1..]);
      assert rows == [rows[0]] + rows[1..];
    }
  }

  /** Filtering the left side before a join is filtering the join on the left side's variables. */
  lemma {:induction false} FilterBeforeJoin(e: Expr, a: seq<Row>, va: set<string>, b: seq<Row>, vb: set<string>)
    requires Binds(a, va) && Binds(b, vb)
    ensures JoinRows(FilterRows(Some(e), a), b) == FilterInside(e, va, JoinRows(a, b))
  {
    if a != [] {
      assert a[0] in a;
      FilterBeforeJoin(e, a[1..], va, b, vb);
      forall x | x in JoinRow(a[0], b) ensures Restrict(x, va) == a[0] {
        JoinRowMember(a[0], b, vb, x);
      }
      FilterInsideUniform(e, va, JoinRow(a[0], b), a[0]);
      FilterInsideConcat(e, va, JoinRow(a[0], b), JoinRows(a[1..], b));
      var kept := if Accepts(Some(e), a[0]) then [a[0]] else [];
      JoinRowsConcat(kept, FilterRows(Some(e), a[1..]), b);
      assert kept != [] ==> kept[1..] == [] && JoinRows(kept, b) == JoinRow(a[0], b) + [];
    }
  }

  lemma {:induction false} SameFilter(e: Expr, vars: set<string>, rows: seq<Row>)
    requires forall x :: x in rows ==> (Accepts(Some(e), x) <==> Accepts(Some(e), Restrict(x, vars)))
    ensures FilterRows(Some(e), rows) == FilterInside(e, vars, rows)
  {
    if rows != [] {
      assert rows[0] in rows;
      SameFilter(e, vars, rows[1..]);
    }
  }

  /** The filter says of every row what it says of the row's part on vars. */
  ghost predicate Agrees(e: Expr, vars: set<string>, rows: seq<Row>) {
    forall x :: x in rows ==> (Accepts(Some(e), x) <==> Accepts(Some(e), Restrict(x, vars)))
  }

  lemma EncodeAt(m: Row, v: string)
    requires v in m && PlainRow(m)
    ensures v in Encode(m) && Encode(m)[v] == NodeVal(KeyOf(m[v]))
  {
  }

  lemma EncodeInjective(a: Row, b: Row)
    requires PlainRow(a) && PlainRow(b) && Encode(a) == Encode(b)
    ensures a == b
  {
    assert a.Keys == Encode(a).Keys == Encode(b).Keys == b.Keys;
    forall v | v in a ensures a[v] == b[v] {
      EncodeAt(a, v);
      EncodeAt(b, v);
      KeyOfInjective(a[v], b[v]);
    }
  }

  lemma EncodedFilters(e: Expr, vars: set<string>, rows: seq<Row>)
    requires forall x :: x in rows ==> PlainRow(x)
    ensures SameBag(EncodeAll(FilterRows(Some(e), rows)), EncodeAll(FilterInside(e, vars, rows))) <==> Agrees(e, vars, rows)
  {
    var outside, inside := FilterRows(Some(e), rows), FilterInside(e, vars, rows);
    if Agrees(e, vars, rows) { SameFilter(e, vars, rows); }
    if SameBag(EncodeAll(outside), EncodeAll(inside)) {
      FilterMember(Some(e), rows);
      FilterInsideMember(e, vars, rows);
      forall x | x in rows ensures Accepts(Some(e), x) <==> Accepts(Some(e), Restrict(x, vars)) {
        EncodedMember(outside, rows, x);
        EncodedMember(inside, rows, x);
        assert Encode(x) in multiset(EncodeAll(outside)) <==> Encode(x) in EncodeAll(outside);
        assert Encode(x) in multiset(EncodeAll(inside)) <==> Encode(x) in EncodeAll(inside);
      }
    }
  }

  lemma EncodedMember(some: seq<Row>, rows: seq<Row>, x: Row)
    requires (forall y :: y in rows ==> PlainRow(y)) && x in rows && forall y :: y in some ==> y in rows
    ensures Encode(x) in EncodeAll(some) <==> x in some
  {
    EncodedMembers(some);
    if Encode(x) in EncodeAll(some) {
      var y :| y in some && Encode(x) == Encode(y);
      EncodeInjective(x, y);
    }
  }

  // ----- the query

  /** A filter on the left side of a join of join trees, over any variables. */
  function FilteredJoin(a: Pattern, e: Expr, b: Pattern): Pattern {
    Join(Filter(a, e), b)
  }

  lemma CompileFiltered(a: Pattern, e: Expr, b: Pattern, c: nat)
    ensures var left := Compile(a, c);
      var right := Compile(b, left.next);
      Compile(FilteredJoin(a, e, b), c) == Compiled(left.parts + right.parts, left.conds + FilterConds(e) + right.conds, left.vars + right.vars, right.next)
      && Compile(Join(a, b), c) == Compiled(left.parts + right.parts, left.conds + right.conds, left.vars + right.vars, right.next)
    ensures Made(FilteredJoin(a, e, b), c) == Made(Join(a, b), c)
  {
    var left := Compile(a, c);
    var inner := left.(conds := left.conds + FilterConds(e));
    assert Compile(Filter(a, e), c) == inner;
    JoinIs(Filter(a, e), b, c);
    JoinIs(a, b, c);
  }

  lemma JoinIs(a: Pattern, b: Pattern, c: nat)
    ensures Compile(Join(a, b), c) == Then(Compile(a, c), Compile(b, Compile(a, c).next))
    ensures Made(Join(a, b), c) == Made(a, c) + Made(b, Compile(a, c).next)
  {
  }

  /** The filter is checked on the rows of the whole join. */
  lemma RunFiltered(a: Pattern, e: Expr, b: Pattern, c: nat, d: Listing)
    requires JoinTree(Join(a, b)) && HasTriple(Join(a, b))
    ensures var p, q := FilteredJoin(a, e, b), Join(a, b);
      LeftAnswer(p, c, d) == Where(FilterConds(e), LeftAnswer(q, c, d), d)
  {
    var out, plain := Compile(FilteredJoin(a, e, b), c), Compile(Join(a, b), c);
    CompileFiltered(a, e, b, c);
    JoinTreeParts(Join(a, b), c);
    RunJoinTree(Join(a, b), c, d);
    ClausesOfPaths(out.parts, []);
    assert [] + out.parts == out.parts;
    MatchEachOne(out.parts, map[], d.edges);
    var rows := MatchAll(out.parts, map[], d.edges);
    WhereSameConds(out.conds, plain.conds + FilterConds(e), rows, d);
    WhereWhere(plain.conds, FilterConds(e), rows, d);
  }

  lemma FilteredRows(e: Expr, rows: seq<CRow>, ms: seq<Row>, users: set<string>, vars: set<string>, d: Listing)
    requires Supported(e) && ExprVars(e) <= users && AllStand(rows, ms, users)
    requires vars <= users && forall m :: m in ms ==> PlainRow(m) && m.Keys <= vars
    ensures ReturnAll(Where(FilterConds(e), rows, d), vars) == EncodeAll(FilterRows(Some(e), ms))
  {
    var kept, want := Where(FilterConds(e), rows, d), FilterRows(Some(e), ms);
    FilterRowsSubset(Some(e), ms);
    WhereHolds(e, rows, ms, users, d);
    AllStandFromReturn(kept, want, users);
    ProjectStanding(kept, want, users, vars);
    ProjectWide(want, vars);
  }

  lemma JoinStands(q: Pattern, c: nat, d: Listing, data: seq<Triple>, users: set<string>)
    requires JoinTree(q) && HasTriple(q) && Ready(d, data, Vars(q), Made(q, c), users)
    ensures AllStand(LeftAnswer(q, c, d), Eval(q, data), users)
    ensures forall m :: m in Eval(q, data) ==> PlainRow(m) && m.Keys <= Vars(q)
  {
    JoinTreeRows(q, c, d, data, users);
    EvalShape(q, d.edges, data);
  }

  lemma FilteredAnswer(a: Pattern, e: Expr, b: Pattern, c: nat, d: Listing, data: seq<Triple>)
    requires JoinTree(Join(a, b)) && HasTriple(Join(a, b)) && Supported(e) && Aligned(d.edges, data)
    requires Made(Join(a, b), c) !! Vars(a) + Vars(b) + ExprVars(e)
    ensures ReturnAll(LeftAnswer(FilteredJoin(a, e, b), c, d), Vars(Join(a, b)))
         == EncodeAll(FilterRows(Some(e), Eval(Join(a, b), data)))
  {
    var q, users := Join(a, b), Vars(a) + Vars(b) + ExprVars(e);
    RunFiltered(a, e, b, c, d);
    JoinStands(q, c, d, data, users);
    FilteredRows(e, LeftAnswer(q, c, d), Eval(q, data), users, Vars(q), d);
  }

  lemma FilteredSolutionsOf(a: Pattern, e: Expr, b: Pattern, data: seq<Triple>)
    requires JoinTree(a) && JoinTree(b)
    ensures Eval(FilteredJoin(a, e, b), data) == FilterInside(e, Vars(a), Eval(Join(a, b), data))
  {
    TreeBinds(a, data);
    TreeBinds(b, data);
    assert Eval(Filter(a, e), data) == FilterRows(Some(e), Eval(a, data));
    FilterBeforeJoin(e, Eval(a, data), Vars(a), Eval(b, data), Vars(b));
  }

  /** { a FILTER(e) } b is answered rightly if and only if, for every row of the join of a and b, e
      accepts the row exactly when it accepts what a binds of it. */
  lemma FilterScopeExact(a: Pattern, e: Expr, b: Pattern, c: nat, d: Listing, ts: seq<Triple>, data: seq<Triple>)
    requires Serves(d, ts, data) && JoinTree(Join(a, b)) && HasTriple(Join(a, b)) && Supported(e)
    requires Made(Join(a, b), c) !! Vars(a) + Vars(b) + ExprVars(e)
    ensures Right(FilteredJoin(a, e, b), c, d, data, Vars(a) + Vars(b)) <==> Agrees(e, Vars(a), Eval(Join(a, b), data))
  {
    var p, q := FilteredJoin(a, e, b), Join(a, b);
    var aligned := AlignedData(d, ts, data);
    assert Vars(p) == Vars(a) + Vars(b);
    RightIs(p, c, d, aligned, data);
    FilteredAnswer(a, e, b, c, d, aligned);
    FilteredSolutionsOf(a, e, b, aligned);
    EvalShape(q, d.edges, aligned);
    EncodedFilters(e, Vars(a), Eval(q, aligned));
    SameMembers(q, aligned, data);
  }

  /** With BOUND(v), where only b binds v: no solution, but all of the join is returned. So the answer
      is wrong on all data over which the join has a row. */
  lemma FilterScopeIsLost(a: Pattern, b: Pattern, v: string, c: nat, d: Listing, ts: seq<Triple>, data: seq<Triple>)
    requires Serves(d, ts, data) && JoinTree(Join(a, b)) && HasTriple(Join(a, b))
    requires Made(Join(a, b), c) !! Vars(a) + Vars(b) && v in Vars(b) && v !in Vars(a)
    ensures Eval(FilteredJoin(a, Bound(v), b), data) == []
    ensures Right(FilteredJoin(a, Bound(v), b), c, d, data, Vars(a) + Vars(b)) <==> Eval(Join(a, b), data) == []
  {
    assert Vars(a) + Vars(b) + ExprVars(Bound(v)) == Vars(a) + Vars(b);
    FilterScopeExact(a, Bound(v), b, c, d, ts, data);
    FilteredSolutionsOf(a, Bound(v), b, data);
    TreeBinds(Join(a, b), data);
    BoundInside(v, Vars(a), Eval(Join(a, b), data));
  }

  lemma BoundInside(v: string, vars: set<string>, rows: seq<Row>)
    requires v !in vars && forall x :: x in rows ==> v in x
    ensures FilterInside(Bound(v), vars, rows) == [] && (Agrees(Bound(v), vars, rows) <==> rows == [])
  {
    FilterInsideMember(Bound(v), vars, rows);
    Inhabited(rows);
    Inhabited(FilterInside(Bound(v), vars, rows));
    assert forall x :: x in rows ==> Accepts(Some(Bound(v)), x) && !Accepts(Some(Bound(v)), Restrict(x, vars));
  }

  /** On the one triple a p b, { ?s p ?o FILTER(BOUND(?w)) } ?s p ?w is answered wrongly. */
  lemma FilterScopeWrong(t: Triple, s: string, o: string, w: string, d: Listing, data: seq<Triple>)
    requires Serves(d, [t], data)
    requires s != o && s != w && o != w && {Fresh("r", 0), Fresh("r", 1)} !! {s, o, w}
    ensures var a, b := Bgp([BetweenVars(s, t.pred, o)]), Bgp([BetweenVars(s, t.pred, w)]);
      !Right(FilteredJoin(a, Bound(w), b), 0, d, data, Vars(a) + Vars(b))
  {
    var a, b := Bgp([BetweenVars(s, t.pred, o)]), Bgp([BetweenVars(s, t.pred, w)]);
    OnlyTriple(t, d, data);
    TwoBetween(s, t.pred, o, w);
    JoinBetween(s, o, w, t, data);
    VarTreeIsJoinTree(Join(a, b), 0);
    FilterScopeIsLost(a, b, w, 0, d, [t], data);
  }

  lemma JoinBetween(s: string, o: string, w: string, t: Triple, data: seq<Triple>)
    requires t in data && s != o && s != w && o != w && Clean(t.pred)
    ensures Eval(Join(Bgp([BetweenVars(s, t.pred, o)]), Bgp([BetweenVars(s, t.pred, w)])), data) != []
  {
    var a, b := Bgp([BetweenVars(s, t.pred, o)]), Bgp([BetweenVars(s, t.pred, w)]);
    var m := SolutionBetween(s, o, t, data);
    var x := SolutionBetween(s, w, t, data);
    var j: Row := m + x;
    assert Restrict(j, {s, o}) == m && Restrict(j, {s, w}) == x;
    CompileBetween(s, t.pred, o, 0);
    CompileBetween(s, t.pred, w, 0);
    EvalBgpBinds([BetweenVars(s, t.pred, o)], data);
    EvalBgpBinds([BetweenVars(s, t.pred, w)], data);
    JoinRowsMember(Eval(a, data), {s, o}, Eval(b, data), {s, w}, j);
  }
}
