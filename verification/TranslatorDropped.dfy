/** OPTIONAL and MINUS parts with conditions of their own: constant ends, and filters of nested groups
    (a filter directly in an OPTIONAL belongs to the LeftJoin and is kept). The translator hands the
    conditions of a right side to nobody, and those of the left side of an OPTIONAL to the OPTIONAL
    MATCH, where they cannot reject a row any more. Here is exactly when the answer is right all the same. */
module TranslatorDropped {
  import opened Common
  import opened Rdf
  import opened PropertyGraph
  import opened CypherQuery
  import opened S = Sparql
  import opened Translator
  import opened BgpSolutions
  import opened TranslatorJoins
  import opened TranslatorTheorem
  import opened TranslatorResults
  import opened TranslatorOptional
  import opened TranslatorMinus

  // ----- extending rows, in the query and in the algebra

  /** One left row: the extensions the query finds for it, those of them that the algebra has, and
      the row itself; kept is None if the algebra does not have the row. */
  datatype Extension = Extension(found: seq<CRow>, kept: Option<seq<CRow>>, bare: CRow)

  function OrBare(rows: seq<CRow>, bare: CRow): seq<CRow> {
    if rows == [] then [bare] else rows
  }

  function WantedOf(x: Extension): seq<CRow> {
    if x.kept.None? then [] else OrBare(x.kept.value, x.bare)
  }

  function Answer(xs: seq<Extension>): seq<CRow> {
    if xs == [] then [] else OrBare(xs[0].found, xs[0].bare) + Answer(xs[1..])
  }

  function Wanted(xs: seq<Extension>): seq<CRow> {
    if xs == [] then [] else WantedOf(xs[0]) + Wanted(xs[1..])
  }

  /** extra is what only the right side binds: all of it in an extension, nothing of it in the row. */
  ghost predicate WellFormed(x: Extension, extra: set<string>) {
    && extra !! x.bare.Keys
    && (forall y :: y in x.found ==> extra <= y.Keys && (extra == {} ==> y == x.bare))
    && (x.kept.None? ==> x.found == [])
    && (x.kept.Some? ==>
          && (forall y :: y in x.kept.value ==> y in x.found)
          && |x.kept.value| <= |x.found| && (|x.kept.value| == |x.found| ==> x.kept.value == x.found))
  }

  predicate Exact(x: Extension, extra: set<string>) {
    x.kept.Some? && (|x.kept.value| == |x.found| || (extra == {} && |x.found| <= 1))
  }

  /** Extended rows count twice, bare rows once. */
  function Weight(rows: seq<CRow>, extra: set<string>): nat {
    if rows == [] then 0 else (if extra * rows[0].Keys != {} then 2 else 1) + Weight(rows[1..], extra)
  }

  lemma {:induction false} WeightConcat(a: seq<CRow>, b: seq<CRow>, extra: set<string>)
    ensures Weight(a + b, extra) == Weight(a, extra) + Weight(b, extra)
  {
    if a == [] {
      assert a + b == b;
    } else {
      assert (a + b)[1..] == a[1..] + b;
      WeightConcat(a[1..], b, extra);
    }
  }

  lemma {:induction false} WeightIsLength(rows: seq<CRow>, extra: set<string>)
    ensures Weight(rows, extra) == |FlatMap((y: CRow) => if extra * y.Keys != {} then [y, y] else [y], rows)|
  {
    if rows != [] { WeightIsLength(rows[1..], extra); }
  }

  lemma WeightPermutation(a: seq<CRow>, b: seq<CRow>, extra: set<string>)
    requires SameBag(a, b)
    ensures Weight(a, extra) == Weight(b, extra)
  {
    var f := (y: CRow) => if extra * y.Keys != {} then [y, y] else [y];
    WeightIsLength(a, extra);
    WeightIsLength(b, extra);
    FlatMapPermutation(f, a, b);
    assert |FlatMap(f, a)| == |multiset(FlatMap(f, a))| == |FlatMap(f, b)|;
  }

  lemma {:induction false} WeightUniform(rows: seq<CRow>, extra: set<string>)
    requires forall y :: y in rows ==> extra <= y.Keys
    ensures Weight(rows, extra) == if extra == {} then |rows| else 2 * |rows|
  {
    if rows != [] {
      WeightUniform(rows[1..], extra);
      assert rows[0] in rows && extra * rows[0].Keys == extra;
    }
  }

  lemma ExtensionWeight(x: Extension, extra: set<string>)
    requires WellFormed(x, extra)
    ensures Weight(OrBare(x.found, x.bare), extra) >= Weight(WantedOf(x), extra)
    ensures Weight(OrBare(x.found, x.bare), extra) == Weight(WantedOf(x), extra) <==> Exact(x, extra)
    ensures Exact(x, extra) ==> OrBare(x.found, x.bare) == WantedOf(x)
  {
    WeightUniform(x.found, extra);
    var bare := [x.bare];
    assert bare[1..] == [] && Weight(bare, extra) == 1;
    if x.kept.Some? {
      WeightUniform(x.kept.value, extra);
    }
    if |x.found| == 1 { assert x.found[0] in x.found; }
  }

  /** The query's rows are the algebra's exactly when every left row is extended exactly. */
  lemma {:induction false} AnswersWeigh(xs: seq<Extension>, extra: set<string>)
    requires forall x :: x in xs ==> WellFormed(x, extra)
    ensures Weight(Answer(xs), extra) >= Weight(Wanted(xs), extra)
    ensures Weight(Answer(xs), extra) == Weight(Wanted(xs), extra) ==> forall x :: x in xs ==> Exact(x, extra)
    ensures (forall x :: x in xs ==> Exact(x, extra)) ==> Answer(xs) == Wanted(xs)
  {
    if xs != [] {
      assert xs[0] in xs && forall x :: x in xs[1..] ==> x in xs;
      ExtensionWeight(xs[0], extra);
      AnswersWeigh(xs[1..], extra);
      WeightConcat(OrBare(xs[0].found, xs[0].bare), Answer(xs[1..]), extra);
      WeightConcat(WantedOf(xs[0]), Wanted(xs[1..]), extra);
      forall x | x in xs && Weight(Answer(xs), extra) == Weight(Wanted(xs), extra) ensures Exact(x, extra) {
        assert x == xs[0] || x in xs[1..];
      }
    }
  }

  lemma AnswersAgree(xs: seq<Extension>, extra: set<string>)
    requires forall x :: x in xs ==> WellFormed(x, extra)
    ensures SameBag(Answer(xs), Wanted(xs)) <==> forall x :: x in xs ==> Exact(x, extra)
  {
    AnswersWeigh(xs, extra);
    if SameBag(Answer(xs), Wanted(xs)) { WeightPermutation(Answer(xs), Wanted(xs), extra); }
  }

  // ----- the extensions of a LeftJoin of join trees

  function OptConds(e: Option<Expr>): seq<Cond> {
    if e.Some? then FilterConds(e.value) else []
  }

  /** What the paths of the right side and the OPTIONAL's filter find from x. */
  function Offered(right: Compiled, e: Option<Expr>, x: CRow, d: Listing): seq<CRow> {
    Where(OptConds(e), MatchAll(right.parts, x, d.edges), d)
  }

  function ExtensionAt(left: Compiled, right: Compiled, e: Option<Expr>, x: CRow, users: set<string>, d: Listing): Extension {
    Extension(ReturnAll(Where(left.conds + OptConds(e), MatchAll(right.parts, x, d.edges), d), users),
              if AllTrue(left.conds, x, d) then Some(ReturnAll(Where(right.conds, Offered(right, e, x, d), d), users)) else None,
              ReturnRow(x, users))
  }

  function Extensions(left: Compiled, right: Compiled, e: Option<Expr>, xs: seq<CRow>, users: set<string>, d: Listing): (r: seq<Extension>)
    ensures |r| == |xs| && forall i :: 0 <= i < |xs| ==> r[i] == ExtensionAt(left, right, e, xs[i], users, d)
  {
    if xs == [] then []
    else [ExtensionAt(left, right, e, xs[0], users, d)] + Extensions(left, right, e, xs[1..], users, d)
  }

  lemma NullsReturnNothing(x: CRow, parts: seq<Part>, users: set<string>)
    ensures ReturnAll([WithNulls(x, parts)], users) == [ReturnRow(x, users)]
  {
    assert ReturnRow(WithNulls(x, parts), users) == ReturnRow(x, users);
    assert [WithNulls(x, parts)][1..] == [];
  }

  lemma OptionalRowReturns(cs: seq<Cond>, parts: seq<Part>, x: CRow, users: set<string>, d: Listing)
    ensures ReturnAll(OptionalRow(cs, parts, x, d), users)
         == OrBare(ReturnAll(Where(cs, MatchAll(parts, x, d.edges), d), users), ReturnRow(x, users))
  {
    NullsReturnNothing(x, parts, users);
    ReturnAllLength(Where(cs, MatchAll(parts, x, d.edges), d), users);
  }

  lemma {:induction false} AnswerIsOptional(left: Compiled, right: Compiled, e: Option<Expr>, xs: seq<CRow>, users: set<string>, d: Listing)
    ensures ReturnAll(OptionalEach(left.conds + OptConds(e), right.parts, xs, d), users)
         == Answer(Extensions(left, right, e, xs, users, d))
  {
    if xs != [] {
      var cs := left.conds + OptConds(e);
      AnswerIsOptional(left, right, e, xs[1..], users, d);
      OptionalRowReturns(cs, right.parts, xs[0], users, d);
      ReturnAllConcat(OptionalRow(cs, right.parts, xs[0], d), OptionalEach(cs, right.parts, xs[1..], d), users);
      assert Extensions(left, right, e, xs, users, d)[1..] == Extensions(left, right, e, xs[1..], users, d);
    }
  }

  lemma WhereSwap(a: seq<Cond>, b: seq<Cond>, rows: seq<CRow>, d: Listing)
    ensures Where(a, Where(b, rows, d), d) == Where(b, Where(a, rows, d), d)
  {
    WhereWhere(a, b, rows, d);
    WhereWhere(b, a, rows, d);
    WhereSameConds(a + b, b + a, rows, d);
  }

  lemma {:induction false} WhereSameConds(a: seq<Cond>, b: seq<Cond>, rows: seq<CRow>, d: Listing)
    requires forall cond :: cond in a <==> cond in b
    ensures Where(a, rows, d) == Where(b, rows, d)
  {
    if rows != [] {
      WhereSameConds(a, b, rows[1..], d);
      AllTrueByMember(a, rows[0], d);
      AllTrueByMember(b, rows[0], d);
    }
  }

  lemma AllTrueByMember(cs: seq<Cond>, r: CRow, d: Listing)
    ensures AllTrue(cs, r, d) <==> forall cond :: cond in cs ==> CondTrue(cond, r, d)
  {
    if AllTrue(cs, r, d) {
      forall cond | cond in cs ensures CondTrue(cond, r, d) {
        var i :| 0 <= i < |cs| && cs[i] == cond;
      }
    }
  }

  lemma {:induction false} WhereCount(cs: seq<Cond>, rows: seq<CRow>, d: Listing)
    ensures |Where(cs, rows, d)| <= |rows|
    ensures |Where(cs, rows, d)| == |rows| <==> forall r :: r in rows ==> AllTrue(cs, r, d)
    ensures |Where(cs, rows, d)| == |rows| ==> Where(cs, rows, d) == rows
  {
    if rows != [] {
      WhereCount(cs, rows[1..], d);
      assert rows == [rows[0]] + rows[1..];
    }
  }

  /** What the algebra has for a left row that stands for m. */
  lemma KeptIsJoin(r: Pattern, e: Option<Expr>, c: nat, x: CRow, m: Row, d: Listing, data: seq<Triple>, users: set<string>)
    requires JoinTree(r) && Ready(d, data, Vars(r), Made(r, c), users)
    requires Stands(x, m, users) && Below(x, c, users) && NodesAt(x, Vars(r))
    requires e.Some? ==> Supported(e.value) && ExprVars(e.value) <= users
    ensures var right := Compile(r, c);
      OrBare(ReturnAll(Where(right.conds, Offered(right, e, x, d), d), users), ReturnRow(x, users))
      == EncodeAll(LeftJoinRow(m, Eval(r, data), e))
  {
    var right := Compile(r, c);
    var matched, joined := MatchAll(right.parts, x, d.edges), JoinRow(m, Eval(r, data));
    CompileCorrect(r, c, x, m, d, data, users);
    EvalShape(r, d.edges, data);
    JoinRowShape(m, Eval(r, data), Vars(r));
    AllStandFromReturn(Where(right.conds, matched, d), joined, users);
    FilterStands(e, Where(right.conds, matched, d), joined, users, d);
    WhereSwap(right.conds, OptConds(e), matched, d);
    var kept, want := Where(right.conds, Offered(right, e, x, d), d), FilterRows(e, joined);
    ReturnFromAllStand(kept, want, users);
    ReturnAllLength(kept, users);
    assert [m][1..] == [] && EncodeAll([m]) == [Encode(m)];
  }

  ghost predicate ReadyRow(x: CRow, c: nat, vars: set<string>, users: set<string>) {
    Below(x, c, users) && NodesAt(x, vars)
  }

  lemma WantedCons(first: Extension, rest: seq<Extension>)
    ensures Wanted([first] + rest) == WantedOf(first) + Wanted(rest)
  {
    assert ([first] + rest)[1..] == rest;
  }

  lemma WantedOfRow(left: Compiled, r: Pattern, e: Option<Expr>, x: CRow, m: Row, d: Listing, data: seq<Triple>, users: set<string>)
    requires JoinTree(r) && Ready(d, data, Vars(r), Made(r, left.next), users)
    requires Stands(x, m, users) && ReadyRow(x, left.next, Vars(r), users) && AllTrue(left.conds, x, d)
    requires e.Some? ==> Supported(e.value) && ExprVars(e.value) <= users
    ensures WantedOf(ExtensionAt(left, Compile(r, left.next), e, x, users, d)) == EncodeAll(LeftJoinRow(m, Eval(r, data), e))
  {
    KeptIsJoin(r, e, left.next, x, m, d, data, users);
  }

  lemma LeftJoinRowsCons(ms: seq<Row>, b: seq<Row>, e: Option<Expr>)
    requires ms != []
    ensures EncodeAll(LeftJoinRows(ms, b, e)) == EncodeAll(LeftJoinRow(ms[0], b, e)) + EncodeAll(LeftJoinRows(ms[1..], b, e))
  {
    EncodeAllConcat(LeftJoinRow(ms[0], b, e), LeftJoinRows(ms[1..], b, e));
  }

  lemma {:induction false} WantedIsLeftJoin(left: Compiled, r: Pattern, e: Option<Expr>, xs: seq<CRow>, ms: seq<Row>, d: Listing,
                                            data: seq<Triple>, users: set<string>)
    requires JoinTree(r) && Ready(d, data, Vars(r), Made(r, left.next), users)
    requires AllStand(Where(left.conds, xs, d), ms, users)
    requires forall x :: x in xs ==> ReadyRow(x, left.next, Vars(r), users)
    requires e.Some? ==> Supported(e.value) && ExprVars(e.value) <= users
    ensures Wanted(Extensions(left, Compile(r, left.next), e, xs, users, d)) == EncodeAll(LeftJoinRows(ms, Eval(r, data), e))
    decreases |xs|
  {
    if xs != [] {
      var right := Compile(r, left.next);
      var x, rest := xs[0], xs[1..];
      var kept := Where(left.conds, rest, d);
      assert x in xs && forall y :: y in rest ==> y in xs;
      WantedCons(ExtensionAt(left, right, e, x, users, d), Extensions(left, right, e, rest, users, d));
      if AllTrue(left.conds, x, d) {
        assert Where(left.conds, xs, d) == [x] + kept;
        HeadStands(x, kept, ms, users);
        WantedOfRow(left, r, e, x, ms[0], d, data, users);
        WantedIsLeftJoin(left, r, e, rest, ms[1..], d, data, users);
        LeftJoinRowsCons(ms, Eval(r, data), e);
      } else {
        assert Where(left.conds, xs, d) == [] + kept == kept;
        WantedIsLeftJoin(left, r, e, rest, ms, d, data, users);
      }
    }
  }

  lemma HeadStands(x: CRow, rest: seq<CRow>, ms: seq<Row>, users: set<string>)
    requires AllStand([x] + rest, ms, users)
    ensures ms != [] && Stands(x, ms[0], users) && AllStand(rest, ms[1..], users)
  {
    var all := [x] + rest;
    assert Stands(all[0], ms[0], users);
    forall i | 0 <= i < |rest| ensures Stands(rest[i], ms[1..][i], users) {
      assert Stands(all[i + 1], ms[i + 1], users);
    }
  }

  lemma LateConditions(conds: seq<Cond>, oc: seq<Cond>, parts: seq<Part>, x: CRow, d: Listing)
    requires forall i :: 0 <= i < |conds| ==> Settled(conds[i], x)
    ensures Where(conds + oc, MatchAll(parts, x, d.edges), d)
         == if AllTrue(conds, x, d) then Where(oc, MatchAll(parts, x, d.edges), d) else []
  {
    var matched := MatchAll(parts, x, d.edges);
    WhereWhere(conds, oc, matched, d);
    MatchAllExtends(parts, x, d.edges);
    WhereUniform(conds, matched, x, d);
  }

  lemma {:induction false} ReturnMembers(rows: seq<CRow>, users: set<string>)
    ensures forall y :: y in ReturnAll(rows, users) ==> exists r :: r in rows && y == ReturnRow(r, users)
  {
    if rows != [] {
      ReturnMembers(rows[1..], users);
      assert rows == [rows[0]] + rows[1..];
    }
  }

  lemma {:induction false} KeptReturns(cs: seq<Cond>, rows: seq<CRow>, users: set<string>, d: Listing)
    ensures forall y :: y in ReturnAll(Where(cs, rows, d), users) ==> y in ReturnAll(rows, users)
  {
    if rows != [] {
      KeptReturns(cs, rows[1..], users, d);
      var head := if AllTrue(cs, rows[0], d) then [rows[0]] else [];
      ReturnAllConcat(head, Where(cs, rows[1..], d), users);
      assert head != [] ==> head[1..] == [];
    }
  }

  /** A row of the left side as the right side meets it. */
  ghost predicate LeftRow(x: CRow, left: Compiled, lvars: set<string>, users: set<string>) {
    && Below(x, left.next, users)
    && (forall v :: v in users && v in x ==> v in lvars && x[v].NodeVal?)
    && lvars <= x.Keys
    && forall i :: 0 <= i < |left.conds| ==> Settled(left.conds[i], x)
  }

  lemma ExtendedRow(r: Pattern, x: CRow, y: CRow, left: Compiled, lvars: set<string>, users: set<string>, d: Listing)
    requires JoinTree(r) && users == lvars + Vars(r) && Made(r, left.next) !! users && LeftRow(x, left, lvars, users)
    requires y in MatchAll(Compile(r, left.next).parts, x, d.edges)
    ensures var extra := Vars(r) - lvars;
      extra <= ReturnRow(y, users).Keys && (extra == {} ==> ReturnRow(y, users) == ReturnRow(x, users))
  {
    RowsGrown(r, left.next, x, d.edges, users);
    GrownBindsOnlyPart(r, left.next, x, d.edges, users);
    assert Grown(y, x, Compile(r, left.next), Vars(r), users);
    ExtendedReturns(x, y, lvars, Vars(r), users);
  }

  lemma ExtendedReturns(x: CRow, y: CRow, lvars: set<string>, rvars: set<string>, users: set<string>)
    requires Extends(y, x) && lvars <= x.Keys && users == lvars + rvars
    requires rvars <= y.Keys && NodesAt(y, rvars) && forall v :: v in users && v in y && v !in x ==> v in rvars
    ensures var extra := rvars - lvars;
      extra <= ReturnRow(y, users).Keys && (extra == {} ==> ReturnRow(y, users) == ReturnRow(x, users))
  {
    NothingNew(rvars, lvars);
    if rvars <= lvars {
      assert forall v :: v in users && v in y ==> v in x;
      assert ReturnRow(y, users) == ReturnRow(x, users);
    }
  }

  lemma ShapeOf(offered: seq<CRow>, conds: seq<Cond>, ok: bool, bare: CRow, extra: set<string>, users: set<string>, d: Listing)
    requires extra !! bare.Keys
    requires forall z :: z in offered ==> extra <= ReturnRow(z, users).Keys && (extra == {} ==> ReturnRow(z, users) == bare)
    ensures var x := Extension(ReturnAll(if ok then offered else [], users),
                               if ok then Some(ReturnAll(Where(conds, offered, d), users)) else None, bare);
      && WellFormed(x, extra)
      && (Exact(x, extra) <==> ok && ((forall y :: y in offered ==> AllTrue(conds, y, d)) || (extra == {} && |offered| <= 1)))
  {
    ReturnMembers(offered, users);
    KeptReturns(conds, offered, users, d);
    WhereCount(conds, offered, d);
    ReturnAllLength(offered, users);
    ReturnAllLength(Where(conds, offered, d), users);
  }

  /** Nothing that the right side's own conditions would reject is offered to x, or it makes no difference. */
  ghost predicate OffersExactly(right: Compiled, e: Option<Expr>, x: CRow, inside: bool, d: Listing) {
    || (forall y :: y in Offered(right, e, x, d) ==> AllTrue(right.conds, y, d))
    || (inside && |Offered(right, e, x, d)| <= 1)
  }

  lemma ExtensionIs(left: Compiled, right: Compiled, e: Option<Expr>, x: CRow, users: set<string>, d: Listing)
    requires forall i :: 0 <= i < |left.conds| ==> Settled(left.conds[i], x)
    ensures var ok, offered := AllTrue(left.conds, x, d), Offered(right, e, x, d);
      ExtensionAt(left, right, e, x, users, d)
      == Extension(ReturnAll(if ok then offered else [], users),
                   if ok then Some(ReturnAll(Where(right.conds, offered, d), users)) else None, ReturnRow(x, users))
  {
    LateConditions(left.conds, OptConds(e), right.parts, x, d);
  }

  lemma OfferedRows(r: Pattern, e: Option<Expr>, x: CRow, left: Compiled, lvars: set<string>, users: set<string>, d: Listing)
    requires JoinTree(r) && users == lvars + Vars(r) && Made(r, left.next) !! users && LeftRow(x, left, lvars, users)
    ensures forall z :: z in Offered(Compile(r, left.next), e, x, d) ==>
      Vars(r) - lvars <= ReturnRow(z, users).Keys && (Vars(r) - lvars == {} ==> ReturnRow(z, users) == ReturnRow(x, users))
  {
    var right := Compile(r, left.next);
    WhereSubset(OptConds(e), MatchAll(right.parts, x, d.edges), d);
    forall z | z in Offered(right, e, x, d)
      ensures Vars(r) - lvars <= ReturnRow(z, users).Keys && (Vars(r) - lvars == {} ==> ReturnRow(z, users) == ReturnRow(x, users))
    {
      ExtendedRow(r, x, z, left, lvars, users, d);
    }
  }

  lemma NothingNew(vb: set<string>, va: set<string>)
    ensures vb - va == {} <==> vb <= va
  {
    if v :| v in vb && v !in va { assert v in vb - va; }
  }

  lemma ExtensionShape(r: Pattern, e: Option<Expr>, x: CRow, left: Compiled, lvars: set<string>, users: set<string>, d: Listing)
    requires JoinTree(r) && users == lvars + Vars(r) && Made(r, left.next) !! users && LeftRow(x, left, lvars, users)
    ensures var right := Compile(r, left.next);
      var ext := ExtensionAt(left, right, e, x, users, d);
      && WellFormed(ext, Vars(r) - lvars)
      && (Exact(ext, Vars(r) - lvars) <==> AllTrue(left.conds, x, d) && OffersExactly(right, e, x, Vars(r) <= lvars, d))
  {
    var right, extra := Compile(r, left.next), Vars(r) - lvars;
    ExtensionIs(left, right, e, x, users, d);
    OfferedRows(r, e, x, left, lvars, users, d);
    ShapeOf(Offered(right, e, x, d), right.conds, AllTrue(left.conds, x, d), ReturnRow(x, users), extra, users, d);
    NothingNew(Vars(r), lvars);
  }

  // ----- the whole OPTIONAL

  /** Every match of the left side's paths meets the left side's own conditions. */
  ghost predicate MeetsOwn(l: Pattern, c: nat, d: Listing) {
    var left := Compile(l, c);
    forall x :: x in MatchAll(left.parts, map[], d.edges) ==> AllTrue(left.conds, x, d)
  }

  /** From every match of the left side's paths, the OPTIONAL offers only what meets its own conditions;
      if it binds nothing new, one match too many does no harm where there is no other. */
  ghost predicate OffersOnlyOwn(l: Pattern, r: Pattern, e: Option<Expr>, c: nat, d: Listing) {
    var left := Compile(l, c);
    var right := Compile(r, left.next);
    forall x :: x in MatchAll(left.parts, map[], d.edges) ==> OffersExactly(right, e, x, Vars(r) <= Vars(l), d)
  }

  predicate TwoSides(l: Pattern, r: Pattern, e: Option<Expr>) {
    && JoinTree(l) && HasTriple(l) && JoinTree(r) && HasTriple(r)
    && (e.Some? ==> Supported(e.value) && ExprVars(e.value) <= Vars(l) + Vars(r))
  }

  lemma LeftRows(l: Pattern, c: nat, d: Listing, users: set<string>)
    requires JoinTree(l) && Vars(l) <= users && Made(l, c) !! users
    ensures forall x :: x in MatchAll(Compile(l, c).parts, map[], d.edges) ==> LeftRow(x, Compile(l, c), Vars(l), users)
  {
    var left := Compile(l, c);
    RowsGrown(l, c, map[], d.edges, users);
    GrownBindsOnlyPart(l, c, map[], d.edges, users);
    forall x | x in MatchAll(left.parts, map[], d.edges) ensures LeftRow(x, left, Vars(l), users) {
      assert Grown(x, map[], left, Vars(l), users);
    }
  }

  lemma RunOptional(l: Pattern, r: Pattern, e: Option<Expr>, c: nat, d: Listing)
    requires TwoSides(l, r, e)
    ensures var out, left := Compile(LeftJoin(l, r, e), c), Compile(l, c);
      Run(MatchClauses(out.parts), out.conds, d)
      == OptionalEach(left.conds + OptConds(e), Compile(r, left.next).parts, MatchAll(left.parts, map[], d.edges), d)
  {
    var out, left := Compile(LeftJoin(l, r, e), c), Compile(l, c);
    var right := Compile(r, left.next);
    JoinTreeParts(l, c);
    JoinTreeParts(r, left.next);
    ClausesOfPaths(left.parts, []);
    assert [] + left.parts == left.parts;
    ClausesThenOptional(left.parts, [], right.parts);
    RunThenLast([Match(left.parts)], OptionalMatch(right.parts), left.conds + OptConds(e), [map[]], d);
    MatchEachOne(left.parts, map[], d.edges);
    WhereNone(MatchAll(left.parts, map[], d.edges), d);
    assert out.parts == left.parts + [OptionalPart(right.parts)] && out.conds == left.conds + OptConds(e);
  }

  lemma {:induction false} JoinRowWithin(m: Row, b: seq<Row>, va: set<string>, vb: set<string>)
    requires m.Keys <= va && forall x :: x in b ==> x.Keys <= vb
    ensures forall x :: x in JoinRow(m, b) ==> x.Keys <= va + vb
  {
    if b != [] {
      assert b == [b[0]] + b[1..];
      JoinRowWithin(m, b[1..], va, vb);
    }
  }

  lemma {:induction false} JoinRowsWithin(a: seq<Row>, b: seq<Row>, va: set<string>, vb: set<string>)
    requires (forall x :: x in a ==> x.Keys <= va) && forall x :: x in b ==> x.Keys <= vb
    ensures forall x :: x in JoinRows(a, b) ==> x.Keys <= va + vb
  {
    if a != [] {
      JoinRowWithin(a[0], b, va, vb);
      JoinRowsWithin(a[1..], b, va, vb);
    }
  }

  lemma {:induction false} LeftJoinRowsWithin(a: seq<Row>, b: seq<Row>, e: Option<Expr>, va: set<string>, vb: set<string>)
    requires (forall x :: x in a ==> x.Keys <= va) && forall x :: x in b ==> x.Keys <= vb
    ensures forall x :: x in LeftJoinRows(a, b, e) ==> x.Keys <= va + vb
  {
    if a != [] {
      JoinRowWithin(a[0], b, va, vb);
      FilterRowsSubset(e, JoinRow(a[0], b));
      LeftJoinRowsWithin(a[1..], b, e, va, vb);
    }
  }

  lemma {:induction false} MinusRowsSubset(a: seq<Row>, b: seq<Row>)
    ensures forall x :: x in MinusRows(a, b) ==> x in a
  {
    if a != [] { MinusRowsSubset(a[1..], b); }
  }

  /** A solution binds variables of its pattern only. */
  lemma {:induction false} EvalWithin(p: Pattern, data: seq<Triple>)
    ensures forall m :: m in Eval(p, data) ==> m.Keys <= Vars(p)
  {
    match p
    case Bgp(tps) => EvalBgpBinds(tps, data);
    case Join(l, r) =>
      EvalWithin(l, data);
      EvalWithin(r, data);
      JoinRowsWithin(Eval(l, data), Eval(r, data), Vars(l), Vars(r));
    case LeftJoin(l, r, e) =>
      EvalWithin(l, data);
      EvalWithin(r, data);
      LeftJoinRowsWithin(Eval(l, data), Eval(r, data), e, Vars(l), Vars(r));
    case Filter(q, e) =>
      EvalWithin(q, data);
      FilterRowsSubset(Some(e), Eval(q, data));
    case Union(l, r) =>
      EvalWithin(l, data);
      EvalWithin(r, data);
    case Minus(l, r) =>
      EvalWithin(l, data);
      MinusRowsSubset(Eval(l, data), Eval(r, data));
      assert Eval(p, data) == MinusRows(Eval(l, data), Eval(r, data));
  }

  lemma {:induction false} ProjectWide(ms: seq<Row>, vars: set<string>)
    requires forall m :: m in ms ==> m.Keys <= vars
    ensures ProjectAll(ms, vars) == ms
  {
    if ms != [] {
      ProjectWide(ms[1..], vars);
      assert ms[0] in ms && (map v | v in ms[0] && v in vars :: ms[0][v]) == ms[0];
    }
  }

  /** The database's answer to p with all its variables. */
  ghost function Answered(p: Pattern, c: nat, d: Listing): seq<CRow> {
    BranchRows(BranchOf(Compile(p, c)), Vars(p), d)
  }

  lemma RightIs(p: Pattern, c: nat, d: Listing, aligned: seq<Triple>, data: seq<Triple>)
    requires multiset(aligned) == multiset(data)
    ensures Right(p, c, d, data, Vars(p)) <==> SameBag(Answered(p, c, d), EncodeAll(Eval(p, aligned)))
    ensures |Eval(p, aligned)| == |Eval(p, data)|
  {
    EvalPermutation(p, aligned, data);
    ProjectPermutation(Eval(p, aligned), Eval(p, data), Vars(p));
    EvalWithin(p, aligned);
    ProjectWide(Eval(p, aligned), Vars(p));
    assert |multiset(Eval(p, aligned))| == |Eval(p, aligned)| && |multiset(Eval(p, data))| == |Eval(p, data)|;
  }

  lemma OptionalSides(l: Pattern, r: Pattern, e: Option<Expr>, c: nat, d: Listing, data: seq<Triple>)
    requires TwoSides(l, r, e) && Aligned(d.edges, data)
    requires Made(LeftJoin(l, r, e), c) !! Vars(l) + Vars(r)
    ensures var p, left := LeftJoin(l, r, e), Compile(l, c);
      var right := Compile(r, left.next);
      var xs := Extensions(left, right, e, MatchAll(left.parts, map[], d.edges), Vars(p), d);
      Answered(p, c, d) == Answer(xs) && EncodeAll(Eval(p, data)) == Wanted(xs)
  {
    var p, left, users := LeftJoin(l, r, e), Compile(l, c), Vars(l) + Vars(r);
    var right, found := Compile(r, left.next), MatchAll(left.parts, map[], d.edges);
    RunOptional(l, r, e, c, d);
    AnswerIsOptional(left, right, e, found, users, d);
    RunJoinTree(l, c, d);
    JoinTreeRows(l, c, d, data, users);
    LeftRows(l, c, d, users);
    forall x | x in found ensures ReadyRow(x, left.next, Vars(r), users) {
      assert LeftRow(x, left, Vars(l), users);
    }
    WantedIsLeftJoin(left, r, e, found, Eval(l, data), d, data, users);
  }

  lemma ExtensionsAgree(l: Pattern, r: Pattern, e: Option<Expr>, c: nat, d: Listing)
    requires TwoSides(l, r, e) && Made(LeftJoin(l, r, e), c) !! Vars(l) + Vars(r)
    ensures var left := Compile(l, c);
      var xs := Extensions(left, Compile(r, left.next), e, MatchAll(left.parts, map[], d.edges), Vars(l) + Vars(r), d);
      SameBag(Answer(xs), Wanted(xs)) <==> MeetsOwn(l, c, d) && OffersOnlyOwn(l, r, e, c, d)
  {
    var left, users, extra := Compile(l, c), Vars(l) + Vars(r), Vars(r) - Vars(l);
    var right, found := Compile(r, left.next), MatchAll(left.parts, map[], d.edges);
    var xs := Extensions(left, right, e, found, users, d);
    LeftRows(l, c, d, users);
    forall i | 0 <= i < |found|
      ensures WellFormed(xs[i], extra)
      ensures Exact(xs[i], extra) <==> AllTrue(left.conds, found[i], d) && OffersExactly(right, e, found[i], Vars(r) <= Vars(l), d)
    {
      assert found[i] in found;
      ExtensionShape(r, e, found[i], left, Vars(l), users, d);
    }
    AnswersAgree(xs, extra);
    ExactThroughout(xs, extra, found, left, right, e, Vars(r) <= Vars(l), d);
  }

  lemma ExactThroughout(xs: seq<Extension>, extra: set<string>, found: seq<CRow>, left: Compiled, right: Compiled,
                        e: Option<Expr>, inside: bool, d: Listing)
    requires |xs| == |found| && forall i :: 0 <= i < |found| ==>
      (Exact(xs[i], extra) <==> AllTrue(left.conds, found[i], d) && OffersExactly(right, e, found[i], inside, d))
    ensures (forall x :: x in xs ==> Exact(x, extra))
      <==> (forall x :: x in found ==> AllTrue(left.conds, x, d)) && forall x :: x in found ==> OffersExactly(right, e, x, inside, d)
  {
    if forall x :: x in xs ==> Exact(x, extra) {
      forall x | x in found ensures AllTrue(left.conds, x, d) && OffersExactly(right, e, x, inside, d) {
        var i :| 0 <= i < |found| && found[i] == x;
        assert xs[i] in xs;
      }
    }
    if (forall x :: x in found ==> AllTrue(left.conds, x, d)) && forall x :: x in found ==> OffersExactly(right, e, x, inside, d) {
      forall x | x in xs ensures Exact(x, extra) {
        var i :| 0 <= i < |xs| && xs[i] == x;
        assert found[i] in found;
      }
    }
  }

  /** An OPTIONAL between any two join trees is answered rightly if and only if every match of the
      left side's paths meets the left side's conditions, and the OPTIONAL offers each of them only
      what meets the right side's. */
  lemma OptionalExact(l: Pattern, r: Pattern, e: Option<Expr>, c: nat, d: Listing, ts: seq<Triple>, data: seq<Triple>)
    requires Serves(d, ts, data) && TwoSides(l, r, e)
    requires Made(LeftJoin(l, r, e), c) !! Vars(l) + Vars(r)
    ensures Right(LeftJoin(l, r, e), c, d, data, Vars(l) + Vars(r)) <==> MeetsOwn(l, c, d) && OffersOnlyOwn(l, r, e, c, d)
  {
    var aligned := AlignedData(d, ts, data);
    RightIs(LeftJoin(l, r, e), c, d, aligned, data);
    OptionalSides(l, r, e, c, d, aligned);
    ExtensionsAgree(l, r, e, c, d);
  }

  // ----- conditions on the left only

  lemma {:induction false} AnswerSize(left: Compiled, right: Compiled, e: Option<Expr>, xs: seq<CRow>, users: set<string>, d: Listing)
    requires right.conds == []
    requires forall x :: x in xs ==> forall i :: 0 <= i < |left.conds| ==> Settled(left.conds[i], x)
    ensures var exts := Extensions(left, right, e, xs, users, d);
      |Answer(exts)| == |Wanted(exts)| + |xs| - |Where(left.conds, xs, d)|
  {
    if xs != [] {
      assert xs[0] in xs && forall x :: x in xs[1..] ==> x in xs;
      AnswerSize(left, right, e, xs[1..], users, d);
      assert Extensions(left, right, e, xs, users, d)[1..] == Extensions(left, right, e, xs[1..], users, d);
      ExtensionIs(left, right, e, xs[0], users, d);
      WhereNone(Offered(right, e, xs[0], d), d);
    }
  }

  lemma LeftSizes(l: Pattern, r: Pattern, e: Option<Expr>, c: nat, d: Listing, data: seq<Triple>)
    requires TwoSides(l, r, e) && VarTree(r) && Aligned(d.edges, data) && Made(LeftJoin(l, r, e), c) !! Vars(l) + Vars(r)
    ensures var left := Compile(l, c);
      var found := MatchAll(left.parts, map[], d.edges);
      && |Where(left.conds, found, d)| == |Eval(l, data)|
      && |Answered(LeftJoin(l, r, e), c, d)| == |Eval(LeftJoin(l, r, e), data)| + |found| - |Where(left.conds, found, d)|
  {
    var left, users := Compile(l, c), Vars(l) + Vars(r);
    var right, found := Compile(r, left.next), MatchAll(left.parts, map[], d.edges);
    VarTreeIsJoinTree(r, left.next);
    OptionalSides(l, r, e, c, d, data);
    EncodeAllLength(Eval(LeftJoin(l, r, e), data));
    LeftRows(l, c, d, users);
    forall x | x in found ensures forall i :: 0 <= i < |left.conds| ==> Settled(left.conds[i], x) {
      assert LeftRow(x, left, Vars(l), users);
    }
    AnswerSize(left, right, e, found, users, d);
    RunJoinTree(l, c, d);
    JoinTreeRows(l, c, d, data, users);
  }

  lemma VariablesOnRight(l: Pattern, r: Pattern, e: Option<Expr>, c: nat, d: Listing)
    requires VarTree(r)
    ensures OffersOnlyOwn(l, r, e, c, d)
  {
    VarTreeIsJoinTree(r, Compile(l, c).next);
  }

  /** With nothing but variables on the right, every match of the left side's paths that fails the
      left side's conditions stays in the answer as one row with nulls. So the answer is right if and
      only if the left side has as many solutions as its paths have matches. */
  lemma LeftConditionsExact(l: Pattern, r: Pattern, e: Option<Expr>, c: nat, d: Listing, ts: seq<Triple>, data: seq<Triple>)
    requires Serves(d, ts, data) && TwoSides(l, r, e) && VarTree(r)
    requires Made(LeftJoin(l, r, e), c) !! Vars(l) + Vars(r)
    ensures var matches := |MatchAll(Compile(l, c).parts, map[], d.edges)|;
      && |Answered(LeftJoin(l, r, e), c, d)| == |Eval(LeftJoin(l, r, e), data)| + matches - |Eval(l, data)|
      && (Right(LeftJoin(l, r, e), c, d, data, Vars(l) + Vars(r)) <==> matches == |Eval(l, data)|)
  {
    var aligned := AlignedData(d, ts, data);
    OptionalExact(l, r, e, c, d, ts, data);
    VariablesOnRight(l, r, e, c, d);
    RightIs(LeftJoin(l, r, e), c, d, aligned, data);
    RightIs(l, c, d, aligned, data);
    LeftSizes(l, r, e, c, d, aligned);
    WhereCount(Compile(l, c).conds, MatchAll(Compile(l, c).parts, map[], d.edges), d);
  }

  // ----- MINUS

  /** The subquery excludes x only if the right side, with its conditions and a variable of the left,
      excludes it. */
  ghost predicate ExcludesExactly(right: Compiled, x: CRow, shared: bool, d: Listing) {
    var matched := MatchAll(right.parts, x, d.edges);
    matched == [] || (shared && Where(right.conds, matched, d) != [])
  }

  lemma RemovedByJoin(m: Row, b: seq<Row>, va: set<string>, vb: set<string>)
    requires m.Keys == va && forall x :: x in b ==> x.Keys == vb
    ensures Removed(m, b) <==> va * vb != {} && JoinRow(m, b) != []
  {
    JoinRowEmpty(m, b);
    if x :| x in b && Compatible(m, x) {
      var i :| 0 <= i < |b| && b[i] == x;
      assert Compatible(m, b[i]);
    }
    assert forall i :: 0 <= i < |b| ==> b[i] in b;
  }

  /** Which rows both sides keep. */
  lemma MinusRow(r: Pattern, c: nat, x: CRow, m: Row, va: set<string>, d: Listing, data: seq<Triple>, users: set<string>)
    requires JoinTree(r) && Ready(d, data, Vars(r), Made(r, c), users)
    requires Stands(x, m, users) && ReadyRow(x, c, Vars(r), users) && m.Keys == va
    ensures var right := Compile(r, c);
      var answered := MatchAll(right.parts, x, d.edges) == [];
      && (answered ==> !Removed(m, Eval(r, data)))
      && (ExcludesExactly(right, x, va * Vars(r) != {}, d) <==> (answered <==> !Removed(m, Eval(r, data))))
  {
    var right := Compile(r, c);
    var matched := MatchAll(right.parts, x, d.edges);
    CompileCorrect(r, c, x, m, d, data, users);
    ReturnAllLength(Where(right.conds, matched, d), users);
    EncodeAllLength(JoinRow(m, Eval(r, data)));
    WhereCount(right.conds, matched, d);
    EvalShape(r, d.edges, data);
    RemovedByJoin(m, Eval(r, data), va, Vars(r));
  }

  /** The rows whose bit is set. */
  function Pick(bits: seq<bool>, rows: seq<CRow>): seq<CRow>
    requires |bits| == |rows|
  {
    if rows == [] then [] else (if bits[0] then [rows[0]] else []) + Pick(bits[1..], rows[1..])
  }

  lemma {:induction false} PickCompare(a: seq<bool>, b: seq<bool>, rows: seq<CRow>)
    requires |a| == |b| == |rows| && forall i :: 0 <= i < |a| && a[i] ==> b[i]
    ensures |Pick(a, rows)| <= |Pick(b, rows)|
    ensures |Pick(a, rows)| == |Pick(b, rows)| ==> a == b
  {
    if rows != [] {
      PickCompare(a[1..], b[1..], rows[1..]);
      assert a == [a[0]] + a[1..] && b == [b[0]] + b[1..];
    }
  }

  function Unmatched(right: Compiled, xs: seq<CRow>, d: Listing): seq<bool> {
    seq(|xs|, i requires 0 <= i < |xs| => MatchAll(right.parts, xs[i], d.edges) == [])
  }

  function Unremoved(ms: seq<Row>, b: seq<Row>): seq<bool> {
    seq(|ms|, i requires 0 <= i < |ms| => !Removed(ms[i], b))
  }

  lemma {:induction false} PickWhere(right: Compiled, xs: seq<CRow>, vars: set<string>, d: Listing)
    ensures |ReturnAll(xs, vars)| == |xs|
    ensures ReturnAll(Where([NotExists(right.parts)], xs, d), vars) == Pick(Unmatched(right, xs, d), ReturnAll(xs, vars))
  {
    ReturnAllLength(xs, vars);
    if xs != [] {
      var cs := [NotExists(right.parts)];
      PickWhere(right, xs[1..], vars, d);
      assert AllTrue(cs, xs[0], d) <==> CondTrue(cs[0], xs[0], d);
      var head := if AllTrue(cs, xs[0], d) then [xs[0]] else [];
      ReturnAllConcat(head, Where(cs, xs[1..], d), vars);
      assert [xs[0]][1..] == [] && Unmatched(right, xs, d)[1..] == Unmatched(right, xs[1..], d);
    }
  }

  lemma {:induction false} PickMinus(ms: seq<Row>, b: seq<Row>, vars: set<string>)
    ensures |EncodeAll(ProjectAll(ms, vars))| == |ms|
    ensures EncodeAll(ProjectAll(MinusRows(ms, b), vars)) == Pick(Unremoved(ms, b), EncodeAll(ProjectAll(ms, vars)))
  {
    ProjectAllLength(ms, vars);
    EncodeAllLength(ProjectAll(ms, vars));
    if ms != [] {
      PickMinus(ms[1..], b, vars);
      var head := if Removed(ms[0], b) then [] else [ms[0]];
      ProjectAllConcat(head, MinusRows(ms[1..], b), vars);
      EncodeAllConcat(ProjectAll(head, vars), ProjectAll(MinusRows(ms[1..], b), vars));
      assert [ms[0]][1..] == [] && Unremoved(ms, b)[1..] == Unremoved(ms[1..], b);
      ProjectAllConcat([ms[0]], ms[1..], vars);
    }
  }

  lemma MinusBits(r: Pattern, c: nat, xs: seq<CRow>, ms: seq<Row>, va: set<string>, d: Listing, data: seq<Triple>, users: set<string>)
    requires JoinTree(r) && Ready(d, data, Vars(r), Made(r, c), users)
    requires AllStand(xs, ms, users) && (forall m :: m in ms ==> m.Keys == va)
    requires forall x :: x in xs ==> ReadyRow(x, c, Vars(r), users)
    ensures var right, b := Compile(r, c), Eval(r, data);
      var got, want := Unmatched(right, xs, d), Unremoved(ms, b);
      && (forall i :: 0 <= i < |got| && got[i] ==> want[i])
      && (got == want <==> forall x :: x in xs ==> ExcludesExactly(right, x, va * Vars(r) != {}, d))
  {
    var right, b := Compile(r, c), Eval(r, data);
    var got, want := Unmatched(right, xs, d), Unremoved(ms, b);
    forall i | 0 <= i < |xs|
      ensures got[i] ==> want[i]
      ensures ExcludesExactly(right, xs[i], va * Vars(r) != {}, d) <==> (got[i] <==> want[i])
    {
      assert xs[i] in xs && ms[i] in ms && Stands(xs[i], ms[i], users);
      MinusRow(r, c, xs[i], ms[i], va, d, data, users);
    }
    SameBits(right, xs, va * Vars(r) != {}, d, got, want);
  }

  lemma SameBits(right: Compiled, xs: seq<CRow>, shared: bool, d: Listing, got: seq<bool>, want: seq<bool>)
    requires |got| == |want| == |xs|
    requires forall i :: 0 <= i < |xs| ==> (ExcludesExactly(right, xs[i], shared, d) <==> (got[i] <==> want[i]))
    ensures got == want <==> forall x :: x in xs ==> ExcludesExactly(right, x, shared, d)
  {
    if forall x :: x in xs ==> ExcludesExactly(right, x, shared, d) {
      forall i | 0 <= i < |xs| ensures got[i] == want[i] {
        assert xs[i] in xs;
      }
    }
  }

  lemma PickedBags(a: seq<bool>, b: seq<bool>, rows: seq<CRow>)
    requires |a| == |b| == |rows| && forall i :: 0 <= i < |a| && a[i] ==> b[i]
    ensures SameBag(Pick(a, rows), Pick(b, rows)) <==> a == b
  {
    PickCompare(a, b, rows);
    assert |multiset(Pick(a, rows))| == |Pick(a, rows)| && |multiset(Pick(b, rows))| == |Pick(b, rows)|;
  }

  /** The two sides of MINUS, each a join tree with conditions of its own. */
  predicate MinusSidesOf(l: Pattern, r: Pattern) {
    JoinTree(l) && HasTriple(l) && JoinTree(r) && HasTriple(r)
  }

  /** The rows of the left side of a MINUS, before the subquery. */
  function LeftAnswer(l: Pattern, c: nat, d: Listing): seq<CRow> {
    Run(MatchClauses(Compile(l, c).parts), Compile(l, c).conds, d)
  }

  lemma MinusAnswered(l: Pattern, r: Pattern, c: nat, d: Listing, vars: set<string>)
    requires MinusSidesOf(l, r)
    ensures var right := Compile(r, Compile(l, c).next);
      MinusAnswer(l, r, c, d, vars) == ReturnAll(Where([NotExists(right.parts)], LeftAnswer(l, c, d), d), vars)
  {
    var left := Compile(l, c);
    JoinTreeParts(l, c);
    JoinTreeParts(r, left.next);
    MinusParts(Minus(l, r), c);
    RunWithNotExists(left.parts, left.conds, NotExists(Compile(r, left.next).parts), d);
  }

  lemma LeftAnswerStands(l: Pattern, r: Pattern, c: nat, d: Listing, data: seq<Triple>)
    requires MinusSidesOf(l, r) && Aligned(d.edges, data) && Made(Minus(l, r), c) !! Vars(l) + Vars(r)
    ensures var users, xs := Vars(l) + Vars(r), LeftAnswer(l, c, d);
      && AllStand(xs, Eval(l, data), users)
      && (forall m :: m in Eval(l, data) ==> m.Keys == Vars(l))
      && forall x :: x in xs ==> ReadyRow(x, Compile(l, c).next, Vars(r), users)
  {
    var users, xs := Vars(l) + Vars(r), LeftAnswer(l, c, d);
    JoinTreeRows(l, c, d, data, users);
    EvalShape(l, d.edges, data);
    GrownAreReady(xs, Compile(l, c), Vars(l), Vars(r), users);
  }

  lemma GrownAreReady(xs: seq<CRow>, left: Compiled, lvars: set<string>, rvars: set<string>, users: set<string>)
    requires rvars <= users && forall x :: x in xs ==> Grown(x, map[], left, lvars, users)
    ensures forall x :: x in xs ==> ReadyRow(x, left.next, rvars, users)
  {
    forall x | x in xs ensures ReadyRow(x, left.next, rvars, users) {
      assert Grown(x, map[], left, lvars, users);
    }
  }

  lemma MinusBitsOf(l: Pattern, r: Pattern, c: nat, d: Listing, data: seq<Triple>)
    requires MinusSidesOf(l, r) && Aligned(d.edges, data) && Made(Minus(l, r), c) !! Vars(l) + Vars(r)
    ensures var right, xs := Compile(r, Compile(l, c).next), LeftAnswer(l, c, d);
      var got, want := Unmatched(right, xs, d), Unremoved(Eval(l, data), Eval(r, data));
      && |got| == |want| && (forall i :: 0 <= i < |got| && got[i] ==> want[i])
      && (got == want <==> forall x :: x in xs ==> ExcludesExactly(right, x, Vars(l) * Vars(r) != {}, d))
  {
    LeftAnswerStands(l, r, c, d, data);
    MinusBits(r, Compile(l, c).next, LeftAnswer(l, c, d), Eval(l, data), Vars(l), d, data, Vars(l) + Vars(r));
  }

  lemma MinusRowsPicked(l: Pattern, r: Pattern, c: nat, d: Listing, data: seq<Triple>, vars: set<string>)
    requires MinusSidesOf(l, r) && Aligned(d.edges, data) && vars <= Vars(l) && Made(Minus(l, r), c) !! Vars(l) + Vars(r)
    ensures var right, xs := Compile(r, Compile(l, c).next), LeftAnswer(l, c, d);
      var rows, ms := ReturnAll(xs, vars), Eval(l, data);
      && |rows| == |xs| == |ms|
      && MinusAnswer(l, r, c, d, vars) == Pick(Unmatched(right, xs, d), rows)
      && EncodeAll(ProjectAll(MinusRows(ms, Eval(r, data)), vars)) == Pick(Unremoved(ms, Eval(r, data)), rows)
  {
    var right, xs := Compile(r, Compile(l, c).next), LeftAnswer(l, c, d);
    LeftAnswerStands(l, r, c, d, data);
    MinusAnswered(l, r, c, d, vars);
    PickWhere(right, xs, vars, d);
    PickMinus(Eval(l, data), Eval(r, data), vars);
    ProjectStanding(xs, Eval(l, data), Vars(l) + Vars(r), vars);
  }

  lemma MinusPicks(l: Pattern, r: Pattern, c: nat, d: Listing, data: seq<Triple>, vars: set<string>)
    requires MinusSidesOf(l, r) && Aligned(d.edges, data) && vars <= Vars(l)
    requires Made(Minus(l, r), c) !! Vars(l) + Vars(r)
    ensures var right, xs := Compile(r, Compile(l, c).next), LeftAnswer(l, c, d);
      SameBag(MinusAnswer(l, r, c, d, vars), EncodeAll(ProjectAll(MinusRows(Eval(l, data), Eval(r, data)), vars)))
      <==> forall x :: x in xs ==> ExcludesExactly(right, x, Vars(l) * Vars(r) != {}, d)
  {
    var right, xs := Compile(r, Compile(l, c).next), LeftAnswer(l, c, d);
    MinusBitsOf(l, r, c, d, data);
    MinusRowsPicked(l, r, c, d, data, vars);
    PickedBags(Unmatched(right, xs, d), Unremoved(Eval(l, data), Eval(r, data)), ReturnAll(xs, vars));
  }

  /** MINUS between any two join trees is answered rightly if and only if, for every row of the left
      side, the right side's paths have no match or the two sides share a variable and some match
      meets the right side's conditions. */
  lemma MinusConditionsExact(l: Pattern, r: Pattern, c: nat, d: Listing, ts: seq<Triple>, data: seq<Triple>, vars: set<string>)
    requires Serves(d, ts, data) && MinusSidesOf(l, r) && vars <= Vars(l)
    requires Made(Minus(l, r), c) !! Vars(l) + Vars(r)
    ensures Right(Minus(l, r), c, d, data, vars) <==>
      forall x :: x in LeftAnswer(l, c, d) ==> ExcludesExactly(Compile(r, Compile(l, c).next), x, Vars(l) * Vars(r) != {}, d)
  {
    var aligned := AlignedData(d, ts, data);
    MinusPicks(l, r, c, d, aligned, vars);
    assert Eval(Minus(l, r), aligned) == MinusRows(Eval(l, aligned), Eval(r, aligned));
    EvalPermutation(Minus(l, r), aligned, data);
    ProjectPermutation(Eval(Minus(l, r), aligned), Eval(Minus(l, r), data), vars);
  }
}
