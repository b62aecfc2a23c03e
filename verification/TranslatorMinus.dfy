/** MINUS as NOT EXISTS, and filters with parts that have no Cypher. */
module TranslatorMinus {
  import opened Common
  import opened Rdf
  import opened PropertyGraph
  import opened CypherQuery
  import opened S = Sparql
  import opened Translator
  import opened TranslatorJoins
  import opened TranslatorTheorem
  import opened TranslatorResults
  import opened TranslatorOptional

  /** An OPTIONAL-free left side and a right side all of whose ends are variables. */
  predicate MinusQuery(p: Pattern) {
    p.Minus? && JoinTree(p.left) && HasTriple(p.left) && VarTree(p.right) && HasTriple(p.right)
  }

  lemma {:induction false} EncodeAllLength(ms: seq<Row>)
    ensures |EncodeAll(ms)| == |ms|
  {
    if ms != [] { EncodeAllLength(ms[1..]); }
  }

  lemma {:induction false} ProjectAllLength(ms: seq<Row>, vars: set<string>)
    ensures |ProjectAll(ms, vars)| == |ms|
  {
    if ms != [] { ProjectAllLength(ms[1..], vars); }
  }

  lemma {:induction false} JoinRowEmpty(m: Row, b: seq<Row>)
    ensures JoinRow(m, b) == [] <==> forall x :: x in b ==> !Compatible(m, x)
  {
    if b != [] {
      JoinRowEmpty(m, b[1..]);
      assert b == [b[0]] + b[1..];
    }
  }

  /** The subquery finds something exactly when the right side has a compatible solution. */
  lemma ExistsIsCompatible(p: Pattern, c: nat, r: CRow, m: Row, d: Listing, data: seq<Triple>, users: set<string>)
    requires VarTree(p) && Ready(d, data, Vars(p), Made(p, c), users)
    requires Stands(r, m, users) && Below(r, c, users) && NodesAt(r, Vars(p))
    ensures MatchAll(Compile(p, c).parts, r, d.edges) == [] <==> JoinRow(m, Eval(p, data)) == []
  {
    var found := MatchAll(Compile(p, c).parts, r, d.edges);
    VarTreeIsJoinTree(p, c);
    CompileCorrect(p, c, r, m, d, data, users);
    WhereNone(found, d);
    ReturnAllLength(found, users);
    EncodeAllLength(JoinRow(m, Eval(p, data)));
  }

  /** What NOT EXISTS keeps, row by row. */
  function KeepIncompatible(ms: seq<Row>, b: seq<Row>): seq<Row> {
    if ms == [] then [] else (if JoinRow(ms[0], b) == [] then [ms[0]] else []) + KeepIncompatible(ms[1..], b)
  }

  lemma OneNotExists(parts: seq<Part>, r: CRow, m: Row, b: seq<Row>, d: Listing, users: set<string>)
    requires Stands(r, m, users)
    requires MatchAll(parts, r, d.edges) == [] <==> JoinRow(m, b) == []
    ensures AllStand(if AllTrue([NotExists(parts)], r, d) then [r] else [], if JoinRow(m, b) == [] then [m] else [], users)
  {
    var cs := [NotExists(parts)];
    assert AllTrue(cs, r, d) <==> CondTrue(cs[0], r, d);
  }

  lemma {:induction false} NotExistsRows(p: Pattern, c: nat, rs: seq<CRow>, ms: seq<Row>, d: Listing,
                                         data: seq<Triple>, users: set<string>)
    requires VarTree(p) && Ready(d, data, Vars(p), Made(p, c), users) && AllStand(rs, ms, users)
    requires forall r :: r in rs ==> Below(r, c, users) && NodesAt(r, Vars(p))
    ensures AllStand(Where([NotExists(Compile(p, c).parts)], rs, d), KeepIncompatible(ms, Eval(p, data)), users)
  {
    if rs != [] {
      var parts, b := Compile(p, c).parts, Eval(p, data);
      var cs := [NotExists(parts)];
      assert rs[0] in rs && Stands(rs[0], ms[0], users);
      ExistsIsCompatible(p, c, rs[0], ms[0], d, data, users);
      NotExistsRows(p, c, rs[1..], ms[1..], d, data, users);
      OneNotExists(parts, rs[0], ms[0], b, d, users);
      AllStandConcat(if AllTrue(cs, rs[0], d) then [rs[0]] else [], Where(cs, rs[1..], d),
                     if JoinRow(ms[0], b) == [] then [ms[0]] else [], KeepIncompatible(ms[1..], b), users);
    }
  }

  lemma {:induction false} KeepIsMinus(ms: seq<Row>, va: set<string>, b: seq<Row>, vb: set<string>)
    requires va * vb != {}
    requires forall m :: m in ms ==> m.Keys == va
    requires forall x :: x in b ==> x.Keys == vb
    ensures KeepIncompatible(ms, b) == MinusRows(ms, b)
  {
    if ms != [] {
      assert ms[0] in ms;
      JoinRowEmpty(ms[0], b);
      if x :| x in b && Compatible(ms[0], x) {
        var i :| 0 <= i < |b| && b[i] == x;
        assert Compatible(ms[0], b[i]) && ms[0].Keys * b[i].Keys != {};
      }
      KeepIsMinus(ms[1..], va, b, vb);
    }
  }

  lemma {:induction false} DisjointSides(ms: seq<Row>, va: set<string>, b: seq<Row>, vb: set<string>)
    requires va * vb == {}
    requires forall m :: m in ms ==> m.Keys == va
    requires forall x :: x in b ==> x.Keys == vb
    ensures MinusRows(ms, b) == ms
    ensures KeepIncompatible(ms, b) == if b == [] then ms else []
  {
    if ms != [] {
      assert ms[0] in ms;
      assert forall x :: x in b ==> ms[0].Keys * x.Keys == {};
      assert forall i :: 0 <= i < |b| ==> b[i] in b;
      JoinRowEmpty(ms[0], b);
      if b != [] {
        assert b[0] in b && Compatible(ms[0], b[0]) by {
          assert forall v :: v in ms[0] && v in b[0] ==> v in va * vb;
        }
      }
      DisjointSides(ms[1..], va, b, vb);
    }
  }

  lemma RunWithNotExists(parts: seq<Part>, conds: seq<Cond>, last: Cond, d: Listing)
    requires PathsOnly(parts) && parts != []
    ensures Run(MatchClauses(parts), conds + [last], d) == Where([last], Run(MatchClauses(parts), conds, d), d)
  {
    ClausesOfPaths(parts, []);
    assert [] + parts == parts;
    MatchEachOne(parts, map[], d.edges);
    WhereWhere(conds, [last], MatchAll(parts, map[], d.edges), d);
  }

  lemma MinusParts(p: Pattern, c: nat)
    requires p.Minus? && Compile(p.right, Compile(p.left, c).next).parts != []
    ensures var left := Compile(p.left, c);
      Compile(p, c).parts == left.parts
      && Compile(p, c).conds == left.conds + [NotExists(Compile(p.right, left.next).parts)]
  {
  }

  lemma RunMinus(p: Pattern, c: nat, d: Listing)
    requires MinusQuery(p)
    ensures var left := Compile(p.left, c);
      var right := Compile(p.right, left.next);
      var out := Compile(p, c);
      Run(MatchClauses(out.parts), out.conds, d)
      == Where([NotExists(right.parts)], Run(MatchClauses(left.parts), left.conds, d), d)
  {
    var left := Compile(p.left, c);
    var right := Compile(p.right, left.next);
    VarTreeIsJoinTree(p.right, left.next);
    JoinTreeParts(p.left, c);
    JoinTreeParts(p.right, left.next);
    MinusParts(p, c);
    RunWithNotExists(left.parts, left.conds, NotExists(right.parts), d);
  }

  lemma MinusRowsStand(p: Pattern, c: nat, d: Listing, data: seq<Triple>, users: set<string>)
    requires MinusQuery(p) && users == Vars(p.left) + Vars(p.right) && Ready(d, data, users, Made(p, c), users)
    ensures var out := Compile(p, c);
      AllStand(Run(MatchClauses(out.parts), out.conds, d), KeepIncompatible(Eval(p.left, data), Eval(p.right, data)), users)
  {
    var left := Compile(p.left, c);
    RunMinus(p, c, d);
    JoinTreeRows(p.left, c, d, data, users);
    var rows := Run(MatchClauses(left.parts), left.conds, d);
    forall r | r in rows ensures Below(r, left.next, users) && NodesAt(r, Vars(p.right)) {
      assert Grown(r, map[], left, Vars(p.left), users);
    }
    NotExistsRows(p.right, left.next, rows, Eval(p.left, data), d, data, users);
  }

  /** NOT EXISTS and Minus keep equal bags exactly under the condition of MinusExact. */
  lemma KeepAgainstMinus(a: seq<Row>, va: set<string>, b: seq<Row>, vb: set<string>, vars: set<string>)
    requires forall m :: m in a ==> m.Keys == va
    requires forall x :: x in b ==> x.Keys == vb
    ensures SameBag(EncodeAll(ProjectAll(KeepIncompatible(a, b), vars)), EncodeAll(ProjectAll(MinusRows(a, b), vars)))
      <==> va * vb != {} || a == [] || b == []
  {
    if va * vb != {} {
      KeepIsMinus(a, va, b, vb);
    } else {
      DisjointSides(a, va, b, vb);
      ProjectAllLength(a, vars);
      EncodeAllLength(ProjectAll(a, vars));
      if b != [] {
        assert |multiset(EncodeAll(ProjectAll(a, vars)))| == |a|;
        assert EncodeAll(ProjectAll([], vars)) == [];
      }
    }
  }

  /** What the database returns for l MINUS r. */
  ghost function MinusAnswer(l: Pattern, r: Pattern, c: nat, d: Listing, vars: set<string>): seq<CRow> {
    BranchRows(BranchOf(Compile(Minus(l, r), c)), vars, d)
  }

  lemma MinusBranch(l: Pattern, r: Pattern, c: nat, d: Listing, data: seq<Triple>, vars: set<string>)
    requires MinusQuery(Minus(l, r)) && vars <= Vars(l)
    requires Ready(d, data, Vars(l) + Vars(r), Made(Minus(l, r), c), Vars(l) + Vars(r))
    ensures MinusAnswer(l, r, c, d, vars) == EncodeAll(ProjectAll(KeepIncompatible(Eval(l, data), Eval(r, data)), vars))
  {
    var users, out := Vars(l) + Vars(r), Compile(Minus(l, r), c);
    MinusRowsStand(Minus(l, r), c, d, data, users);
    ProjectStanding(Run(MatchClauses(out.parts), out.conds, d),
                    KeepIncompatible(Eval(l, data), Eval(r, data)), users, vars);
  }

  lemma MinusSides(l: Pattern, r: Pattern, d: Listing, data: seq<Triple>, vars: set<string>)
    requires JoinTree(l) && VarTree(r) && Aligned(d.edges, data)
    ensures SameBag(EncodeAll(ProjectAll(KeepIncompatible(Eval(l, data), Eval(r, data)), vars)),
                    EncodeAll(ProjectAll(MinusRows(Eval(l, data), Eval(r, data)), vars)))
      <==> Vars(l) * Vars(r) != {} || Eval(l, data) == [] || Eval(r, data) == []
  {
    EvalShape(l, d.edges, data);
    VarTreeIsJoinTree(r, 0);
    EvalShape(r, d.edges, data);
    KeepAgainstMinus(Eval(l, data), Vars(l), Eval(r, data), Vars(r), vars);
  }

  /** The two bags differ or agree alike however the data is listed. */
  lemma MinusTransfer(l: Pattern, r: Pattern, data: seq<Triple>, data': seq<Triple>, vars: set<string>, rows: seq<CRow>)
    requires multiset(data) == multiset(data')
    requires SameBag(rows, EncodeAll(ProjectAll(MinusRows(Eval(l, data), Eval(r, data)), vars)))
      <==> Vars(l) * Vars(r) != {} || Eval(l, data) == [] || Eval(r, data) == []
    ensures SameBag(rows, EncodeAll(ProjectAll(MinusRows(Eval(l, data'), Eval(r, data')), vars)))
      <==> Vars(l) * Vars(r) != {} || Eval(l, data') == [] || Eval(r, data') == []
  {
    SameEmptiness(l, data, data');
    SameEmptiness(r, data, data');
    EvalPermutation(l, data, data');
    EvalPermutation(r, data, data');
    MinusRowsPermutation(Eval(l, data), Eval(l, data'), Eval(r, data), Eval(r, data'));
    ProjectPermutation(MinusRows(Eval(l, data), Eval(r, data)), MinusRows(Eval(l, data'), Eval(r, data')), vars);
  }

  /** The database returns the bag of solutions of l MINUS r. */
  ghost predicate NotExistsIsMinus(l: Pattern, r: Pattern, c: nat, d: Listing, data: seq<Triple>, vars: set<string>) {
    SameBag(MinusAnswer(l, r, c, d, vars), EncodeAll(ProjectAll(Eval(Minus(l, r), data), vars)))
  }

  ghost predicate SharedOrEmpty(l: Pattern, r: Pattern, data: seq<Triple>) {
    Vars(l) * Vars(r) != {} || Eval(l, data) == [] || Eval(r, data) == []
  }

  lemma MinusListed(l: Pattern, r: Pattern, c: nat, d: Listing, aligned: seq<Triple>, data: seq<Triple>, vars: set<string>)
    requires MinusQuery(Minus(l, r)) && vars <= Vars(l)
    requires Ready(d, aligned, Vars(l) + Vars(r), Made(Minus(l, r), c), Vars(l) + Vars(r)) && multiset(aligned) == multiset(data)
    ensures SameBag(MinusAnswer(l, r, c, d, vars), EncodeAll(ProjectAll(MinusRows(Eval(l, data), Eval(r, data)), vars)))
      <==> Vars(l) * Vars(r) != {} || Eval(l, data) == [] || Eval(r, data) == []
  {
    MinusBranch(l, r, c, d, aligned, vars);
    MinusSides(l, r, d, aligned, vars);
    MinusTransfer(l, r, aligned, data, vars, MinusAnswer(l, r, c, d, vars));
  }

  lemma MinusMeans(l: Pattern, r: Pattern, c: nat, d: Listing, data: seq<Triple>, vars: set<string>)
    ensures NotExistsIsMinus(l, r, c, d, data, vars)
      <==> SameBag(MinusAnswer(l, r, c, d, vars), EncodeAll(ProjectAll(MinusRows(Eval(l, data), Eval(r, data)), vars)))
  {
    assert Eval(Minus(l, r), data) == MinusRows(Eval(l, data), Eval(r, data));
  }

  /** The translation of MINUS is exact precisely when the two sides share a variable, or one of
      them has no solution: with nothing shared, the algebra keeps every row and NOT EXISTS none. */
  lemma MinusExact(l: Pattern, r: Pattern, c: nat, d: Listing, ts: seq<Triple>, data: seq<Triple>, vars: set<string>)
    requires Serves(d, ts, data)
    requires MinusQuery(Minus(l, r)) && Made(Minus(l, r), c) !! Vars(l) + Vars(r) && vars <= Vars(l)
    ensures NotExistsIsMinus(l, r, c, d, data, vars) <==> SharedOrEmpty(l, r, data)
  {
    var aligned := AlignedData(d, ts, data);
    MinusListed(l, r, c, d, aligned, data, vars);
    MinusMeans(l, r, c, d, data, vars);
  }

  lemma SameEmptiness(p: Pattern, data: seq<Triple>, data': seq<Triple>)
    requires multiset(data) == multiset(data')
    ensures Eval(p, data) == [] <==> Eval(p, data') == []
  {
    EvalPermutation(p, data, data');
    assert |Eval(p, data)| == |multiset(Eval(p, data))| == |Eval(p, data')|;
  }

  // ----- filters with untranslatable parts

  predicate Translates(e: Expr) {
    TranslateExpr(e).Some?
  }

  /** No conjunct is dropped under an odd number of negations, and no variable is compared with an IRI under
      an even number; odd says whether e stands under an odd one. */
  predicate Lossless(e: Expr, odd: bool) {
    match e
    case And(e1, e2) =>
      && (odd && Translates(e) ==> Translates(e1) && Translates(e2))
      && (Translates(e1) ==> Lossless(e1, odd)) && (Translates(e2) ==> Lossless(e2, odd))
    case Or(e1, e2) => Translates(e) ==> Lossless(e1, odd) && Lossless(e2, odd)
    case Not(e1) => Lossless(e1, !odd)
    case EqualIri(_, _) => odd
    case _ => true
  }

  /** Fully translated filters have the same truth value, error read as null. */
  lemma FilterExact(e: Expr, m: Row, r: CRow, users: set<string>)
    requires Supported(e) && ExprVars(e) <= users && Stands(r, m, users)
    ensures TranslateExpr(e).Some? && EvalC(TranslateExpr(e).value, r) == EvalExpr(e, m)
  {
    ExprAgrees(e, m, r, users);
  }

  /** Leaving conjuncts out only weakens: what was true stays true, and under an odd number of
      negations what was false stays false. */
  lemma {:induction false} FilterWeakens(e: Expr, odd: bool, m: Row, r: CRow, users: set<string>)
    requires Lossless(e, odd) && Translates(e) && ExprVars(e) <= users && Stands(r, m, users)
    requires EvalExpr(e, m) == if odd then No else Yes
    ensures EvalC(TranslateExpr(e).value, r) == if odd then No else Yes
  {
    match e
    case And(e1, e2) =>
      if Translates(e1) && EvalExpr(e1, m) == (if odd then No else Yes) { FilterWeakens(e1, odd, m, r, users); }
      if Translates(e2) && EvalExpr(e2, m) == (if odd then No else Yes) { FilterWeakens(e2, odd, m, r, users); }
    case Or(e1, e2) =>
      if EvalExpr(e1, m) == (if odd then No else Yes) { FilterWeakens(e1, odd, m, r, users); }
      if EvalExpr(e2, m) == (if odd then No else Yes) { FilterWeakens(e2, odd, m, r, users); }
    case Not(e1) => FilterWeakens(e1, !odd, m, r, users);
    case EqualIri(v, _) => StandsAt(r, m, users, v);
    case _ => FilterExact(e, m, r, users);
  }

  /** Every solution the original filter accepts is accepted by the emitted conditions, if no conjunct
      was dropped under an odd number of negations and no IRI compared under an even one. */
  lemma FilterKeepsSolutions(e: Expr, m: Row, r: CRow, users: set<string>, d: Listing)
    requires Lossless(e, false) && ExprVars(e) <= users && Stands(r, m, users)
    requires Accepts(Some(e), m)
    ensures AllTrue(FilterConds(e), r, d)
  {
    if Translates(e) { FilterWeakens(e, false, m, r, users); }
  }

  /** NOT (e1 AND f) becomes NOT e1 when f has no Cypher. Whatever passes was accepted, and an
      accepted row passes if and only if f is false on it only where e1 is. */
  lemma NegationLosesSolutions(e1: Expr, f: Expr, m: Row, r: CRow, users: set<string>, d: Listing)
    requires Supported(e1) && ExprVars(e1) <= users && Stands(r, m, users) && !Translates(f)
    ensures var e := Not(And(e1, f));
      && (AllTrue(FilterConds(e), r, d) ==> Accepts(Some(e), m))
      && ((Accepts(Some(e), m) ==> AllTrue(FilterConds(e), r, d)) <==> (EvalExpr(f, m) == No ==> EvalExpr(e1, m) == No))
  {
    FilterExact(e1, m, r, users);
    NegationEmits(e1, f, r, d);
    assert EvalExpr(And(e1, f), m) == AndT(EvalExpr(e1, m), EvalExpr(f, m));
  }

  lemma NegationEmits(e1: Expr, f: Expr, r: CRow, d: Listing)
    requires Translates(e1) && !Translates(f)
    ensures AllTrue(FilterConds(Not(And(e1, f))), r, d) <==> EvalC(TranslateExpr(e1).value, r) == No
  {
    var both, t := And(e1, f), TranslateExpr(e1).value;
    assert TranslateExpr(both) == Some(t);
    assert TranslateExpr(Not(both)) == Some(NotC(t));
    var cs := [Holds(NotC(t))];
    assert FilterConds(Not(both)) == cs && (AllTrue(cs, r, d) <==> CondTrue(cs[0], r, d));
  }
}
