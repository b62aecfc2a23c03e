/** A pattern joined after an OPTIONAL. Its MATCH comes after the OPTIONAL MATCH, and a variable that is
    null by then matches nothing, where the algebra would bind it. On the other hand the WHERE is the
    later MATCH's, so constants in front of the OPTIONAL restrict again. */
module TranslatorSequel {
  import opened Common
  import opened Rdf
  import opened PropertyGraph
  import opened CypherQuery
  import opened S = Sparql
  import opened Translator
  import opened BgpSolutions
  import opened TranslatorJoins
  import opened TranslatorTheorem
  import opened TranslatorResults
  import opened TranslatorOptional
  import opened TranslatorMinus
  import opened TranslatorNames
  import opened TranslatorDropped
  import opened TranslatorLimits
  import opened TranslatorConstants
  import opened Schema

  /** l OPTIONAL { r } q: join trees around an OPTIONAL without conditions. */
  function Sequel(l: Pattern, r: Pattern, q: Pattern): Pattern {
    Join(LeftJoin(l, r, None), q)
  }

  predicate SequelParts(l: Pattern, r: Pattern, q: Pattern) {
    JoinTree(l) && HasTriple(l) && VarTree(r) && HasTriple(r) && JoinTree(q) && HasTriple(q)
  }

  // ----- the clauses

  lemma {:induction false} ClausesAroundOptional(parts: seq<Part>, current: seq<Part>, opt: seq<Part>, more: seq<Part>)
    ensures Clauses(parts + [OptionalPart(opt)] + more, current)
         == Clauses(parts, current) + [OptionalMatch(opt)] + Clauses(more, [])
    decreases |parts|
  {
    var all := parts + [OptionalPart(opt)] + more;
    if parts == [] {
      assert all[1..] == more;
    } else {
      assert all[0] == parts[0] && all[1..] == parts[1..] + [OptionalPart(opt)] + more;
      ClausesAroundOptional(parts[1..], if parts[0].OptionalPart? then [] else current + [parts[0]], opt, more);
    }
  }

  lemma ThreeClauses(lparts: seq<Part>, rparts: seq<Part>, qparts: seq<Part>)
    requires PathsOnly(lparts) && PathsOnly(qparts) && lparts != [] && qparts != []
    ensures MatchClauses(lparts + [OptionalPart(rparts)] + qparts) == [Match(lparts), OptionalMatch(rparts), Match(qparts)]
  {
    ClausesAroundOptional(lparts, [], rparts, qparts);
    ClausesOfPaths(lparts, []);
    ClausesOfPaths(qparts, []);
    assert [] + lparts == lparts && [] + qparts == qparts;
  }

  lemma CompileSequel(l: Pattern, r: Pattern, q: Pattern, c: nat)
    requires Compile(r, Compile(l, c).next).parts != []
    ensures var left := Compile(l, c);
      var right := Compile(r, left.next);
      var last, out := Compile(q, right.next), Compile(Sequel(l, r, q), c);
      out.parts == left.parts + [OptionalPart(right.parts)] + last.parts && out.conds == left.conds + last.conds
  {
    var left := Compile(l, c);
    var right := Compile(r, left.next);
    var both := Compile(LeftJoin(l, r, None), c);
    assert both.parts == left.parts + [OptionalPart(right.parts)] && both.conds == left.conds + [] == left.conds;
    assert Compile(Sequel(l, r, q), c) == Then(both, Compile(q, both.next));
  }

  lemma SequelClauses(l: Pattern, r: Pattern, q: Pattern, c: nat)
    requires SequelParts(l, r, q)
    ensures var left := Compile(l, c);
      var right := Compile(r, left.next);
      var last, out := Compile(q, right.next), Compile(Sequel(l, r, q), c);
      MatchClauses(out.parts) == [Match(left.parts), OptionalMatch(right.parts), Match(last.parts)]
      && out.conds == left.conds + last.conds
  {
    var left := Compile(l, c);
    var right := Compile(r, left.next);
    VarTreeIsJoinTree(r, left.next);
    JoinTreeParts(l, c);
    JoinTreeParts(r, left.next);
    JoinTreeParts(q, right.next);
    CompileSequel(l, r, q, c);
    ThreeClauses(left.parts, right.parts, Compile(q, right.next).parts);
  }

  lemma RunSequel(l: Pattern, r: Pattern, q: Pattern, c: nat, d: Listing)
    requires SequelParts(l, r, q)
    ensures var left := Compile(l, c);
      var right := Compile(r, left.next);
      var last := Compile(q, right.next);
      LeftAnswer(Sequel(l, r, q), c, d)
      == Where(left.conds + last.conds,
               MatchEach(last.parts, OptionalEach([], right.parts, MatchAll(left.parts, map[], d.edges), d), d.edges), d)
  {
    var left := Compile(l, c);
    var right := Compile(r, left.next);
    var last := Compile(q, right.next);
    SequelClauses(l, r, q, c);
    var first, two := [Match(left.parts)], [Match(left.parts), OptionalMatch(right.parts)];
    assert two + [Match(last.parts)] == [Match(left.parts), OptionalMatch(right.parts), Match(last.parts)];
    assert first + [OptionalMatch(right.parts)] == two;
    RunThenLast(two, Match(last.parts), left.conds + last.conds, [map[]], d);
    RunThenLast(first, OptionalMatch(right.parts), [], [map[]], d);
    MatchEachOne(left.parts, map[], d.edges);
    WhereNone(MatchAll(left.parts, map[], d.edges), d);
  }

  // ----- the late conditions of the left side

  lemma OptionalRowExtends(parts: seq<Part>, x: CRow, d: Listing)
    ensures forall y :: y in OptionalRow([], parts, x, d) ==> Extends(y, x)
  {
    MatchAllExtends(parts, x, d.edges);
    WhereSubset([], MatchAll(parts, x, d.edges), d);
    assert Extends(WithNulls(x, parts), x);
  }

  /** Conditions settled before an OPTIONAL MATCH may be checked after it. */
  lemma {:induction false} WhereBeforeOptional(cs: seq<Cond>, parts: seq<Part>, xs: seq<CRow>, d: Listing)
    requires forall x, i :: x in xs && 0 <= i < |cs| ==> Settled(cs[i], x)
    ensures Where(cs, OptionalEach([], parts, xs, d), d) == OptionalEach([], parts, Where(cs, xs, d), d)
  {
    if xs != [] {
      var x := xs[0];
      assert x in xs && forall y :: y in xs[1..] ==> y in xs;
      WhereBeforeOptional(cs, parts, xs[1..], d);
      WhereConcat(cs, OptionalRow([], parts, x, d), OptionalEach([], parts, xs[1..], d), d);
      OptionalRowExtends(parts, x, d);
      WhereUniform(cs, OptionalRow([], parts, x, d), x, d);
      var rest := Where(cs, xs[1..], d);
      if AllTrue(cs, x, d) {
        assert Where(cs, xs, d) == [x] + rest && ([x] + rest)[1..] == rest;
      } else {
        assert Where(cs, xs, d) == [] + rest == rest;
      }
    }
  }

  lemma {:induction false} OptionalEachSettled(cs: seq<Cond>, parts: seq<Part>, xs: seq<CRow>, d: Listing)
    requires forall x, i :: x in xs && 0 <= i < |cs| ==> Settled(cs[i], x)
    ensures forall y, i :: y in OptionalEach([], parts, xs, d) && 0 <= i < |cs| ==> Settled(cs[i], y)
  {
    if xs != [] {
      assert xs[0] in xs && forall y :: y in xs[1..] ==> y in xs;
      OptionalEachSettled(cs, parts, xs[1..], d);
      OptionalRowExtends(parts, xs[0], d);
    }
  }

  /** So the left side's conditions might as well be checked at once. */
  lemma ConditionsAtOnce(lconds: seq<Cond>, qconds: seq<Cond>, rparts: seq<Part>, qparts: seq<Part>, xs: seq<CRow>, d: Listing)
    requires forall x, i :: x in xs && 0 <= i < |lconds| ==> Settled(lconds[i], x)
    ensures Where(lconds + qconds, MatchEach(qparts, OptionalEach([], rparts, xs, d), d.edges), d)
         == Where(qconds, MatchEach(qparts, OptionalEach([], rparts, Where(lconds, xs, d), d), d.edges), d)
  {
    var rows := OptionalEach([], rparts, xs, d);
    WhereWhere(lconds, qconds, MatchEach(qparts, rows, d.edges), d);
    OptionalEachSettled(lconds, rparts, xs, d);
    WhereBeforeMatch(lconds, qparts, rows, d);
    WhereBeforeOptional(lconds, rparts, xs, d);
  }

  // ----- rows of the OPTIONAL as the later MATCH meets them

  /** The row has null for a variable of q. */
  predicate NullFor(x: CRow, qvars: set<string>) {
    exists v :: v in qvars && v in x && x[v] == Null
  }

  lemma {:induction false} NullStops(q: Pattern, c: nat, x: CRow, d: Listing, v: string)
    requires JoinTree(q) && v in Vars(q) && v in x && x[v] == Null
    ensures MatchAll(Compile(q, c).parts, x, d.edges) == []
  {
    var parts := Compile(q, c).parts;
    JoinTreeParts(q, c);
    EndOfSomePath(q, c, v);
    var i :| 0 <= i < |parts| && (parts[i].path.source == v || parts[i].path.target == v);
    var rows := MatchAll(parts, x, d.edges);
    if rows != [] {
      EndIsNode(parts, x, d.edges, rows[0], i);
      assert false;
    }
  }

  lemma EndIsNode(parts: seq<Part>, x: CRow, edges: seq<Edge>, y: CRow, i: nat)
    requires PathsOnly(parts) && i < |parts| && y in MatchAll(parts, x, edges)
    ensures Extends(y, x) && {parts[i].path.source, parts[i].path.target} <= y.Keys
    ensures y[parts[i].path.source].NodeVal? && y[parts[i].path.target].NodeVal?
  {
    MatchAllExtends(parts, x, edges);
    RowTraverses(parts, x, edges, y, i);
    var e :| e in edges && Traverses(y, parts[i].path, e);
  }

  /** Every variable of q is an end of one of its paths. */
  lemma {:induction false} EndOfSomePath(q: Pattern, c: nat, v: string)
    requires JoinTree(q) && v in Vars(q)
    ensures var parts := Compile(q, c).parts;
      PathsOnly(parts) && exists i :: 0 <= i < |parts| && (parts[i].path.source == v || parts[i].path.target == v)
  {
    JoinTreeParts(q, c);
    match q
    case Bgp(tps) => EndInBgp(tps, c, v);
    case Filter(p, _) => EndOfSomePath(p, c, v);
    case Join(l, r) =>
      var a := Compile(l, c);
      JoinTreeParts(l, c);
      JoinTreeParts(r, a.next);
      var b := Compile(r, a.next);
      if v in Vars(l) {
        EndOfSomePath(l, c, v);
        var i :| 0 <= i < |a.parts| && (a.parts[i].path.source == v || a.parts[i].path.target == v);
        assert (a.parts + b.parts)[i] == a.parts[i];
      } else {
        EndOfSomePath(r, a.next, v);
        var i :| 0 <= i < |b.parts| && (b.parts[i].path.source == v || b.parts[i].path.target == v);
        assert (a.parts + b.parts)[|a.parts| + i] == b.parts[i];
      }
  }

  lemma {:induction false} EndInBgp(tps: seq<TriplePattern>, c: nat, v: string)
    requires (forall i :: 0 <= i < |tps| ==> PlainPattern(tps[i])) && v in BgpVars(tps)
    ensures var parts := CompileBgp(tps, c).parts;
      PathsOnly(parts) && exists i :: 0 <= i < |parts| && (parts[i].path.source == v || parts[i].path.target == v)
  {
    var first := CompileTriple(tps[0], c);
    var parts, rest := CompileBgp(tps, c).parts, CompileBgp(tps[1..], first.next).parts;
    BgpParts(tps, c);
    assert parts[0] == first.parts[0] && parts[1..] == rest;
    if v in TripleVars(tps[0]) {
      assert parts[0].path.source == v || parts[0].path.target == v;
    } else {
      EndInBgp(tps[1..], first.next, v);
      var i :| 0 <= i < |rest| && (rest[i].path.source == v || rest[i].path.target == v);
      assert parts[i + 1] == rest[i];
    }
  }

  /** A row of the OPTIONAL: it stands for m, and every variable of the OPTIONAL is in it, null where m has none. */
  ghost predicate SequelRow(x: CRow, m: Row, lvars: set<string>, rvars: set<string>, c: nat, users: set<string>) {
    && Stands(x, m, users) && Below(x, c, users) && lvars + rvars <= x.Keys && lvars <= m.Keys
    && forall v :: v in users && v in x ==> v in lvars + rvars
  }

  lemma NullWhereUnbound(x: CRow, m: Row, lvars: set<string>, rvars: set<string>, c: nat, users: set<string>, qvars: set<string>)
    requires SequelRow(x, m, lvars, rvars, c, users) && qvars <= users && rvars <= users
    ensures NullFor(x, qvars) <==> !(qvars * rvars <= m.Keys)
    ensures !NullFor(x, qvars) ==> NodesAt(x, qvars)
  {
    forall v | v in qvars
      ensures v in m <==> v in x && x[v] != Null
      ensures v in m ==> x[v].NodeVal?
    {
      StandsAt(x, m, users, v);
    }
    if v :| v in qvars * rvars && v !in m { assert v in x && x[v] == Null; }
    if v :| v in qvars && v in x && x[v] == Null { assert v in qvars * rvars && v !in m; }
  }

  /** What the later MATCH finds from one row: what the algebra has, or nothing where it meets a null. */
  lemma SequelStep(q: Pattern, c: nat, x: CRow, m: Row, lvars: set<string>, rvars: set<string>, d: Listing,
                   data: seq<Triple>, users: set<string>)
    requires JoinTree(q) && Ready(d, data, Vars(q), Made(q, c), users) && rvars <= users
    requires SequelRow(x, m, lvars, rvars, c, users)
    ensures var last := Compile(q, c);
      ReturnAll(Where(last.conds, MatchAll(last.parts, x, d.edges), d), users)
      == if Vars(q) * rvars <= m.Keys then EncodeAll(JoinRow(m, Eval(q, data))) else []
  {
    NullWhereUnbound(x, m, lvars, rvars, c, users, Vars(q));
    if NullFor(x, Vars(q)) {
      var v :| v in Vars(q) && v in x && x[v] == Null;
      NullStops(q, c, x, d, v);
    } else {
      CompileCorrect(q, c, x, m, d, data, users);
    }
  }

  // ----- all rows

  /** The joined rows that the later MATCH reaches: those from rows that bind all of the variables both. */
  function Reached(ms: seq<Row>, b: seq<Row>, both: set<string>): seq<Row> {
    if ms == [] then [] else (if both <= ms[0].Keys then JoinRow(ms[0], b) else []) + Reached(ms[1..], b, both)
  }

  /** Whatever a row leaves unbound of both keeps it from having joined rows. */
  ghost predicate NothingMissed(ms: seq<Row>, b: seq<Row>, both: set<string>) {
    forall m :: m in ms ==> both <= m.Keys || !Meets(m, b)
  }

  lemma {:induction false} ReachedCount(ms: seq<Row>, b: seq<Row>, both: set<string>)
    ensures |Reached(ms, b, both)| <= |JoinRows(ms, b)|
    ensures |Reached(ms, b, both)| == |JoinRows(ms, b)| ==> NothingMissed(ms, b, both)
    ensures NothingMissed(ms, b, both) ==> Reached(ms, b, both) == JoinRows(ms, b)
  {
    if ms != [] {
      ReachedCount(ms[1..], b, both);
      JoinRowEmpty(ms[0], b);
      assert ms == [ms[0]] + ms[1..];
      assert ms[0] in ms && forall m :: m in ms[1..] ==> m in ms;
    }
  }

  lemma ReachedBags(ms: seq<Row>, b: seq<Row>, both: set<string>)
    ensures SameBag(EncodeAll(Reached(ms, b, both)), EncodeAll(JoinRows(ms, b))) <==> NothingMissed(ms, b, both)
  {
    ReachedCount(ms, b, both);
    EncodeAllLength(Reached(ms, b, both));
    EncodeAllLength(JoinRows(ms, b));
    assert |multiset(EncodeAll(Reached(ms, b, both)))| == |Reached(ms, b, both)|;
    assert |multiset(EncodeAll(JoinRows(ms, b)))| == |JoinRows(ms, b)|;
  }

  ghost predicate SequelRows(xs: seq<CRow>, ms: seq<Row>, lvars: set<string>, rvars: set<string>, c: nat, users: set<string>) {
    |xs| == |ms| && forall i :: 0 <= i < |xs| ==> SequelRow(xs[i], ms[i], lvars, rvars, c, users)
  }

  lemma {:induction false} SequelRowsReach(q: Pattern, c: nat, xs: seq<CRow>, ms: seq<Row>, lvars: set<string>, rvars: set<string>,
                                           d: Listing, data: seq<Triple>, users: set<string>)
    requires JoinTree(q) && Ready(d, data, Vars(q), Made(q, c), users) && rvars <= users
    requires SequelRows(xs, ms, lvars, rvars, c, users)
    ensures var last := Compile(q, c);
      ReturnAll(Where(last.conds, MatchEach(last.parts, xs, d.edges), d), users)
      == EncodeAll(Reached(ms, Eval(q, data), Vars(q) * rvars))
    decreases |xs|
  {
    if xs != [] {
      var last, b, both := Compile(q, c), Eval(q, data), Vars(q) * rvars;
      assert SequelRow(xs[0], ms[0], lvars, rvars, c, users);
      SequelStep(q, c, xs[0], ms[0], lvars, rvars, d, data, users);
      SequelRowsReach(q, c, xs[1..], ms[1..], lvars, rvars, d, data, users);
      var head, tail := MatchAll(last.parts, xs[0], d.edges), MatchEach(last.parts, xs[1..], d.edges);
      WhereConcat(last.conds, head, tail, d);
      ReturnAllConcat(Where(last.conds, head, d), Where(last.conds, tail, d), users);
      EncodeAllConcat(if both <= ms[0].Keys then JoinRow(ms[0], b) else [], Reached(ms[1..], b, both));
    }
  }

  // ----- the rows of the OPTIONAL are such rows

  lemma {:induction false} OptionalBindsAll(r: Pattern, c: nat, xs: seq<CRow>, d: Listing, users: set<string>)
    requires VarTree(r) && Vars(r) <= users && Made(r, c) !! users && forall x :: x in xs ==> Below(x, c, users)
    ensures forall y :: y in OptionalEach([], Compile(r, c).parts, xs, d) ==> Vars(r) <= y.Keys
  {
    if xs != [] {
      var parts := Compile(r, c).parts;
      assert xs[0] in xs && forall x :: x in xs[1..] ==> x in xs;
      OptionalBindsAll(r, c, xs[1..], d, users);
      VarTreeIsJoinTree(r, c);
      RowsGrown(r, c, xs[0], d.edges, users);
      JoinTreePartVars(r, c);
      WhereNone(MatchAll(parts, xs[0], d.edges), d);
      forall y | y in OptionalRow([], parts, xs[0], d) ensures Vars(r) <= y.Keys {
        if y in MatchAll(parts, xs[0], d.edges) { assert Grown(y, xs[0], Compile(r, c), Vars(r), users); }
      }
    }
  }

  lemma LeftJoinRowKeeps(m: Row, b: seq<Row>, e: Option<Expr>)
    ensures forall x :: x in LeftJoinRow(m, b, e) ==> m.Keys <= x.Keys
  {
    FilterRowsSubset(e, JoinRow(m, b));
    JoinRowKeeps(m, b);
  }

  lemma {:induction false} JoinRowKeeps(m: Row, b: seq<Row>)
    ensures forall x :: x in JoinRow(m, b) ==> m.Keys <= x.Keys
  {
    if b != [] { JoinRowKeeps(m, b[1..]); }
  }

  lemma {:induction false} LeftJoinKeeps(ms: seq<Row>, b: seq<Row>, e: Option<Expr>, va: set<string>)
    requires forall m :: m in ms ==> va <= m.Keys
    ensures forall x :: x in LeftJoinRows(ms, b, e) ==> va <= x.Keys
  {
    if ms != [] {
      assert ms[0] in ms && forall m :: m in ms[1..] ==> m in ms;
      LeftJoinRowKeeps(ms[0], b, e);
      LeftJoinKeeps(ms[1..], b, e, va);
    }
  }

  lemma LeftIsChain(l: Pattern, c: nat, d: Listing, data: seq<Triple>, users: set<string>)
    requires JoinTree(l) && HasTriple(l) && Ready(d, data, Vars(l), Made(l, c), users)
    ensures AllStand(LeftAnswer(l, c, d), Eval(l, data), users)
    ensures forall x :: x in LeftAnswer(l, c, d) ==> ChainRow(x, l, Compile(l, c).next, users)
  {
    var left := Compile(l, c);
    JoinTreeRows(l, c, d, data, users);
    RunJoinTree(l, c, d);
    LeftRows(l, c, d, users);
    WhereSubset(left.conds, MatchAll(left.parts, map[], d.edges), d);
    forall x | x in LeftAnswer(l, c, d) ensures ChainRow(x, l, left.next, users) {
      assert LeftRow(x, left, Vars(l), users);
    }
  }

  lemma OptionalAnswer(l: Pattern, r: Pattern, c: nat, d: Listing, data: seq<Triple>, users: set<string>)
    requires JoinTree(l) && HasTriple(l) && VarTree(r) && Aligned(d.edges, data)
    requires Vars(l) + Vars(r) <= users && Made(LeftJoin(l, r, None), c) !! users
    ensures var right := Compile(r, Compile(l, c).next);
      var p := LeftJoin(l, r, None);
      var rows := OptionalEach([], right.parts, LeftAnswer(l, c, d), d);
      && AllStand(rows, Eval(p, data), users)
      && (forall y :: y in rows ==> ChainRow(y, p, right.next, users) && Vars(r) <= y.Keys)
      && forall m :: m in Eval(p, data) ==> Vars(l) <= m.Keys
  {
    var next := Compile(l, c).next;
    LeftIsChain(l, c, d, data, users);
    OptionalStepEach(l, r, None, next, LeftAnswer(l, c, d), Eval(l, data), d, data, users);
    OptionalBindsAll(r, next, LeftAnswer(l, c, d), d, users);
    EvalShape(l, d.edges, data);
    LeftJoinKeeps(Eval(l, data), Eval(r, data), None, Vars(l));
  }

  lemma MeetsSequel(xs: seq<CRow>, ms: seq<Row>, l: Pattern, r: Pattern, c: nat, users: set<string>)
    requires AllStand(xs, ms, users) && (forall m :: m in ms ==> Vars(l) <= m.Keys) && JoinTree(l)
    requires forall y :: y in xs ==> ChainRow(y, LeftJoin(l, r, None), c, users) && Vars(r) <= y.Keys
    ensures SequelRows(xs, ms, Vars(l), Vars(r), c, users)
  {
    forall i | 0 <= i < |xs| ensures SequelRow(xs[i], ms[i], Vars(l), Vars(r), c, users) {
      assert xs[i] in xs && ms[i] in ms && Stands(xs[i], ms[i], users);
    }
  }

  lemma SequelAnswer(l: Pattern, r: Pattern, q: Pattern, c: nat, d: Listing, data: seq<Triple>)
    requires SequelParts(l, r, q) && Aligned(d.edges, data) && Made(Sequel(l, r, q), c) !! Vars(Sequel(l, r, q))
    ensures Answered(Sequel(l, r, q), c, d)
         == EncodeAll(Reached(Eval(LeftJoin(l, r, None), data), Eval(q, data), Vars(q) * Vars(r)))
  {
    var users, left := Vars(Sequel(l, r, q)), Compile(l, c);
    var right := Compile(r, left.next);
    var found := MatchAll(left.parts, map[], d.edges);
    var last := Compile(q, right.next);
    RunSequel(l, r, q, c, d);
    LeftRows(l, c, d, users);
    forall x, i | x in found && 0 <= i < |left.conds| ensures Settled(left.conds[i], x) {
      assert LeftRow(x, left, Vars(l), users);
    }
    ConditionsAtOnce(left.conds, last.conds, right.parts, last.parts, found, d);
    RunJoinTree(l, c, d);
    OptionalAnswer(l, r, c, d, data, users);
    var rows, ms := OptionalEach([], right.parts, LeftAnswer(l, c, d), d), Eval(LeftJoin(l, r, None), data);
    MeetsSequel(rows, ms, l, r, right.next, users);
    SequelRowsReach(q, right.next, rows, ms, Vars(l), Vars(r), d, data, users);
  }

  /** l OPTIONAL { r } q, with any constants and filters in l and q: right if and only if no solution of
      the OPTIONAL that leaves a variable of q unbound has a compatible solution of q. */
  lemma SequelExact(l: Pattern, r: Pattern, q: Pattern, c: nat, d: Listing, ts: seq<Triple>, data: seq<Triple>)
    requires Serves(d, ts, data) && SequelParts(l, r, q) && Made(Sequel(l, r, q), c) !! Vars(Sequel(l, r, q))
    ensures Right(Sequel(l, r, q), c, d, data, Vars(Sequel(l, r, q)))
      <==> NothingMissed(Eval(LeftJoin(l, r, None), data), Eval(q, data), Vars(q) * Vars(r))
  {
    var p, both := LeftJoin(l, r, None), Vars(q) * Vars(r);
    var aligned := AlignedData(d, ts, data);
    RightIs(Sequel(l, r, q), c, d, aligned, data);
    SequelAnswer(l, r, q, c, d, aligned);
    ReachedBags(Eval(p, aligned), Eval(q, aligned), both);
    SameMembers(p, aligned, data);
    SameMembers(q, aligned, data);
    assert forall m :: Meets(m, Eval(q, aligned)) <==> Meets(m, Eval(q, data));
  }

  // ----- data on which it goes wrong

  lemma {:induction false} NothingToExtend(ms: seq<Row>)
    ensures LeftJoinRows(ms, [], None) == ms
  {
    if ms != [] { NothingToExtend(ms[1..]); }
  }

  lemma {:induction false} NoSuchPredicate(v: string, p: string, w: string, data: seq<Triple>)
    requires forall t :: t in data ==> t.pred != p
    ensures Eval(Bgp([BetweenVars(v, p, w)]), data) == []
  {
    var tp := BetweenVars(v, p, w);
    forall m ensures m !in EvalBgp([tp], data) {
      EvalBgpMember([tp], data, m);
      assert tp in [tp];
    }
    Inhabited(EvalBgp([tp], data));
  }

  lemma ThreeBetween(s: string, o: string, w: string, z: string, p: string, u: string)
    requires Clean(p) && Clean(u)
    ensures var l, r, q := Bgp([BetweenVars(s, p, o)]), Bgp([BetweenVars(s, u, w)]), Bgp([BetweenVars(z, p, w)]);
      && SequelParts(l, r, q) && Vars(l) == {s, o} && Vars(r) == {s, w} && Vars(q) == {z, w}
      && Made(Sequel(l, r, q), 0) == {Fresh("r", 0), Fresh("r", 1), Fresh("r", 2)}
  {
    CompileBetween(s, p, o, 0);
    CompileBetween(s, u, w, 1);
    CompileBetween(z, p, w, 2);
    VarTreeIsJoinTree(Bgp([BetweenVars(s, p, o)]), 0);
    VarTreeIsJoinTree(Bgp([BetweenVars(z, p, w)]), 0);
    CompileSequel(Bgp([BetweenVars(s, p, o)]), Bgp([BetweenVars(s, u, w)]), Bgp([BetweenVars(z, p, w)]), 0);
  }

  /** On data with the one triple a p b, ?s p ?o OPTIONAL { ?s u ?w } ?z p ?w has a solution, with b for ?w;
      the query returns none, because ?w is null when ?z p ?w is matched. */
  lemma SequelWrong(t: Triple, u: string, s: string, o: string, w: string, z: string, d: Listing, data: seq<Triple>)
    requires Serves(d, [t], data) && Clean(u) && u != t.pred
    requires s != o && w != z && {w, z} !! {s, o} && {Fresh("r", 0), Fresh("r", 1), Fresh("r", 2)} !! {s, o, w, z}
    ensures var l, r, q := Bgp([BetweenVars(s, t.pred, o)]), Bgp([BetweenVars(s, u, w)]), Bgp([BetweenVars(z, t.pred, w)]);
      !Right(Sequel(l, r, q), 0, d, data, Vars(Sequel(l, r, q)))
  {
    var l, r, q := Bgp([BetweenVars(s, t.pred, o)]), Bgp([BetweenVars(s, u, w)]), Bgp([BetweenVars(z, t.pred, w)]);
    OnlyTriple(t, d, data);
    ThreeBetween(s, o, w, z, t.pred, u);
    var m := SolutionBetween(s, o, t, data);
    var x := SolutionBetween(z, w, t, data);
    NoSuchPredicate(s, u, w, data);
    NothingToExtend(Eval(l, data));
    assert Eval(LeftJoin(l, r, None), data) == Eval(l, data);
    assert Compatible(m, x) && Meets(m, Eval(q, data)) && w in Vars(q) * Vars(r) && w !in m;
    SequelExact(l, r, q, 0, d, [t], data);
  }
}
