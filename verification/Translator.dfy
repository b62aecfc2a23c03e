/** The SPARQL to Cypher translator (mapper/src/query/translator.rs): graph patterns are flattened
    into one list of match parts and one list of conditions. */
module Translator {
  import opened Common
  import opened Rdf
  import opened Schema
  import opened CypherQuery
  import opened S = Sparql

  // ----- what the translation is

  /** What one pattern adds to the lists, the variables it binds, and the next counter value. */
  datatype Compiled = Compiled(parts: seq<Part>, conds: seq<Cond>, vars: set<string>, next: nat)

  function Then(a: Compiled, b: Compiled): Compiled {
    Compiled(a.parts + b.parts, a.conds + b.conds, a.vars + b.vars, b.next)
  }

  lemma ThenAssociates(a: Compiled, b: Compiled, c: Compiled)
    ensures Then(Then(a, b), c) == Then(a, Then(b, c))
  {
  }

  /** The names next_var makes: prefix_0, prefix_1, ... */
  function Fresh(prefix: string, n: nat): string {
    prefix + "_" + Decimal(n)
  }

  datatype TermCode = TermCode(v: string, cond: Option<Cond>, next: nat)

  function TermToCypher(t: TermPattern, c: nat): TermCode {
    match t
    case Var(v) => TermCode(v, None, c)
    case Fixed(Iri(iri)) => TermCode(Fresh("n", c), Some(UriIs(Fresh("n", c), EscapeCypherString(iri))), c + 1)
    case Fixed(Blank(id)) => TermCode(Fresh("b", c), Some(UriIs(Fresh("b", c), "_:" + id)), c + 1)
    case Fixed(Lit(l)) => TermCode(Fresh("l", c), Some(ValueIs(Fresh("l", c), EscapeCypherString(l.value))), c + 1)
  }

  function NameOf(t: TermPattern): set<string> {
    if t.Var? then {t.name} else {}
  }

  function Conds(o: Option<Cond>): seq<Cond> {
    if o.Some? then [o.value] else []
  }

  function PredicateToCypher(p: PredicatePattern): Option<string> {
    if p.PredIri? then Some(EscapeCypherString(p.iri)) else None
  }

  function CompileTriple(tp: TriplePattern, c: nat): Compiled {
    var s := TermToCypher(tp.subj, c);
    var o := TermToCypher(tp.obj, s.next);
    Compiled([PathPart(Path(s.v, Fresh("r", o.next), PredicateToCypher(tp.pred), o.v))],
             Conds(s.cond) + Conds(o.cond),
             NameOf(tp.subj) + PredicateVars(tp.pred) + NameOf(tp.obj),
             o.next + 1)
  }

  function CompileBgp(tps: seq<TriplePattern>, c: nat): Compiled {
    if tps == [] then Compiled([], [], {}, c)
    else
      var first := CompileTriple(tps[0], c);
      Then(first, CompileBgp(tps[1..], first.next))
  }

  function TranslateExpr(e: Expr): Option<CExpr> {
    match e
    case Bound(v) => Some(IsNotNull(v))
    case Equal(a, b) => Some(Equals(a, b))
    case SameTerm(a, b) => Some(Equals(a, b))
    case EqualIri(v, iri) => Some(EqualsText(v, EscapeCypherString(iri)))
    case And(e1, e2) =>
      var l, r := TranslateExpr(e1), TranslateExpr(e2);
      if l.Some? && r.Some? then Some(AndC(l.value, r.value)) else if l.Some? then l else r
    case Or(e1, e2) =>
      var l, r := TranslateExpr(e1), TranslateExpr(e2);
      if l.Some? && r.Some? then Some(OrC(l.value, r.value)) else None
    case Not(e1) =>
      var i := TranslateExpr(e1);
      if i.Some? then Some(NotC(i.value)) else None
    case Unsupported(_, _) => None
  }

  function FilterConds(e: Expr): seq<Cond> {
    var t := TranslateExpr(e);
    if t.Some? then [Holds(t.value)] else []
  }

  /** UNION is only translated at the top of a query. */
  predicate Compilable(p: Pattern) {
    match p
    case Bgp(_) => true
    case Filter(q, _) => Compilable(q)
    case Union(_, _) => false
    case Join(l, r) => Compilable(l) && Compilable(r)
    case LeftJoin(l, r, _) => Compilable(l) && Compilable(r)
    case Minus(l, r) => Compilable(l) && Compilable(r)
  }

  /** The conditions of the right sides of LeftJoin and Minus are not kept. */
  function Compile(p: Pattern, c: nat): Compiled {
    match p
    case Bgp(tps) => CompileBgp(tps, c)
    case Join(l, r) =>
      var left := Compile(l, c);
      Then(left, Compile(r, left.next))
    case LeftJoin(l, r, e) =>
      var left := Compile(l, c);
      var right := Compile(r, left.next);
      Compiled(left.parts + (if right.parts == [] then [] else [OptionalPart(right.parts)]),
               left.conds + (if e.Some? then FilterConds(e.value) else []),
               left.vars + right.vars, right.next)
    case Filter(q, e) =>
      var inner := Compile(q, c);
      inner.(conds := inner.conds + FilterConds(e))
    case Minus(l, r) =>
      var left := Compile(l, c);
      var right := Compile(r, left.next);
      Compiled(left.parts, left.conds + (if right.parts == [] then [] else [NotExists(right.parts)]),
               left.vars, right.next)
    case Union(_, _) => Compiled([], [], {}, c)
  }

  /** Runs of path parts become MATCH clauses, optional parts OPTIONAL MATCH clauses;
      current is the run being collected. */
  function Clauses(parts: seq<Part>, current: seq<Part>): seq<MatchClause> {
    if parts == [] then Flush(current)
    else if parts[0].OptionalPart? then Flush(current) + [OptionalMatch(parts[0].parts)] + Clauses(parts[1..], [])
    else Clauses(parts[1..], current + [parts[0]])
  }

  function Flush(current: seq<Part>): seq<MatchClause> {
    if current == [] then [] else [Match(current)]
  }

  function MatchClauses(parts: seq<Part>): seq<MatchClause> {
    if parts == [] then [MatchAnyNode] else Clauses(parts, [])
  }

  /** The leaves of a tree of UNIONs, left to right. */
  function Branches(p: Pattern): seq<Pattern> {
    if p.Union? then Branches(p.left) + Branches(p.right) else [p]
  }

  datatype Branch = Branch(clauses: seq<MatchClause>, conds: seq<Cond>)

  datatype Query = Query(branches: seq<Branch>, vars: set<string>, distinct: bool)

  datatype Select = Select(pattern: Pattern, projection: Option<set<string>>, distinct: bool)

  function CompileBranches(ps: seq<Pattern>, c: nat): seq<Compiled> {
    if ps == [] then [] else
      var first := Compile(ps[0], c);
      [first] + CompileBranches(ps[1..], first.next)
  }

  function AllVars(cs: seq<Compiled>): set<string> {
    if cs == [] then {} else AllVars(cs[..|cs| - 1]) + cs[|cs| - 1].vars
  }

  function BranchOf(c: Compiled): Branch {
    Branch(MatchClauses(c.parts), c.conds)
  }

  function BranchesOf(cs: seq<Compiled>): seq<Branch> {
    seq(|cs|, i requires 0 <= i < |cs| => BranchOf(cs[i]))
  }

  function TranslateSelectQuery(q: Select, c: nat): Query {
    var compiled := CompileBranches(Branches(q.pattern), c);
    Query(BranchesOf(compiled), if q.projection.Some? then q.projection.value else AllVars(compiled), q.distinct)
  }

  predicate Translatable(q: Select) {
    forall i :: 0 <= i < |Branches(q.pattern)| ==> Compilable(Branches(q.pattern)[i])
  }

  // ----- the columns of a query

  /** The columns a query asks for: those it names, or with SELECT * the variables of its pattern. */
  function Columns(q: Select): set<string> {
    if q.projection.Some? then q.projection.value else Vars(q.pattern)
  }

  /** No end of a triple pattern is a blank node, which is a variable that has no column. */
  predicate NoBlankEnds(p: Pattern) {
    match p
    case Bgp(tps) => forall i :: 0 <= i < |tps| ==> !IsBlankEnd(tps[i].subj) && !IsBlankEnd(tps[i].obj)
    case Join(l, r) => NoBlankEnds(l) && NoBlankEnds(r)
    case LeftJoin(l, r, _) => NoBlankEnds(l) && NoBlankEnds(r)
    case Filter(q, _) => NoBlankEnds(q)
    case Union(l, r) => NoBlankEnds(l) && NoBlankEnds(r)
    case Minus(l, _) => NoBlankEnds(l)
  }

  predicate IsBlankEnd(t: TermPattern) {
    t.Fixed? && t.term.Blank?
  }

  lemma {:induction false} BgpColumns(tps: seq<TriplePattern>, c: nat)
    requires NoBlankEnds(Bgp(tps))
    ensures CompileBgp(tps, c).vars == BgpVars(tps)
  {
    if tps != [] {
      var rest := Bgp(tps[1..]);
      assert forall i :: 0 <= i < |rest.triples| ==> rest.triples[i] == tps[i + 1];
      BgpColumns(tps[1..], CompileTriple(tps[0], c).next);
    }
  }

  lemma {:induction false} CompiledColumns(p: Pattern, c: nat)
    requires Compilable(p) && NoBlankEnds(p)
    ensures Compile(p, c).vars == Vars(p)
  {
    match p
    case Bgp(tps) => BgpColumns(tps, c);
    case Join(l, r) =>
      CompiledColumns(l, c);
      CompiledColumns(r, Compile(l, c).next);
    case LeftJoin(l, r, _) =>
      CompiledColumns(l, c);
      CompiledColumns(r, Compile(l, c).next);
    case Filter(q, _) => CompiledColumns(q, c);
    case Minus(l, _) => CompiledColumns(l, c);
  }

  function LeafVars(ps: seq<Pattern>): set<string> {
    if ps == [] then {} else Vars(ps[0]) + LeafVars(ps[1..])
  }

  lemma {:induction false} LeafVarsConcat(a: seq<Pattern>, b: seq<Pattern>)
    ensures LeafVars(a + b) == LeafVars(a) + LeafVars(b)
  {
    if a == [] {
      assert a + b == b;
    } else {
      assert (a + b)[1..] == a[1..] + b;
      LeafVarsConcat(a[1..], b);
    }
  }

  lemma {:induction false} VarsOfLeaves(p: Pattern)
    ensures LeafVars(Branches(p)) == Vars(p)
    ensures NoBlankEnds(p) ==> forall i :: 0 <= i < |Branches(p)| ==> NoBlankEnds(Branches(p)[i])
  {
    if p.Union? {
      VarsOfLeaves(p.left);
      VarsOfLeaves(p.right);
      LeafVarsConcat(Branches(p.left), Branches(p.right));
    } else {
      assert LeafVars([p]) == Vars(p) + LeafVars([]);
    }
  }

  lemma {:induction false} AllVarsCons(c: Compiled, cs: seq<Compiled>)
    ensures AllVars([c] + cs) == c.vars + AllVars(cs)
  {
    var all := [c] + cs;
    if cs == [] {
      assert all[..|all| - 1] == [];
    } else {
      assert all[..|all| - 1] == [c] + cs[..|cs| - 1];
      AllVarsCons(c, cs[..|cs| - 1]);
    }
  }

  lemma {:induction false} LeafColumns(ps: seq<Pattern>, c: nat)
    requires forall i :: 0 <= i < |ps| ==> Compilable(ps[i]) && NoBlankEnds(ps[i])
    ensures AllVars(CompileBranches(ps, c)) == LeafVars(ps)
    decreases |ps|
  {
    if ps != [] {
      var first := Compile(ps[0], c);
      CompiledColumns(ps[0], c);
      LeafColumns(ps[1..], first.next);
      AllVarsCons(first, CompileBranches(ps[1..], first.next));
    }
  }

  /** The translation returns the columns the query asks for. */
  lemma ColumnsExact(q: Select, c: nat)
    requires Translatable(q) && NoBlankEnds(q.pattern)
    ensures TranslateSelectQuery(q, c).vars == Columns(q)
  {
    VarsOfLeaves(q.pattern);
    LeafColumns(Branches(q.pattern), c);
  }

  // ----- running a translated query

  function BranchRows(b: Branch, vars: set<string>, d: Listing): seq<CRow> {
    ReturnAll(Run(b.clauses, b.conds, d), vars)
  }

  /** Branches joined by UNION ALL, or by UNION over RETURN DISTINCT. */
  function RunBranches(bs: seq<Branch>, vars: set<string>, distinct: bool, d: Listing): seq<CRow> {
    if bs == [] then []
    else
      var rows := BranchRows(bs[0], vars, d);
      (if distinct then Dedup(rows) else rows) + RunBranches(bs[1..], vars, distinct, d)
  }

  function RunQuery(q: Query, d: Listing): seq<CRow> {
    var rows := RunBranches(q.branches, q.vars, q.distinct, d);
    if q.distinct then Dedup(rows) else rows
  }

  /** ASK returns count(*) > 0 over the same clauses. */
  function RunAsk(b: Branch, d: Listing): bool {
    |Run(b.clauses, b.conds, d)| > 0
  }

  // ----- the translator itself

  /** How each case of process_pattern extends what start has collected. */
  lemma FilterStep(start: Compiled, q: Pattern, e: Expr, c: nat)
    ensures var a := Then(start, Compile(q, c));
      a.(conds := a.conds + FilterConds(e)) == Then(start, Compile(Filter(q, e), c))
  {
  }

  lemma LeftJoinStep(start: Compiled, l: Pattern, r: Pattern, e: Option<Expr>, c: nat)
    ensures var left := Compile(l, c);
      var right := Compile(r, left.next);
      var a := Then(start, left);
      Compiled(a.parts + (if right.parts == [] then [] else [OptionalPart(right.parts)]),
               a.conds + (if e.Some? then FilterConds(e.value) else []), a.vars + right.vars, right.next)
      == Then(start, Compile(LeftJoin(l, r, e), c))
  {
  }

  lemma MinusStep(start: Compiled, l: Pattern, r: Pattern, c: nat)
    ensures var left := Compile(l, c);
      var right := Compile(r, left.next);
      var a := Then(start, left);
      Compiled(a.parts, a.conds + (if right.parts == [] then [] else [NotExists(right.parts)]), a.vars, right.next)
      == Then(start, Compile(Minus(l, r), c))
  {
    var left := Compile(l, c);
    var right := Compile(r, left.next);
    var more: seq<Cond> := if right.parts == [] then [] else [NotExists(right.parts)];
    MinusIs(l, r, c);
    Associate(start.conds, left.conds, more);
  }

  lemma MinusIs(l: Pattern, r: Pattern, c: nat)
    ensures var left := Compile(l, c);
      var right := Compile(r, left.next);
      Compile(Minus(l, r), c)
      == Compiled(left.parts, left.conds + (if right.parts == [] then [] else [NotExists(right.parts)]), left.vars, right.next)
  {
  }

  lemma BranchStep(processed: seq<Compiled>, branches: seq<Pattern>, i: nat, c: nat, one: Compiled)
    requires i < |branches| && one == Compile(branches[i], c)
    ensures processed + CompileBranches(branches[i..], c)
         == processed + [one] + CompileBranches(branches[i + 1..], one.next)
    ensures AllVars(processed + [one]) == AllVars(processed) + one.vars
  {
    assert branches[i..][0] == branches[i] && branches[i..][1..] == branches[i + 1..];
    assert CompileBranches(branches[i..], c) == [one] + CompileBranches(branches[i + 1..], one.next);
    assert (processed + [one])[..|processed|] == processed;
  }

  class SparqlToCypher {
    var varCounter: nat

    constructor ()
      ensures varCounter == 0
    {
      varCounter := 0;
    }

    method NextVar(prefix: string) returns (name: string)
      modifies this
      ensures name == Fresh(prefix, old(varCounter)) && varCounter == old(varCounter) + 1
    {
      name := prefix + "_" + Decimal(varCounter);
      varCounter := varCounter + 1;
    }

    method TranslateTerm(t: TermPattern) returns (v: string, cond: Option<Cond>)
      modifies this
      ensures TermCode(v, cond, varCounter) == TermToCypher(t, old(varCounter))
    {
      match t {
        case Var(name) =>
          v, cond := name, None;
        case Fixed(Iri(iri)) =>
          v := NextVar("n");
          cond := Some(UriIs(v, EscapeCypherString(iri)));
        case Fixed(Blank(id)) =>
          v := NextVar("b");
          cond := Some(UriIs(v, "_:" + id));
        case Fixed(Lit(l)) =>
          v := NextVar("l");
          cond := Some(ValueIs(v, EscapeCypherString(l.value)));
      }
    }

    method TranslateTriplePattern(tp: TriplePattern) returns (part: Part, conds: seq<Cond>, vars: set<string>)
      modifies this
      ensures Compiled([part], conds, vars, varCounter) == CompileTriple(tp, old(varCounter))
    {
      conds, vars := [], {};
      var subjVar, subjCond := TranslateTerm(tp.subj);
      if subjCond.Some? { conds := conds + [subjCond.value]; }
      if tp.subj.Var? { vars := vars + {tp.subj.name}; }
      if tp.pred.PredVar? { vars := vars + {tp.pred.name}; }
      var objVar, objCond := TranslateTerm(tp.obj);
      if objCond.Some? { conds := conds + [objCond.value]; }
      if tp.obj.Var? { vars := vars + {tp.obj.name}; }
      var relVar := NextVar("r");
      part := PathPart(Path(subjVar, relVar, PredicateToCypher(tp.pred), objVar));
    }

    method ProcessBgp(tps: seq<TriplePattern>, matchParts: seq<Part>, whereParts: seq<Cond>, boundVars: set<string>)
      returns (parts: seq<Part>, conds: seq<Cond>, vars: set<string>)
      modifies this
      ensures Compiled(parts, conds, vars, varCounter)
           == Then(Compiled(matchParts, whereParts, boundVars, 0), CompileBgp(tps, old(varCounter)))
    {
      parts, conds, vars := matchParts, whereParts, boundVars;
      assert tps[0..] == tps;
      for i := 0 to |tps|
        invariant Then(Compiled(parts, conds, vars, 0), CompileBgp(tps[i..], varCounter))
               == Then(Compiled(matchParts, whereParts, boundVars, 0), CompileBgp(tps, old(varCounter)))
      {
        assert tps[i..][1..] == tps[i + 1..];
        var part, cs, vs := TranslateTriplePattern(tps[i]);
        ThenAssociates(Compiled(parts, conds, vars, 0), Compiled([part], cs, vs, varCounter),
                       CompileBgp(tps[i + 1..], varCounter));
        parts, conds, vars := parts + [part], conds + cs, vars + vs;
      }
    }

    /** Appends to the three collections; fails exactly on a nested UNION. */
    method ProcessPattern(p: Pattern, matchParts: seq<Part>, whereParts: seq<Cond>, boundVars: set<string>)
      returns (ok: bool, parts: seq<Part>, conds: seq<Cond>, vars: set<string>)
      modifies this
      ensures ok <==> Compilable(p)
      ensures ok ==> (Compiled(parts, conds, vars, varCounter)
                      == Then(Compiled(matchParts, whereParts, boundVars, 0), Compile(p, old(varCounter))))
      decreases p
    {
      ghost var start := Compiled(matchParts, whereParts, boundVars, 0);
      ghost var c := varCounter;
      ok, parts, conds, vars := true, matchParts, whereParts, boundVars;
      match p {
        case Bgp(tps) =>
          parts, conds, vars := ProcessBgp(tps, parts, conds, vars);
        case Join(l, r) =>
          ok, parts, conds, vars := ProcessPattern(l, parts, conds, vars);
          if ok {
            ThenAssociates(start, Compile(l, c), Compile(r, varCounter));
            ok, parts, conds, vars := ProcessPattern(r, parts, conds, vars);
          }
        case LeftJoin(l, r, e) =>
          ok, parts, conds, vars := ProcessPattern(l, parts, conds, vars);
          if ok {
            var optMatch, optWhere;
            ok, optMatch, optWhere, vars := ProcessPattern(r, [], [], vars);
            assert ok ==> optMatch == Compile(r, Compile(l, c).next).parts;
            LeftJoinStep(start, l, r, e, c);
            if ok {
              if optMatch != [] { parts := parts + [OptionalPart(optMatch)]; }
              if e.Some? { conds := conds + FilterConds(e.value); }
            }
          }
        case Filter(q, e) =>
          ok, parts, conds, vars := ProcessPattern(q, parts, conds, vars);
          FilterStep(start, q, e, c);
          if ok { conds := conds + FilterConds(e); }
        case Union(_, _) =>
          ok := false;
        case Minus(l, r) =>
          ok, parts, conds, vars := ProcessPattern(l, parts, conds, vars);
          if ok {
            var minusMatch, minusWhere, minusVars;
            ok, minusMatch, minusWhere, minusVars := ProcessPattern(r, [], [], {});
            assert ok ==> minusMatch == Compile(r, Compile(l, c).next).parts;
            MinusStep(start, l, r, c);
            if ok && minusMatch != [] { conds := conds + [NotExists(minusMatch)]; }
          }
      }
    }

    static method BuildMatchClause(parts: seq<Part>) returns (clauses: seq<MatchClause>)
      ensures clauses == MatchClauses(parts)
    {
      if parts == [] { return [MatchAnyNode]; }
      clauses := [];
      var current: seq<Part> := [];
      assert parts[0..] == parts;
      for i := 0 to |parts|
        invariant clauses + Clauses(parts[i..], current) == Clauses(parts, [])
      {
        assert parts[i..][1..] == parts[i + 1..];
        if parts[i].OptionalPart? {
          if current != [] {
            clauses := clauses + [Match(current)];
            current := [];
          }
          clauses := clauses + [OptionalMatch(parts[i].parts)];
        } else {
          current := current + [parts[i]];
        }
      }
      if current != [] {
        clauses := clauses + [Match(current)];
      }
    }

    static method FlattenUnion(p: Pattern, branches: seq<Pattern>) returns (all: seq<Pattern>)
      ensures all == branches + Branches(p)
      decreases p
    {
      if p.Union? {
        all := FlattenUnion(p.left, branches);
        all := FlattenUnion(p.right, all);
      } else {
        all := branches + [p];
      }
    }

    method ProcessBranches(branches: seq<Pattern>) returns (ok: bool, processed: seq<Compiled>, allVars: set<string>)
      modifies this
      ensures ok <==> forall i :: 0 <= i < |branches| ==> Compilable(branches[i])
      ensures ok ==> processed == CompileBranches(branches, old(varCounter)) && allVars == AllVars(processed)
    {
      ok, processed, allVars := true, [], {};
      assert branches[0..] == branches;
      for i := 0 to |branches|
        invariant forall j :: 0 <= j < i ==> Compilable(branches[j])
        invariant processed + CompileBranches(branches[i..], varCounter) == CompileBranches(branches, old(varCounter))
        invariant allVars == AllVars(processed)
      {
        ghost var c := varCounter;
        var done, parts, conds, vars := ProcessPattern(branches[i], [], [], {});
        if !done { return false, [], {}; }
        var one := Compiled(parts, conds, vars, varCounter);
        BranchStep(processed, branches, i, c, one);
        processed, allVars := processed + [one], allVars + vars;
      }
    }

    static method BuildBranches(processed: seq<Compiled>) returns (queries: seq<Branch>)
      ensures queries == BranchesOf(processed)
    {
      queries := [];
      for i := 0 to |processed|
        invariant queries == BranchesOf(processed[..i])
      {
        var clauses := BuildMatchClause(processed[i].parts);
        queries := queries + [Branch(clauses, processed[i].conds)];
      }
      assert processed[..|processed|] == processed;
    }

    /** translate_select and translate_select_union: a query without UNION is one branch. */
    method TranslateSelect(q: Select) returns (r: Option<Query>)
      modifies this
      ensures r.Some? <==> Translatable(q)
      ensures r.Some? ==> r.value == TranslateSelectQuery(q, old(varCounter))
      ensures r.Some? && NoBlankEnds(q.pattern) ==> r.value.vars == Columns(q) && r.value.distinct == q.distinct
    {
      var branches := FlattenUnion(q.pattern, []);
      assert branches == Branches(q.pattern);
      var ok, processed, allVars := ProcessBranches(branches);
      if !ok { return None; }
      var queries := BuildBranches(processed);
      r := Some(Query(queries, if q.projection.Some? then q.projection.value else allVars, q.distinct));
      assert Translatable(q);
      if NoBlankEnds(q.pattern) { ColumnsExact(q, old(varCounter)); }
    }
  }
}
