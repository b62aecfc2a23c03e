/** The read queries the translator emits, and what they return on a property graph.
    A MATCH binds every homomorphism of its paths; a WHERE keeps the rows all of whose conditions
    are true and belongs to the clause in front of it. */
module CypherQuery {
  import opened Common
  import opened Schema
  import opened PropertyGraph
  import S = Sparql

  datatype CExpr =
    | IsNotNull(v: string)
    | Equals(left: string, right: string)
    | EqualsText(v: string, text: string)
    | AndC(e1: CExpr, e2: CExpr)
    | OrC(e1: CExpr, e2: CExpr)
    | NotC(e: CExpr)

  /** (source)-[rel {predicate: 'text'}]->(target), the predicate being optional. */
  datatype Path = Path(source: string, rel: string, pred: Option<string>, target: string)

  /** One entry of the list of match parts. */
  datatype Part = PathPart(path: Path) | OptionalPart(parts: seq<Part>)

  /** Conditions compare a property with the text between the quotes of a literal. */
  datatype Cond =
    | UriIs(v: string, text: string)
    | ValueIs(v: string, text: string)
    | Holds(e: CExpr)
    | NotExists(parts: seq<Part>)

  datatype MatchClause = Match(parts: seq<Part>) | OptionalMatch(parts: seq<Part>) | MatchAnyNode

  datatype Val = NodeVal(key: NodeKey) | RelVal(edge: Edge) | Null

  type CRow = map<string, Val>

  /** A graph with the order in which the engine happens to visit its edges and nodes. */
  datatype Listing = Listing(graph: Graph, edges: seq<Edge>, nodes: seq<NodeKey>)

  ghost predicate Lists(d: Listing) {
    && NoDup(d.edges) && Elements(d.edges) == d.graph.edges
    && NoDup(d.nodes) && Elements(d.nodes) == d.graph.nodes.Keys
  }

  // ----- matching

  function BindVar(r: Option<CRow>, v: string, x: Val): Option<CRow> {
    if r.None? then None
    else if v !in r.value then Some(r.value[v := x])
    else if r.value[v] == x then r else None
  }

  function MatchPath(p: Path, e: Edge, r: CRow): Option<CRow> {
    if p.pred.Some? && ReadCypherString(p.pred.value) != Some(e.pred) then None
    else BindVar(BindVar(BindVar(Some(r), p.source, NodeVal(e.source)), p.rel, RelVal(e)), p.target, NodeVal(e.target))
  }

  function ToSeq(o: Option<CRow>): seq<CRow> {
    if o.Some? then [o.value] else []
  }

  /** A clause keyword inside a pattern list is not Cypher; it matches nothing here. */
  function MatchPart(p: Part, r: CRow, edges: seq<Edge>): seq<CRow> {
    if p.OptionalPart? || edges == [] then []
    else ToSeq(MatchPath(p.path, edges[0], r)) + MatchPart(p, r, edges[1..])
  }

  function MatchAll(parts: seq<Part>, r: CRow, edges: seq<Edge>): seq<CRow>
    decreases |parts|, 0
  {
    if parts == [] then [r] else MatchEach(parts[1..], MatchPart(parts[0], r, edges), edges)
  }

  function MatchEach(parts: seq<Part>, rows: seq<CRow>, edges: seq<Edge>): seq<CRow>
    decreases |parts|, |rows|
  {
    if rows == [] then [] else MatchAll(parts, rows[0], edges) + MatchEach(parts, rows[1..], edges)
  }

  // ----- conditions

  /** A variable is a node, a relationship or null; a text is equal to none of them. */
  function EvalC(e: CExpr, r: CRow): S.Truth {
    match e
    case IsNotNull(v) => S.TruthOf(v in r && r[v] != Null)
    case Equals(a, b) =>
      if a in r && b in r && r[a] != Null && r[b] != Null then S.TruthOf(r[a] == r[b]) else S.Unknown
    case EqualsText(v, _) => if v in r && r[v] != Null then S.No else S.Unknown
    case AndC(e1, e2) => S.AndT(EvalC(e1, r), EvalC(e2, r))
    case OrC(e1, e2) => S.OrT(EvalC(e1, r), EvalC(e2, r))
    case NotC(e1) => S.NotT(EvalC(e1, r))
  }

  predicate CondTrue(c: Cond, r: CRow, d: Listing) {
    match c
    case UriIs(v, text) => v in r && r[v].NodeVal? && Some(r[v].key.uri) == ReadCypherString(text)
    case ValueIs(v, text) =>
      v in r && r[v].NodeVal? && var props := NodeAt(d.graph, r[v].key).props;
      "value" in props && props["value"] == Text("'" + text + "'")
    case Holds(e) => EvalC(e, r) == S.Yes
    case NotExists(parts) => MatchAll(parts, r, d.edges) == []
  }

  predicate AllTrue(cs: seq<Cond>, r: CRow, d: Listing) {
    forall i :: 0 <= i < |cs| ==> CondTrue(cs[i], r, d)
  }

  function Where(cs: seq<Cond>, rows: seq<CRow>, d: Listing): seq<CRow> {
    if rows == [] then []
    else (if AllTrue(cs, rows[0], d) then [rows[0]] else []) + Where(cs, rows[1..], d)
  }

  // ----- clauses

  function PartVars(parts: seq<Part>): set<string> {
    set i, v | 0 <= i < |parts| && parts[i].PathPart?
      && v in [parts[i].path.source, parts[i].path.rel, parts[i].path.target] :: v
  }

  /** OPTIONAL MATCH keeps an unmatched row, with null for the variables it would have bound. */
  function WithNulls(r: CRow, parts: seq<Part>): CRow {
    (map v | v in PartVars(parts) :: Null) + r
  }

  function OptionalRow(cs: seq<Cond>, parts: seq<Part>, r: CRow, d: Listing): seq<CRow> {
    var found := Where(cs, MatchAll(parts, r, d.edges), d);
    if found == [] then [WithNulls(r, parts)] else found
  }

  function OptionalEach(cs: seq<Cond>, parts: seq<Part>, rows: seq<CRow>, d: Listing): seq<CRow> {
    if rows == [] then [] else OptionalRow(cs, parts, rows[0], d) + OptionalEach(cs, parts, rows[1..], d)
  }

  function NodeRows(r: CRow, nodes: seq<NodeKey>): seq<CRow> {
    if nodes == [] then [] else ToSeq(BindVar(Some(r), "n", NodeVal(nodes[0]))) + NodeRows(r, nodes[1..])
  }

  function AnyNodeEach(rows: seq<CRow>, nodes: seq<NodeKey>): seq<CRow> {
    if rows == [] then [] else NodeRows(rows[0], nodes) + AnyNodeEach(rows[1..], nodes)
  }

  function ApplyClause(c: MatchClause, cs: seq<Cond>, rows: seq<CRow>, d: Listing): seq<CRow> {
    match c
    case Match(parts) => Where(cs, MatchEach(parts, rows, d.edges), d)
    case OptionalMatch(parts) => OptionalEach(cs, parts, rows, d)
    case MatchAnyNode => Where(cs, AnyNodeEach(rows, d.nodes), d)
  }

  /** Clauses in order; the trailing WHERE is the last clause's. */
  function RunFrom(clauses: seq<MatchClause>, cs: seq<Cond>, rows: seq<CRow>, d: Listing): seq<CRow>
    decreases |clauses|
  {
    if clauses == [] then rows
    else if |clauses| == 1 then ApplyClause(clauses[0], cs, rows, d)
    else RunFrom(clauses[1..], cs, ApplyClause(clauses[0], [], rows, d), d)
  }

  function Run(clauses: seq<MatchClause>, cs: seq<Cond>, d: Listing): seq<CRow> {
    RunFrom(clauses, cs, [map[]], d)
  }

  // ----- RETURN

  /** The returned columns; a null column is left out of the map. */
  function ReturnRow(r: CRow, vars: set<string>): CRow {
    map v | v in r && v in vars && r[v] != Null :: r[v]
  }

  function ReturnAll(rows: seq<CRow>, vars: set<string>): seq<CRow> {
    if rows == [] then [] else [ReturnRow(rows[0], vars)] + ReturnAll(rows[1..], vars)
  }

  /** RETURN DISTINCT and UNION keep the first of equal rows. */
  function Dedup<T(==)>(rows: seq<T>): seq<T> {
    if rows == [] then []
    else
      var before := Dedup(rows[..|rows| - 1]);
      if rows[|rows| - 1] in before then before else before + [rows[|rows| - 1]]
  }

  // ----- lemmas about the evaluator

  lemma {:induction false} MatchEachConcatRows(parts: seq<Part>, a: seq<CRow>, b: seq<CRow>, edges: seq<Edge>)
    ensures MatchEach(parts, a + b, edges) == MatchEach(parts, a, edges) + MatchEach(parts, b, edges)
    decreases |a|
  {
    if a == [] {
      assert a + b == b;
    } else {
      assert (a + b)[1..] == a[1..] + b;
      MatchEachConcatRows(parts, a[1..], b, edges);
    }
  }

  lemma {:induction false} MatchEachEmpty(rows: seq<CRow>, edges: seq<Edge>)
    ensures MatchEach([], rows, edges) == rows
  {
    if rows != [] { MatchEachEmpty(rows[1..], edges); }
  }

  lemma {:induction false} MatchEachCons(p: Part, parts: seq<Part>, rows: seq<CRow>, edges: seq<Edge>)
    ensures MatchEach([p] + parts, rows, edges) == MatchEach(parts, MatchEach([p], rows, edges), edges)
    decreases |rows|
  {
    if rows != [] {
      MatchEachCons(p, parts, rows[1..], edges);
      assert ([p] + parts)[1..] == parts && [p][1..] == [];
      var first := MatchPart(p, rows[0], edges);
      MatchEachEmpty(first, edges);
      MatchEachConcatRows(parts, first, MatchEach([p], rows[1..], edges), edges);
    }
  }

  /** Matching two lists of parts one after the other is matching their concatenation. */
  lemma {:induction false} MatchEachParts(p: seq<Part>, q: seq<Part>, rows: seq<CRow>, edges: seq<Edge>)
    ensures MatchEach(p + q, rows, edges) == MatchEach(q, MatchEach(p, rows, edges), edges)
    decreases |p|
  {
    if p == [] {
      assert p + q == q;
      MatchEachEmpty(rows, edges);
    } else {
      assert p + q == [p[0]] + (p[1..] + q) && p == [p[0]] + p[1..];
      MatchEachCons(p[0], p[1..] + q, rows, edges);
      MatchEachCons(p[0], p[1..], rows, edges);
      MatchEachParts(p[1..], q, MatchEach([p[0]], rows, edges), edges);
    }
  }

  lemma MatchEachOne(parts: seq<Part>, r: CRow, edges: seq<Edge>)
    ensures MatchEach(parts, [r], edges) == MatchAll(parts, r, edges)
  {
    assert [r][1..] == [];
  }

  lemma MatchAllParts(p: seq<Part>, q: seq<Part>, r: CRow, edges: seq<Edge>)
    ensures MatchAll(p + q, r, edges) == MatchEach(q, MatchAll(p, r, edges), edges)
  {
    MatchEachParts(p, q, [r], edges);
    MatchEachOne(p + q, r, edges);
    MatchEachOne(p, r, edges);
  }

  lemma {:induction false} WhereConcat(cs: seq<Cond>, a: seq<CRow>, b: seq<CRow>, d: Listing)
    ensures Where(cs, a + b, d) == Where(cs, a, d) + Where(cs, b, d)
  {
    if a == [] {
      assert a + b == b;
    } else {
      assert (a + b)[1..] == a[1..] + b;
      WhereConcat(cs, a[1..], b, d);
    }
  }

  lemma {:induction false} WhereNone(rows: seq<CRow>, d: Listing)
    ensures Where([], rows, d) == rows
  {
    if rows != [] { WhereNone(rows[1..], d); }
  }

  lemma {:induction false} WhereWhere(cs: seq<Cond>, cs': seq<Cond>, rows: seq<CRow>, d: Listing)
    ensures Where(cs + cs', rows, d) == Where(cs', Where(cs, rows, d), d)
  {
    if rows != [] {
      WhereWhere(cs, cs', rows[1..], d);
      var r := rows[0];
      assert AllTrue(cs + cs', r, d) <==> AllTrue(cs, r, d) && AllTrue(cs', r, d) by {
        var all := cs + cs';
        assert forall i :: 0 <= i < |cs'| ==> all[|cs| + i] == cs'[i];
        assert forall i :: 0 <= i < |cs| ==> all[i] == cs[i];
      }
      if AllTrue(cs, r, d) {
        WhereConcat(cs', [r], Where(cs, rows[1..], d), d);
        assert [r][1..] == [];
      } else {
        assert Where(cs, rows, d) == Where(cs, rows[1..], d);
      }
    }
  }

  lemma {:induction false} ReturnAllConcat(a: seq<CRow>, b: seq<CRow>, vars: set<string>)
    ensures ReturnAll(a + b, vars) == ReturnAll(a, vars) + ReturnAll(b, vars)
  {
    if a == [] {
      assert a + b == b;
    } else {
      assert (a + b)[1..] == a[1..] + b;
      ReturnAllConcat(a[1..], b, vars);
    }
  }

  lemma {:induction false} ReturnAllLength(rs: seq<CRow>, vars: set<string>)
    ensures |ReturnAll(rs, vars)| == |rs|
  {
    if rs != [] { ReturnAllLength(rs[1..], vars); }
  }

  lemma {:induction false} DedupIsSet<T>(rows: seq<T>)
    ensures NoDup(Dedup(rows))
    ensures forall r :: r in Dedup(rows) <==> r in rows
  {
    if rows != [] {
      DedupIsSet(rows[..|rows| - 1]);
      assert rows == rows[..|rows| - 1] + [rows[|rows| - 1]];
    }
  }
}
