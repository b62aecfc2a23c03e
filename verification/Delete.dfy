/** Deletion by pattern (mapper/src/graph/delete.rs). Edges carry no graph property: no insert
    statement writes one. */
module Delete {
  import opened Common
  import opened Rdf
  import opened Schema
  import opened PropertyGraph
  import opened CypherGenerator
  import opened P = Patterns

  datatype NodeMatch = AnyNode | HasUri(uri: string) | BlankWithUri(uri: string) | LiteralWith(repr: string)

  datatype EdgeMatch = AnyEdge | OfType(etype: string, pred: string)

  datatype Condition = GraphIsNull | GraphIs(name: string)

  datatype Action = DeleteEdge | DetachDeleteEnds

  datatype MatchPattern = MatchPattern(source: NodeMatch, edge: EdgeMatch, target: NodeMatch, conditions: seq<Condition>)

  datatype Statement = DeleteMatched(pattern: MatchPattern, action: Action) | CleanLiterals | CleanBlankNodes

  datatype Options = Options(cascadeLiterals: bool, cascadeBlankNodes: bool, detach: bool)

  // ----- what the statements do

  predicate NodeFits(g: Graph, k: NodeKey, m: NodeMatch) {
    match m
    case AnyNode => true
    case HasUri(uri) => k.uri == uri
    case BlankWithUri(uri) => "BlankNode" in NodeAt(g, k).labels && k.uri == uri
    case LiteralWith(repr) =>
      "Literal" in NodeAt(g, k).labels && "value" in NodeAt(g, k).props && NodeAt(g, k).props["value"] == Text(repr)
  }

  predicate EdgeFits(e: Edge, m: EdgeMatch) {
    m.OfType? ==> e.etype == m.etype && e.pred == m.pred
  }

  /** What a condition says of an edge with that graph property. */
  predicate HoldsFor(c: Condition, graph: Option<string>) {
    match c
    case GraphIsNull => graph.None?
    case GraphIs(name) => graph == Some(name)
  }

  /** r.graph is null on every edge. */
  predicate ConditionHolds(c: Condition) {
    HoldsFor(c, None)
  }

  predicate Fits(g: Graph, e: Edge, p: MatchPattern) {
    && NodeFits(g, e.source, p.source) && EdgeFits(e, p.edge) && NodeFits(g, e.target, p.target)
    && forall i :: 0 <= i < |p.conditions| ==> ConditionHolds(p.conditions[i])
  }

  function Found(g: Graph, p: MatchPattern): set<Edge> {
    set e | e in g.edges && Fits(g, e, p)
  }

  function Ends(es: set<Edge>): set<NodeKey> {
    (set e | e in es :: e.source) + (set e | e in es :: e.target)
  }

  /** DETACH DELETE takes the nodes and every edge that touches them. */
  function DetachNodes(g: Graph, ks: set<NodeKey>): Graph {
    Graph(g.nodes - ks, set e | e in g.edges && e.source !in ks && e.target !in ks)
  }

  function ExecuteDelete(g: Graph, s: Statement): Graph {
    match s
    case DeleteMatched(p, DeleteEdge) => g.(edges := g.edges - Found(g, p))
    case DeleteMatched(p, DetachDeleteEnds) => DetachNodes(g, Ends(Found(g, p)))
    case CleanLiterals =>
      g.(nodes := g.nodes - set k | k in g.nodes && "Literal" in g.nodes[k].labels
                               && forall e :: e in g.edges ==> e.target != k)
    case CleanBlankNodes =>
      g.(nodes := g.nodes - set k | k in g.nodes && "BlankNode" in g.nodes[k].labels
                               && forall e :: e in g.edges ==> e.target != k && e.source != k)
  }

  function ExecuteDeletes(g: Graph, stmts: seq<Statement>): Graph {
    if stmts == [] then g else ExecuteDelete(ExecuteDeletes(g, stmts[..|stmts| - 1]), stmts[|stmts| - 1])
  }

  // ----- what is generated

  function ResourceMatch(t: Subject): NodeMatch {
    match t
    case Iri(iri) => HasUri(Stored(iri))
    case Blank(id) => BlankWithUri("_:" + Stored(id))
  }

  function ObjectMatch(t: Term): NodeMatch {
    if t.Lit? then LiteralWith(Quoted(t.literal.value)) else ResourceMatch(t)
  }

  function ScopeConditions(scope: GraphScope): seq<Condition> {
    match scope
    case Default => [GraphIsNull]
    case Named(g) => [GraphIs(Stored(NodeUri(g)))]
    case All => []
  }

  function MatchFor(p: TriplePattern, scope: GraphScope): MatchPattern {
    MatchPattern(if p.subj.Some? then ResourceMatch(p.subj.value) else AnyNode,
                 if p.pred.Some? then OfType(PropertyName(p.pred.value), Stored(p.pred.value)) else AnyEdge,
                 if p.obj.Some? then ObjectMatch(p.obj.value) else AnyNode,
                 ScopeConditions(scope))
  }

  function ActionFor(p: TriplePattern, options: Options): Action {
    if p.IsAllWildcard() && options.detach then DetachDeleteEnds else DeleteEdge
  }

  function Cleanups(options: Options): seq<Statement> {
    (if options.cascadeLiterals then [CleanLiterals] else [])
    + if options.cascadeBlankNodes then [CleanBlankNodes] else []
  }

  function DeleteStatements(p: TriplePattern, scope: GraphScope, options: Options): seq<Statement> {
    [DeleteMatched(MatchFor(p, scope), ActionFor(p, options))] + Cleanups(options)
  }

  function BatchStatements(ps: seq<TriplePattern>, scope: GraphScope, options: Options): seq<Statement> {
    if ps == [] then []
    else BatchStatements(ps[..|ps| - 1], scope, options) + DeleteStatements(ps[|ps| - 1], scope, options)
  }

  /** Vec::dedup: of equal neighbours only the first stays. */
  function Dedup(stmts: seq<Statement>): seq<Statement> {
    if |stmts| <= 1 then stmts
    else
      var before := Dedup(stmts[..|stmts| - 1]);
      if stmts[|stmts| - 1] == stmts[|stmts| - 2] then before else before + [stmts[|stmts| - 1]]
  }

  class DeleteGenerator {
    var options: Options

    constructor (options: Options)
      ensures this.options == options
    {
      this.options := options;
    }

    method SetOptions(o: Options)
      modifies this
      ensures options == o
    {
      options := o;
    }

    /** The clause finds the edges of exactly the triples that p matches; in a named scope, none. */
    method BuildMatchClause(p: TriplePattern, scope: GraphScope) returns (m: MatchPattern)
      ensures m == MatchFor(p, scope)
      ensures forall g, t :: PlainPattern(p) && HasEdgeTriple(g, t) ==> (Fits(g, EdgeOf(t), m) <==> p.Matches(t) && !scope.Named?)
    {
      var conditions: seq<Condition> := [];
      var source := if p.subj.Some? then ResourceMatch(p.subj.value) else AnyNode;
      var edge := if p.pred.Some? then OfType(PropertyName(p.pred.value), Stored(p.pred.value)) else AnyEdge;
      var target := if p.obj.Some? then ObjectMatch(p.obj.value) else AnyNode;
      match scope {
        case Default => conditions := conditions + [GraphIsNull];
        case Named(g) => conditions := conditions + [GraphIs(Stored(NodeUri(g)))];
        case All =>
      }
      m := MatchPattern(source, edge, target, conditions);
      assert m == MatchFor(p, scope);
      forall g, t | PlainPattern(p) && HasEdgeTriple(g, t) ensures Fits(g, EdgeOf(t), m) <==> p.Matches(t) && !scope.Named? {
        FitsIsMatches(g, t, p, scope);
      }
    }

    method GenerateDeletePattern(p: TriplePattern, scope: GraphScope) returns (stmts: seq<Statement>)
      ensures stmts == DeleteStatements(p, scope, options)
    {
      var clause := BuildMatchClause(p, scope);
      stmts := [DeleteMatched(clause, ActionFor(p, options))];
      if options.cascadeLiterals { stmts := stmts + [CleanLiterals]; }
      if options.cascadeBlankNodes { stmts := stmts + [CleanBlankNodes]; }
    }

    method GenerateBatchDelete(ps: seq<TriplePattern>, scope: GraphScope) returns (stmts: seq<Statement>)
      ensures forall g :: ExecuteDeletes(g, stmts) == ExecuteDeletes(g, BatchStatements(ps, scope, options))
    {
      stmts := [];
      for i := 0 to |ps|
        invariant stmts == BatchStatements(ps[..i], scope, options)
      {
        assert ps[..i + 1][..i] == ps[..i];
        var more := GenerateDeletePattern(ps[i], scope);
        stmts := stmts + more;
      }
      assert ps[..|ps|] == ps;
      if options.cascadeLiterals || options.cascadeBlankNodes {
        forall g ensures ExecuteDeletes(g, Dedup(stmts)) == ExecuteDeletes(g, stmts) {
          DedupKeepsEffect(g, stmts);
        }
        stmts := Dedup(stmts);
      }
    }
  }

  // ----- running a statement twice in a row

  lemma DeleteTwice(g: Graph, p: MatchPattern)
    ensures Found(g.(edges := g.edges - Found(g, p)), p) == {}
  {
    var after := g.(edges := g.edges - Found(g, p));
    forall e | e in after.edges ensures !Fits(after, e, p) {
      assert !Fits(g, e, p);
      assert NodeAt(after, e.source) == NodeAt(g, e.source) && NodeAt(after, e.target) == NodeAt(g, e.target);
    }
  }

  lemma DetachTwice(g: Graph, p: MatchPattern)
    ensures Found(DetachNodes(g, Ends(Found(g, p))), p) == {}
  {
    var gone := Ends(Found(g, p));
    var after := DetachNodes(g, gone);
    forall e | e in after.edges ensures !Fits(after, e, p) {
      assert NodeAt(after, e.source) == NodeAt(g, e.source) && NodeAt(after, e.target) == NodeAt(g, e.target);
      assert e in Found(g, p) ==> e.source in gone;
    }
  }

  lemma DetachNothing(g: Graph)
    ensures DetachNodes(g, Ends({})) == g
  {
    assert Ends({}) == {};
    assert g.nodes - {} == g.nodes;
  }

  lemma Idempotent(g: Graph, s: Statement)
    ensures ExecuteDelete(ExecuteDelete(g, s), s) == ExecuteDelete(g, s)
  {
    match s
    case DeleteMatched(p, DeleteEdge) => DeleteTwice(g, p);
    case DeleteMatched(p, DetachDeleteEnds) =>
      DetachTwice(g, p);
      DetachNothing(ExecuteDelete(g, s));
    case CleanLiterals =>
    case CleanBlankNodes =>
  }

  /** Dropping repeated neighbours changes nothing. */
  lemma {:induction false} DedupKeepsEffect(g: Graph, stmts: seq<Statement>)
    ensures ExecuteDeletes(g, Dedup(stmts)) == ExecuteDeletes(g, stmts)
  {
    if |stmts| > 1 {
      var before, last := stmts[..|stmts| - 1], stmts[|stmts| - 1];
      DedupKeepsEffect(g, before);
      if last == stmts[|stmts| - 2] {
        assert before[|before| - 1] == last;
        Idempotent(ExecuteDeletes(g, before[..|before| - 1]), last);
      } else {
        assert (Dedup(before) + [last])[..|Dedup(before)|] == Dedup(before);
      }
    }
  }

  // ----- deletion against matching

  lemma StripCons(c: char, s: string)
    requires !Dropped(c)
    ensures StripDropped([c] + s) == [c] + StripDropped(s)
  {
    assert ([c] + s)[1..] == s;
  }

  lemma StoredIsStripped(s: string)
    ensures Stored(s) == StripDropped(s)
  {
    ReadUndoesEscape(s);
  }

  lemma EscapePrefix(id: string)
    ensures Stored("_:" + id) == "_:" + Stored(id)
  {
    StoredIsStripped("_:" + id);
    StoredIsStripped(id);
    StripCons(':', id);
    StripCons('_', ":" + id);
    assert "_:" + id == "_" + (":" + id);
    assert "_:" + StripDropped(id) == "_" + (":" + StripDropped(id));
  }

  /** Data whose every triple becomes an edge, over nodes that only have their base label. */
  ghost predicate EdgeData(g: Graph, ts: seq<Triple>) {
    && (forall t :: t in ts ==> IsEdgeTriple(t) && PlainTriple(t))
    && g.edges == EdgesOf(ts)
    && (forall k :: NodeAt(g, k).labels == {BaseLabel(k)})
  }

  predicate PlainPattern(p: TriplePattern) {
    && (p.subj.Some? ==> PlainTerm(p.subj.value))
    && (p.pred.Some? ==> Clean(p.pred.value))
    && (p.obj.Some? ==> PlainTerm(p.obj.value) && !p.obj.value.Lit?)
  }

  lemma NodeFitsExactly(g: Graph, t: Subject, p: Subject)
    requires PlainTerm(t) && PlainTerm(p) && NodeAt(g, KeyOf(t)).labels == {BaseLabel(KeyOf(t))}
    ensures NodeFits(g, KeyOf(t), ResourceMatch(p)) <==> p == t
  {
    KeyOfPlain(t);
    KeyOfPlain(p);
    assert "BlankNode" != "Resource" by { assert |"BlankNode"| != |"Resource"|; }
    if p.Blank? { EscapePrefix(p.id); }
    if NodeFits(g, KeyOf(t), ResourceMatch(p)) {
      NodeUriInjective(p, t);
    }
  }

  /** A triple that can be an edge of g, over nodes that only have their base label. */
  ghost predicate HasEdgeTriple(g: Graph, t: Triple) {
    IsEdgeTriple(t) && PlainTriple(t) && forall k :: NodeAt(g, k).labels == {BaseLabel(k)}
  }

  lemma FitsIsMatches(g: Graph, t: Triple, p: TriplePattern, scope: GraphScope)
    requires PlainPattern(p) && HasEdgeTriple(g, t)
    ensures Fits(g, EdgeOf(t), MatchFor(p, scope)) <==> p.Matches(t) && !scope.Named?
  {
    var m := MatchFor(p, scope);
    if scope.Named? { assert m.conditions[0].GraphIs? && !ConditionHolds(m.conditions[0]); }
    if p.subj.Some? { NodeFitsExactly(g, t.subj, p.subj.value); }
    if p.obj.Some? { NodeFitsExactly(g, t.obj, p.obj.value); }
  }

  ghost function Unmatched(ts: seq<Triple>, p: TriplePattern): seq<Triple> {
    if ts == [] then []
    else if p.Matches(ts[|ts| - 1]) then Unmatched(ts[..|ts| - 1], p)
    else Unmatched(ts[..|ts| - 1], p) + [ts[|ts| - 1]]
  }

  lemma {:induction false} UnmatchedMember(ts: seq<Triple>, p: TriplePattern, t: Triple)
    ensures t in Unmatched(ts, p) <==> t in ts && !p.Matches(t)
  {
    if ts != [] {
      UnmatchedMember(ts[..|ts| - 1], p, t);
      SplitLast(ts);
    }
  }

  /** The edges left are exactly those of the triples the pattern does not match. */
  lemma DeletionAgreesWithMatching(g: Graph, ts: seq<Triple>, p: TriplePattern, scope: GraphScope)
    requires EdgeData(g, ts) && PlainPattern(p) && !scope.Named?
    ensures var after := ExecuteDelete(g, DeleteMatched(MatchFor(p, scope), DeleteEdge));
      EdgeData(after, Unmatched(ts, p)) && after.nodes == g.nodes
  {
    var after := ExecuteDelete(g, DeleteMatched(MatchFor(p, scope), DeleteEdge));
    forall t ensures t in Unmatched(ts, p) <==> t in ts && !p.Matches(t) {
      UnmatchedMember(ts, p, t);
    }
    forall e ensures e in after.edges <==> e in EdgesOf(Unmatched(ts, p)) {
      if e in EdgesOf(ts) {
        var t :| t in ts && IsEdgeTriple(t) && EdgeOf(t) == e;
        FitsIsMatches(g, t, p, scope);
        EdgeNotElsewhere(ts, Unmatched(ts, p), t);
      } else {
        assert forall t :: t in Unmatched(ts, p) ==> t in ts;
      }
    }
    assert forall k :: NodeAt(after, k) == NodeAt(g, k);
  }

  /** Deleting a triple by the pattern made from it takes its edge and no other. */
  lemma DeleteOneTriple(g: Graph, ts: seq<Triple>, t: Triple, scope: GraphScope)
    requires EdgeData(g, ts) && PlainPattern(FromTriple(t)) && !t.obj.Lit? && !scope.Named?
    ensures ExecuteDelete(g, DeleteMatched(MatchFor(FromTriple(t), scope), DeleteEdge)).edges == EdgesOf(ts) - {EdgeOf(t)}
  {
    var p := FromTriple(t);
    var m := MatchFor(p, scope);
    forall e | e in g.edges ensures Fits(g, e, m) <==> e == EdgeOf(t) {
      var u :| u in ts && IsEdgeTriple(u) && EdgeOf(u) == e;
      FitsIsMatches(g, u, p, scope);
      FromTripleExact(t, u);
      SameEdgeSameTriple(t, u);
    }
  }

  lemma SameEdgeSameTriple(t: Triple, u: Triple)
    requires PlainTriple(t) && PlainTriple(u) && !t.obj.Lit? && IsEdgeTriple(u)
    ensures EdgeOf(t) == EdgeOf(u) <==> t == u
  {
    if IsTypeTriple(t) {
      TypeIsNoEdge(t, u);
    } else if EdgeOf(t) == EdgeOf(u) {
      EdgeOfInjective(t, u);
    }
  }

  lemma TypeIsNoEdge(t: Triple, u: Triple)
    requires IsTypeTriple(t) && IsEdgeTriple(u) && PlainTriple(u) && PlainTerm(t.subj) && Clean(t.pred) && PlainTerm(t.obj)
    ensures t != u && EdgeOf(t) != EdgeOf(u)
  {
    assert u.pred == t.pred ==> KeyOf(u.obj).blank && !KeyOf(t.obj).blank;
  }

  /** An edge belongs to one triple only. */
  lemma EdgeNotElsewhere(ts: seq<Triple>, some: seq<Triple>, t: Triple)
    requires forall x :: x in ts ==> IsEdgeTriple(x) && PlainTriple(x)
    requires t in ts && IsEdgeTriple(t) && forall x :: x in some ==> x in ts
    ensures EdgeOf(t) in EdgesOf(some) <==> t in some
  {
    if EdgeOf(t) in EdgesOf(some) {
      var x :| x in some && IsEdgeTriple(x) && EdgeOf(x) == EdgeOf(t);
      EdgeOfInjective(x, t);
    }
  }

  // ----- on inserted graphs

  ghost predicate LabelFree(ops: seq<Op>) {
    forall i :: 0 <= i < |ops| ==> !ops[i].AddLabel?
  }

  lemma NoLabelsIn(ops: seq<Op>, k: NodeKey)
    requires LabelFree(ops)
    ensures LabelsAt(ops, k) == {}
  {
  }

  lemma LabelFreeConcat(a: seq<Op>, b: seq<Op>)
    requires LabelFree(a) && LabelFree(b)
    ensures LabelFree(a + b)
  {
  }

  lemma NoLabelOps(t: Triple)
    requires !IsTypeTriple(t)
    ensures LabelFree(TripleOps(t))
  {
    var s := ResourceOps(KeyOf(t.subj));
    if t.obj.Lit? {
      LiteralOpsAre(t);
      LabelFreeConcat(s, [PutProp(KeyOf(t.subj), PropertyName(t.pred), Text(ValueRepr(t.obj.literal)))]);
    } else {
      EdgeOpsAre(t);
      LabelFreeConcat(ResourceOps(KeyOf(t.obj)), [Link(EdgeOf(t))]);
      LabelFreeConcat(s, ResourceOps(KeyOf(t.obj)) + [Link(EdgeOf(t))]);
    }
  }

  lemma {:induction false} NoLabels(ts: seq<Triple>)
    requires forall i :: 0 <= i < |ts| ==> !IsTypeTriple(ts[i])
    ensures LabelFree(AllTripleOps(ts))
  {
    if ts != [] {
      NoLabelOps(ts[0]);
      NoLabels(ts[1..]);
      LabelFreeConcat(TripleOps(ts[0]), AllTripleOps(ts[1..]));
    }
  }

  lemma BaseLabelOnly(ts: seq<Triple>, k: NodeKey)
    requires forall i :: 0 <= i < |ts| ==> !IsTypeTriple(ts[i])
    ensures NodeAt(InsertOneByOne(EMPTY, ts), k).labels == {BaseLabel(k)}
  {
    InsertIsOps(EMPTY, ts);
    NoLabels(ts);
    NoLabelsAfter(AllTripleOps(ts), k);
  }

  lemma NoLabelsAfter(ops: seq<Op>, k: NodeKey)
    requires LabelFree(ops)
    ensures NodeAt(ApplyAll(EMPTY, ops), k).labels == {BaseLabel(k)}
  {
    ApplyAllFields(EMPTY, ops, k);
    NoLabelsIn(ops, k);
  }

  lemma OnlyBaseLabels(ts: seq<Triple>)
    requires forall i :: 0 <= i < |ts| ==> !IsTypeTriple(ts[i])
    ensures forall k :: NodeAt(InsertOneByOne(EMPTY, ts), k).labels == {BaseLabel(k)}
  {
    forall k ensures NodeAt(InsertOneByOne(EMPTY, ts), k).labels == {BaseLabel(k)} {
      BaseLabelOnly(ts, k);
    }
  }

  lemma InsertedIsEdgeData(ts: seq<Triple>)
    requires forall t :: t in ts ==> IsEdgeTriple(t) && PlainTriple(t)
    ensures EdgeData(InsertOneByOne(EMPTY, ts), ts)
  {
    InsertedEdges(EMPTY, ts);
    assert forall i :: 0 <= i < |ts| ==> ts[i] in ts;
    OnlyBaseLabels(ts);
  }

  /** Insert any edge triples and delete any plain pattern: what is left is the graph's edges of
      the triples that do not match. */
  lemma InsertThenDelete(ts: seq<Triple>, p: TriplePattern, scope: GraphScope, options: Options)
    requires forall t :: t in ts ==> IsEdgeTriple(t) && PlainTriple(t)
    requires PlainPattern(p) && !scope.Named? && !(p.IsAllWildcard() && options.detach)
    ensures ExecuteDeletes(InsertOneByOne(EMPTY, ts), DeleteStatements(p, scope, options)).edges == EdgesOf(Unmatched(ts, p))
  {
    var g, stmts := InsertOneByOne(EMPTY, ts), DeleteStatements(p, scope, options);
    InsertedIsEdgeData(ts);
    DeletionAgreesWithMatching(g, ts, p, scope);
    CleanupsKeepEdges(g, stmts[0], options);
  }

  lemma CleanupsKeepEdges(g: Graph, first: Statement, options: Options)
    ensures ExecuteDeletes(g, [first] + Cleanups(options)).edges == ExecuteDelete(g, first).edges
  {
    var one := [first];
    assert one[..0] == [] && ExecuteDeletes(g, one) == ExecuteDelete(g, first);
    var two := one + [CleanLiterals];
    assert two[..1] == one;
    var three := two + [CleanBlankNodes];
    assert three[..2] == two;
    var other := one + [CleanBlankNodes];
    assert other[..1] == one;
    assert one + Cleanups(options) ==
      if options.cascadeLiterals then (if options.cascadeBlankNodes then three else two)
      else if options.cascadeBlankNodes then other else one;
  }

  /** Nodes go only together with all their edges, and those that stay stay as they are. */
  ghost predicate EndsStay(g: Graph, after: Graph) {
    && after.nodes.Keys <= g.nodes.Keys
    && (forall k :: k in after.nodes ==> after.nodes[k] == g.nodes[k])
    && forall e :: e in after.edges ==>
         (e.source in g.nodes ==> e.source in after.nodes) && (e.target in g.nodes ==> e.target in after.nodes)
  }

  lemma CleanupStep(g: Graph, ts: seq<Triple>, s: Statement)
    requires EdgeData(g, ts) && !s.DeleteMatched?
    ensures EdgeData(ExecuteDelete(g, s), ts) && EndsStay(g, ExecuteDelete(g, s))
  {
    assert |"Literal"| != |"Resource"| && |"Literal"| != |"BlankNode"|;
    var after := ExecuteDelete(g, s);
    forall k ensures NodeAt(after, k).labels == {BaseLabel(k)} && (k in after.nodes ==> after.nodes[k] == g.nodes[k]) {
      assert NodeAt(g, k).labels == {BaseLabel(k)};
    }
    if s.CleanLiterals? {
      forall k | k in g.nodes ensures k in after.nodes {
        assert NodeAt(g, k).labels == {BaseLabel(k)};
      }
    }
  }

  lemma {:induction false} MatchesEverything(ts: seq<Triple>, p: TriplePattern)
    requires p.IsAllWildcard()
    ensures Unmatched(ts, p) == []
  {
    if ts != [] { MatchesEverything(ts[..|ts| - 1], p); }
  }

  lemma DetachStep(g: Graph, ts: seq<Triple>, p: TriplePattern, scope: GraphScope)
    requires EdgeData(g, ts) && p.IsAllWildcard() && !scope.Named?
    ensures var after := ExecuteDelete(g, DeleteMatched(MatchFor(p, scope), DetachDeleteEnds));
      EdgeData(after, Unmatched(ts, p)) && EndsStay(g, after)
  {
    var after := ExecuteDelete(g, DeleteMatched(MatchFor(p, scope), DetachDeleteEnds));
    MatchesEverything(ts, p);
    DetachAll(g, scope, Options(false, false, true));
    assert p == TriplePattern(None, None, None);
    forall k ensures NodeAt(after, k).labels == {BaseLabel(k)} {
      assert NodeAt(g, k).labels == {BaseLabel(k)};
    }
  }

  lemma EndsStayTransitive(a: Graph, b: Graph, c: Graph)
    requires EndsStay(a, b) && EndsStay(b, c) && c.edges <= b.edges
    ensures EndsStay(a, c)
  {
    forall e | e in c.edges
      ensures (e.source in a.nodes ==> e.source in c.nodes) && (e.target in a.nodes ==> e.target in c.nodes)
    {
      assert e in b.edges;
    }
  }

  lemma OneDeletion(g: Graph, ts: seq<Triple>, p: TriplePattern, scope: GraphScope, options: Options)
    requires EdgeData(g, ts) && PlainPattern(p) && !scope.Named?
    ensures var after := ExecuteDelete(g, DeleteMatched(MatchFor(p, scope), ActionFor(p, options)));
      EdgeData(after, Unmatched(ts, p)) && EndsStay(g, after) && after.edges <= g.edges
  {
    if ActionFor(p, options).DeleteEdge? {
      DeletionAgreesWithMatching(g, ts, p, scope);
    } else {
      DetachStep(g, ts, p, scope);
    }
  }

  /** The cleanups after one deletion, one at a time. */
  lemma CleanupsStep(g: Graph, ts: seq<Triple>, stmts: seq<Statement>, options: Options)
    requires EdgeData(ExecuteDeletes(g, stmts), ts) && EndsStay(g, ExecuteDeletes(g, stmts))
    ensures var after := ExecuteDeletes(g, stmts + Cleanups(options));
      EdgeData(after, ts) && EndsStay(g, after)
  {
    if options.cascadeLiterals && options.cascadeBlankNodes {
      assert stmts + Cleanups(options) == stmts + [CleanLiterals] + [CleanBlankNodes];
      CleanupLast(g, ts, stmts, CleanLiterals);
      CleanupLast(g, ts, stmts + [CleanLiterals], CleanBlankNodes);
    } else if options.cascadeLiterals {
      assert stmts + Cleanups(options) == stmts + [CleanLiterals];
      CleanupLast(g, ts, stmts, CleanLiterals);
    } else if options.cascadeBlankNodes {
      assert stmts + Cleanups(options) == stmts + [CleanBlankNodes];
      CleanupLast(g, ts, stmts, CleanBlankNodes);
    } else {
      assert stmts + Cleanups(options) == stmts;
    }
  }

  lemma CleanupLast(g: Graph, ts: seq<Triple>, stmts: seq<Statement>, last: Statement)
    requires EdgeData(ExecuteDeletes(g, stmts), ts) && EndsStay(g, ExecuteDeletes(g, stmts)) && !last.DeleteMatched?
    ensures var after := ExecuteDeletes(g, stmts + [last]);
      EdgeData(after, ts) && EndsStay(g, after)
  {
    assert (stmts + [last])[..|stmts|] == stmts;
    CleanupStep(ExecuteDeletes(g, stmts), ts, last);
    EndsStayTransitive(g, ExecuteDeletes(g, stmts), ExecuteDeletes(g, stmts + [last]));
  }

  /** Every pattern of a batch, with any options: the edges left are those of the triples that no pattern
      matches, and no edge loses an end. */
  lemma {:induction false} BatchDeletion(g: Graph, ts: seq<Triple>, ps: seq<TriplePattern>, scope: GraphScope, options: Options)
    requires EdgeData(g, ts) && !scope.Named? && forall i :: 0 <= i < |ps| ==> PlainPattern(ps[i])
    ensures var after := ExecuteDeletes(g, BatchStatements(ps, scope, options));
      EdgeData(after, UnmatchedByAll(ts, ps)) && EndsStay(g, after)
  {
    if ps != [] {
      var before, p := ps[..|ps| - 1], ps[|ps| - 1];
      BatchDeletion(g, ts, before, scope, options);
      var stmts, first := BatchStatements(before, scope, options), DeleteMatched(MatchFor(p, scope), ActionFor(p, options));
      assert (stmts + [first])[..|stmts|] == stmts;
      OneDeletion(ExecuteDeletes(g, stmts), UnmatchedByAll(ts, before), p, scope, options);
      EndsStayTransitive(g, ExecuteDeletes(g, stmts), ExecuteDeletes(g, stmts + [first]));
      CleanupsStep(g, UnmatchedByAll(ts, ps), stmts + [first], options);
      assert BatchStatements(ps, scope, options) == stmts + [first] + Cleanups(options);
    }
  }

  ghost function UnmatchedByAll(ts: seq<Triple>, ps: seq<TriplePattern>): seq<Triple> {
    if ps == [] then ts else Unmatched(UnmatchedByAll(ts, ps[..|ps| - 1]), ps[|ps| - 1])
  }

  /** Some triple has b at one of its ends. */
  ghost predicate Mentioned(b: Subject, ts: seq<Triple>) {
    exists t :: t in ts && (t.subj == b || t.obj == b)
  }

  ghost predicate HasEdgeAt(g: Graph, k: NodeKey) {
    exists e :: e in g.edges && (e.source == k || e.target == k)
  }

  lemma EdgeAtIsMention(g: Graph, ts: seq<Triple>, b: Subject)
    requires EdgeData(g, ts) && PlainTerm(b)
    ensures HasEdgeAt(g, KeyOf(b)) <==> Mentioned(b, ts)
  {
    if HasEdgeAt(g, KeyOf(b)) {
      var e :| e in g.edges && (e.source == KeyOf(b) || e.target == KeyOf(b));
      var t :| t in ts && IsEdgeTriple(t) && EdgeOf(t) == e;
      if KeyOf(t.subj) == KeyOf(b) { KeyOfInjective(t.subj, b); } else { KeyOfInjective(t.obj, b); }
    }
    if Mentioned(b, ts) {
      var t :| t in ts && (t.subj == b || t.obj == b);
      assert EdgeOf(t) in EdgesOf(ts);
    }
  }

  /** Which nodes the cleanups leave, on nodes that only have their base label. */
  lemma CleanupsExact(g: Graph, ts: seq<Triple>, first: Statement, options: Options, k: NodeKey)
    requires EdgeData(ExecuteDelete(g, first), ts)
    ensures k in ExecuteDeletes(g, [first] + Cleanups(options)).nodes
      <==> k in ExecuteDelete(g, first).nodes && (options.cascadeBlankNodes && k.blank ==> HasEdgeAt(ExecuteDelete(g, first), k))
  {
    var mid := ExecuteDelete(g, first);
    var one := [first];
    assert one[..0] == [] && ExecuteDeletes(g, one) == mid;
    var two, other := one + [CleanLiterals], one + [CleanBlankNodes];
    var three := two + [CleanBlankNodes];
    assert two[..1] == one && other[..1] == one && three[..2] == two;
    NoLiteralsToClean(mid, ts);
    BlankOrphan(mid, ts, k);
    assert one + Cleanups(options) ==
      if options.cascadeLiterals then (if options.cascadeBlankNodes then three else two)
      else if options.cascadeBlankNodes then other else one;
  }

  lemma NoLiteralsToClean(g: Graph, ts: seq<Triple>)
    requires EdgeData(g, ts)
    ensures ExecuteDelete(g, CleanLiterals) == g
  {
    assert |"Literal"| != |"Resource"| && |"Literal"| != |"BlankNode"|;
    forall k | k in g.nodes ensures "Literal" !in g.nodes[k].labels {
      assert NodeAt(g, k).labels == {BaseLabel(k)};
    }
    assert ExecuteDelete(g, CleanLiterals).nodes == g.nodes;
  }

  lemma BlankOrphan(g: Graph, ts: seq<Triple>, k: NodeKey)
    requires EdgeData(g, ts)
    ensures k in ExecuteDelete(g, CleanBlankNodes).nodes <==> k in g.nodes && (k.blank ==> HasEdgeAt(g, k))
  {
    assert |"Resource"| != |"BlankNode"|;
    assert NodeAt(g, k).labels == {BaseLabel(k)};
  }

  /** After deleting a pattern with the cleanup of blank nodes, a blank node is left if and only if a triple that is
      left mentions it; without that cleanup, and for IRIs, every node is left. */
  lemma OrphansGone(g: Graph, ts: seq<Triple>, p: TriplePattern, scope: GraphScope, options: Options, b: Subject)
    requires EdgeData(g, ts) && PlainPattern(p) && !scope.Named? && !(p.IsAllWildcard() && options.detach) && PlainTerm(b)
    ensures KeyOf(b) in ExecuteDeletes(g, DeleteStatements(p, scope, options)).nodes
      <==> KeyOf(b) in g.nodes && (options.cascadeBlankNodes && b.Blank? ==> Mentioned(b, Unmatched(ts, p)))
  {
    var first := DeleteMatched(MatchFor(p, scope), DeleteEdge);
    DeletionAgreesWithMatching(g, ts, p, scope);
    CleanupsExact(g, Unmatched(ts, p), first, options, KeyOf(b));
    EdgeAtIsMention(ExecuteDelete(g, first), Unmatched(ts, p), b);
    KeyOfPlain(b);
  }

  /** Detaching everything removes every edge and exactly the nodes that had one. */
  lemma DetachAll(g: Graph, scope: GraphScope, options: Options)
    requires !scope.Named? && options.detach
    ensures var p := TriplePattern(None, None, None);
      ExecuteDelete(g, DeleteMatched(MatchFor(p, scope), ActionFor(p, options))) == Graph(g.nodes - Ends(g.edges), {})
  {
    var p := TriplePattern(None, None, None);
    assert Found(g, MatchFor(p, scope)) == g.edges;
    forall e | e in g.edges ensures e.source in Ends(g.edges) {
    }
    assert DetachNodes(g, Ends(g.edges)).edges == {};
  }

  // ----- graph scopes

  function TriplesOf(qs: seq<Quad>): seq<Triple> {
    seq(|qs|, i requires 0 <= i < |qs| => qs[i].triple)
  }

  ghost function UnmatchedQuads(qs: seq<Quad>, p: QuadPattern): seq<Quad> {
    if qs == [] then []
    else if p.Matches(qs[|qs| - 1]) then UnmatchedQuads(qs[..|qs| - 1], p)
    else UnmatchedQuads(qs[..|qs| - 1], p) + [qs[|qs| - 1]]
  }

  lemma {:induction false} UnmatchedQuadsMember(qs: seq<Quad>, p: QuadPattern, q: Quad)
    ensures q in UnmatchedQuads(qs, p) <==> q in qs && !p.Matches(q)
  {
    if qs != [] {
      UnmatchedQuadsMember(qs[..|qs| - 1], p, q);
      SplitLast(qs);
    }
  }

  lemma TriplesOfMember(qs: seq<Quad>, t: Triple)
    ensures t in TriplesOf(qs) <==> exists q :: q in qs && q.triple == t
  {
    if t in TriplesOf(qs) {
      var i :| 0 <= i < |qs| && TriplesOf(qs)[i] == t;
      assert qs[i] in qs;
    }
    if q :| q in qs && q.triple == t {
      var i :| 0 <= i < |qs| && qs[i] == q;
      assert TriplesOf(qs)[i] == t;
    }
  }

  /** Were the graph recorded on the edges, the conditions would select exactly the quads in scope. */
  lemma ScopeSelects(scope: GraphScope, q: Quad)
    requires (q.graph.Some? ==> PlainTerm(q.graph.value)) && (scope.Named? ==> PlainTerm(scope.graph))
    ensures var graph := if q.graph.Some? then Some(NodeUri(q.graph.value)) else None;
      InScope(scope, q) <==> forall c :: c in ScopeConditions(scope) ==> HoldsFor(c, graph)
  {
    if scope.Named? {
      KeyOfPlain(scope.graph);
      if q.graph.Some? && NodeUri(q.graph.value) == NodeUri(scope.graph) { NodeUriInjective(q.graph.value, scope.graph); }
      assert GraphIs(NodeUri(scope.graph)) in ScopeConditions(scope);
    } else if scope.Default? {
      assert GraphIsNull in ScopeConditions(scope);
    }
  }

  /** When ignoring the graph does no harm: in the default scope no named graph holds a matching
      triple, in a named scope every matching quad is also in some other graph. */
  ghost predicate ScopeHarmless(qs: seq<Quad>, p: QuadPattern) {
    match p.Scope()
    case Default => forall q :: q in qs && p.pattern.Matches(q.triple) ==> q.graph.None?
    case Named(g) => forall q :: q in qs && p.Matches(q) ==> exists q' :: q' in qs && q'.triple == q.triple && !p.Matches(q')
    case All => true
  }

  /** Which triples lose their edge: those the pattern matches, unless the scope is named. */
  lemma EdgesLeft(g: Graph, ts: seq<Triple>, p: TriplePattern, scope: GraphScope, t: Triple)
    requires EdgeData(g, ts) && PlainPattern(p) && t in ts && IsEdgeTriple(t)
    ensures EdgeOf(t) in ExecuteDelete(g, DeleteMatched(MatchFor(p, scope), DeleteEdge)).edges
      <==> scope.Named? || !p.Matches(t)
  {
    assert EdgeOf(t) in EdgesOf(ts);
    FitsIsMatches(g, t, p, scope);
  }

  lemma EdgesAgree(ts: seq<Triple>, es: set<Edge>, some: seq<Triple>)
    requires forall t :: t in ts ==> IsEdgeTriple(t) && PlainTriple(t)
    requires es <= EdgesOf(ts) && forall t :: t in some ==> t in ts
    ensures es == EdgesOf(some) <==> forall t :: t in ts ==> (EdgeOf(t) in es <==> t in some)
  {
    if forall t :: t in ts ==> (EdgeOf(t) in es <==> t in some) {
      forall e ensures e in es <==> e in EdgesOf(some) {
        if e in EdgesOf(ts) {
          var t :| t in ts && IsEdgeTriple(t) && EdgeOf(t) == e;
          EdgeNotElsewhere(ts, some, t);
        }
      }
    }
    if es == EdgesOf(some) {
      forall t | t in ts ensures EdgeOf(t) in es <==> t in some {
        EdgeNotElsewhere(ts, some, t);
      }
    }
  }

  /** Deleting a quad pattern leaves exactly the edges of the quads that do not match if and only
      if the scope is harmless: edges do not record their graph. */
  lemma ScopeExact(g: Graph, qs: seq<Quad>, p: QuadPattern)
    requires EdgeData(g, TriplesOf(qs)) && PlainPattern(p.pattern)
    ensures var after := ExecuteDelete(g, DeleteMatched(MatchFor(p.pattern, p.Scope()), DeleteEdge));
      after.edges == EdgesOf(TriplesOf(UnmatchedQuads(qs, p))) <==> ScopeHarmless(qs, p)
  {
    var ts, left := TriplesOf(qs), TriplesOf(UnmatchedQuads(qs, p));
    var after := ExecuteDelete(g, DeleteMatched(MatchFor(p.pattern, p.Scope()), DeleteEdge));
    forall q ensures q in UnmatchedQuads(qs, p) <==> q in qs && !p.Matches(q) {
      UnmatchedQuadsMember(qs, p, q);
    }
    forall t ensures t in ts <==> exists q :: q in qs && q.triple == t {
      TriplesOfMember(qs, t);
    }
    forall t ensures t in left <==> exists q :: q in qs && !p.Matches(q) && q.triple == t {
      TriplesOfMember(UnmatchedQuads(qs, p), t);
    }
    EdgesAgree(ts, after.edges, left);
    forall t | t in ts
      ensures (EdgeOf(t) in after.edges <==> t in left)
        <==> ((p.Scope().Named? || !p.pattern.Matches(t)) <==> exists q :: q in qs && !p.Matches(q) && q.triple == t)
    {
      EdgesLeft(g, ts, p.pattern, p.Scope(), t);
    }
    HarmlessPerTriple(qs, p);
  }

  lemma HarmlessPerTriple(qs: seq<Quad>, p: QuadPattern)
    ensures ScopeHarmless(qs, p) <==> forall q :: q in qs ==>
      ((p.Scope().Named? || !p.pattern.Matches(q.triple)) <==> exists q' :: q' in qs && !p.Matches(q') && q'.triple == q.triple)
  {
    forall q ensures p.Matches(q) <==> p.pattern.Matches(q.triple) && InScope(p.Scope(), q) {
      ScopeDecides(p, q);
    }
  }

  // ----- what deletion misses

  lemma NoLiteralNodes(g: Graph, m: MatchPattern)
    requires m.target.LiteralWith? && forall k :: NodeAt(g, k).labels == {BaseLabel(k)}
    ensures ExecuteDelete(g, DeleteMatched(m, DeleteEdge)) == g
  {
    assert |"Literal"| != |"Resource"| && |"Literal"| != |"BlankNode"|;
    forall e | e in g.edges ensures !Fits(g, e, m) {
      assert NodeAt(g, e.target).labels == {BaseLabel(e.target)};
    }
    assert Found(g, m) == {} && g.edges - {} == g.edges;
  }

  /** On a graph that did hold Literal nodes, a literal object would match exactly those with its text. */
  lemma LiteralMatchReads(g: Graph, k: NodeKey, t: Term, text: string)
    requires t.Lit? && Clean(text) && Clean(t.literal.value)
    requires "value" in NodeAt(g, k).props && NodeAt(g, k).props["value"] == Text(Quoted(text))
    ensures NodeFits(g, k, ObjectMatch(t)) <==> "Literal" in NodeAt(g, k).labels && text == t.literal.value
  {
    EscapeRoundTripExact(text);
    EscapeRoundTripExact(t.literal.value);
    if Quoted(text) == Quoted(t.literal.value) {
      assert Quoted(text)[1..|Quoted(text)| - 1] == EscapeCypherString(text);
      assert Quoted(t.literal.value)[1..|Quoted(t.literal.value)| - 1] == EscapeCypherString(t.literal.value);
    }
  }

  /** Literals are node properties, so a pattern with a literal object deletes nothing. */
  lemma LiteralPatternDeletesNothing(ts: seq<Triple>, p: TriplePattern, scope: GraphScope)
    requires forall i :: 0 <= i < |ts| ==> !IsTypeTriple(ts[i])
    requires p.obj.Some? && p.obj.value.Lit?
    ensures var g := InsertOneByOne(EMPTY, ts);
      ExecuteDelete(g, DeleteMatched(MatchFor(p, scope), DeleteEdge)) == g
  {
    OnlyBaseLabels(ts);
    NoLiteralNodes(InsertOneByOne(EMPTY, ts), MatchFor(p, scope));
  }

  // ----- IRIs that are spelled like blank nodes

  predicate CleanTerm(t: Term) {
    match t
    case Iri(iri) => Clean(iri)
    case Blank(id) => Clean(id)
    case Lit(_) => false
  }

  /** Any pattern without control characters and without a literal object. */
  predicate CleanPattern(p: TriplePattern) {
    (p.subj.Some? ==> CleanTerm(p.subj.value)) && (p.pred.Some? ==> Clean(p.pred.value)) && (p.obj.Some? ==> CleanTerm(p.obj.value))
  }

  /** An IRI spelled like a blank node, read as that blank node. */
  function Respelled(t: Term): Term {
    if t.Iri? && StartsBlank(t.iri) then Blank(t.iri[2..]) else t
  }

  function RespelledEnds(p: TriplePattern): TriplePattern {
    TriplePattern(if p.subj.Some? then Some(Respelled(p.subj.value)) else None, p.pred,
                  if p.obj.Some? then Some(Respelled(p.obj.value)) else None)
  }

  lemma RespelledIsPlain(t: Term)
    requires CleanTerm(t)
    ensures PlainTerm(Respelled(t)) && !Respelled(t).Lit?
  {
  }

  lemma FitsRespelled(g: Graph, k: Subject, t: Term)
    requires CleanTerm(t) && PlainTerm(k) && NodeAt(g, KeyOf(k)).labels == {BaseLabel(KeyOf(k))}
    ensures NodeFits(g, KeyOf(k), ResourceMatch(t)) <==> NodeFits(g, KeyOf(k), ResourceMatch(Respelled(t)))
  {
    KeyOfPlain(k);
    if Respelled(t) != t {
      var id := t.iri[2..];
      assert t.iri == "_:" + id;
      EscapePrefix(id);
    }
  }

  /** The statement finds the edges of what the pattern matches with its ends read as blank nodes. */
  lemma FitsIsRespelledMatch(g: Graph, t: Triple, p: TriplePattern, scope: GraphScope)
    requires CleanPattern(p) && HasEdgeTriple(g, t)
    ensures Fits(g, EdgeOf(t), MatchFor(p, scope)) <==> RespelledEnds(p).Matches(t) && !scope.Named?
  {
    var q := RespelledEnds(p);
    if p.subj.Some? {
      RespelledIsPlain(p.subj.value);
      FitsRespelled(g, t.subj, p.subj.value);
    }
    if p.obj.Some? {
      RespelledIsPlain(p.obj.value);
      FitsRespelled(g, t.obj, p.obj.value);
    }
    FitsIsMatches(g, t, q, scope);
  }

  /** On data without such IRIs, a pattern never matches more than its respelling. */
  lemma RespellingMatchesMore(p: TriplePattern, t: Triple)
    requires PlainTriple(t) && p.Matches(t)
    ensures RespelledEnds(p).Matches(t)
  {
  }

  /** Whatever its ends are spelled like: the edges left are those of the triples that do not match if and
      only if no triple that p rejects is matched once its blank-spelled IRIs are read as blank nodes. */
  lemma BlankSpelledExact(g: Graph, ts: seq<Triple>, p: TriplePattern, scope: GraphScope)
    requires EdgeData(g, ts) && CleanPattern(p) && !scope.Named?
    ensures ExecuteDelete(g, DeleteMatched(MatchFor(p, scope), DeleteEdge)).edges == EdgesOf(Unmatched(ts, p))
      <==> forall t :: t in ts && RespelledEnds(p).Matches(t) ==> p.Matches(t)
  {
    var after := ExecuteDelete(g, DeleteMatched(MatchFor(p, scope), DeleteEdge));
    forall t ensures t in Unmatched(ts, p) <==> t in ts && !p.Matches(t) {
      UnmatchedMember(ts, p, t);
    }
    forall t | t in ts
      ensures EdgeOf(t) in after.edges <==> !RespelledEnds(p).Matches(t)
      ensures p.Matches(t) ==> RespelledEnds(p).Matches(t)
    {
      assert EdgeOf(t) in EdgesOf(ts);
      FitsIsRespelledMatch(g, t, p, scope);
      if p.Matches(t) { RespellingMatchesMore(p, t); }
    }
    EdgesAgree(ts, after.edges, Unmatched(ts, p));
  }

  /** So an IRI spelled like a blank node of the data deletes that node's edges, which it does not match. */
  lemma BlankSpelledIri(g: Graph, ts: seq<Triple>, id: string, t: Triple)
    requires EdgeData(g, ts) && t in ts && t.subj == Blank(id) && Clean(id)
    ensures var p := TriplePattern(Some(Iri("_:" + id)), None, None);
      ExecuteDelete(g, DeleteMatched(MatchFor(p, All), DeleteEdge)).edges != EdgesOf(Unmatched(ts, p))
  {
    var p := TriplePattern(Some(Iri("_:" + id)), None, None);
    assert ("_:" + id)[2..] == id;
    assert forall i :: 2 <= i < |"_:" + id| ==> ("_:" + id)[i] == id[i - 2];
    assert RespelledEnds(p).Matches(t) && !p.Matches(t);
    BlankSpelledExact(g, ts, p, All);
  }
}
