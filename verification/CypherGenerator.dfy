/** Insert statements for triples, one at a time and grouped by subject
    (mapper/src/graph/cypher.rs). */
module CypherGenerator {
  import opened Common
  import opened Rdf
  import opened Schema
  import opened PropertyGraph

  // ----- literal values

  predicate AllDigits(s: string) {
    forall i :: 0 <= i < |s| ==> IsAsciiDigit(s[i])
  }

  function DigitsPrefix(s: string): (n: nat)
    ensures n <= |s|
  {
    if s != "" && IsAsciiDigit(s[0]) then 1 + DigitsPrefix(s[1..]) else 0
  }

  function Lower(s: string): string {
    seq(|s|, i requires 0 <= i < |s| => if 'A' <= s[i] <= 'Z' then s[i] + ' ' else s[i])
  }

  function DropSign(s: string): string {
    if s != "" && (s[0] == '+' || s[0] == '-') then s[1..] else s
  }

  /** str::parse::<f64> succeeds: an optional sign, then inf, infinity, nan, or digits with an
      optional point and exponent. Every text that parses as an i64 is among them. */
  predicate ParsesAsFloat(s: string) {
    var body := DropSign(s);
    var whole := DigitsPrefix(body);
    var rest := body[whole..];
    var fraction := if rest != "" && rest[0] == '.' then DigitsPrefix(rest[1..]) else 0;
    var tail := if rest != "" && rest[0] == '.' then rest[1 + fraction..] else rest;
    || Lower(body) in {"inf", "infinity", "nan"}
    || (whole + fraction > 0
        && (tail == "" || (tail[0] in "eE" && DropSign(tail[1..]) != "" && AllDigits(DropSign(tail[1..])))))
  }

  predicate IsNumericOrBool(s: string) {
    ParsesAsFloat(s) || s == "true" || s == "false"
  }

  /** str::parse::<u32> on two characters; a leading plus sign is accepted. */
  function ParseTwo(a: char, b: char): Option<nat> {
    if !IsAsciiDigit(b) then None
    else if a == '+' then Some((b - '0') as nat)
    else if IsAsciiDigit(a) then Some((a - '0') as nat * 10 + (b - '0') as nat)
    else None
  }

  function DaysIn(month: nat, year: nat): nat {
    if month == 2 then (if (year % 4 == 0 && year % 100 != 0) || year % 400 == 0 then 29 else 28)
    else if month in {4, 6, 9, 11} then 30
    else 31
  }

  predicate IsDate(s: string) {
    && |s| == 10 && s[4] == '-' && s[7] == '-' && AllDigits(s[..4])
    && ParseTwo(s[5], s[6]).Some? && ParseTwo(s[8], s[9]).Some?
    && var year := 100 * ParseTwo(s[0], s[1]).value + ParseTwo(s[2], s[3]).value;
       var month, day := ParseTwo(s[5], s[6]).value, ParseTwo(s[8], s[9]).value;
       year >= 1 && 1 <= month <= 12 && 1 <= day <= 31 && day <= DaysIn(month, year)
  }

  function Quoted(s: string): string {
    "'" + EscapeCypherString(s) + "'"
  }

  function ValueRepr(lit: Literal): string {
    var dateTyped := lit.Typed? && lit.datatypeIri == XSD_DATE;
    if dateTyped && IsDate(lit.value) then "date(" + Quoted(lit.value) + ")"
    else if !dateTyped && IsNumericOrBool(lit.value) then lit.value
    else Quoted(lit.value)
  }

  // ----- one triple

  function KeyOf(t: Subject): NodeKey {
    NodeKey(t.Blank?, Stored(NodeUri(t)))
  }

  function PropertyName(pred: string): string {
    SanitizeIdentifier(LocalName(pred))
  }

  /** A property, an edge type or a label is named by the local part of the IRI, made an identifier. */
  lemma PropertyNameExact(iri: string, name: string)
    ensures PropertyName(iri) == name <==> exists part :: LocalPart(iri, part) && MadeIdentifier(part, name)
  {
    LocalNameExact(iri, LocalName(iri));
    SanitizeExact(LocalName(iri), name);
    forall part | LocalPart(iri, part) ensures part == LocalName(iri) {
      LocalNameExact(iri, part);
    }
  }

  predicate IsTypeTriple(t: Triple) {
    t.pred == RDF_TYPE && t.obj.Iri?
  }

  /** Triples that become edges: neither a label nor a literal property. */
  predicate IsEdgeTriple(t: Triple) {
    !IsTypeTriple(t) && !t.obj.Lit?
  }

  function EdgeOf(t: Triple): Edge
    requires !t.obj.Lit?
  {
    Edge(KeyOf(t.subj), PropertyName(t.pred), Stored(t.pred), KeyOf(t.obj))
  }

  function BlankFlag(key: NodeKey): SetItem {
    SetProp("isBlank", Flag(key.blank))
  }

  function MergeResource(v: string, key: NodeKey): Clause {
    MergeNode(v, key, [BlankFlag(key)])
  }

  /** The statement generate_triple returns. */
  function TripleStatement(t: Triple): Statement {
    var key := KeyOf(t.subj);
    if IsTypeTriple(t) then
      [MergeNode("n", key, [SetLabel(PropertyName(t.obj.iri)), BlankFlag(key)])]
    else if t.obj.Lit? then
      [MergeResource("s", key), SetOn("s", SetProp(PropertyName(t.pred), Text(ValueRepr(t.obj.literal))))]
    else
      [MergeResource("s", key), MergeResource("o", KeyOf(t.obj)),
       MergeEdge("s", PropertyName(t.pred), Stored(t.pred), "o")]
  }

  function TripleOps(t: Triple): seq<Op> {
    Resolve(map[], TripleStatement(t))
  }

  function BlankOp(key: NodeKey): Op {
    PutProp(key, "isBlank", Flag(key.blank))
  }

  function ResourceOps(key: NodeKey): seq<Op> {
    [Ensure(key), BlankOp(key)]
  }

  lemma ResolveMergeResource(env: map<string, NodeKey>, v: string, key: NodeKey, rest: Statement)
    ensures Resolve(env, [MergeResource(v, key)] + rest) == ResourceOps(key) + Resolve(env[v := key], rest)
  {
    var s := [MergeResource(v, key)] + rest;
    assert s[0] == MergeResource(v, key) && s[1..] == rest;
    assert SetOps(key, [BlankFlag(key)]) == [BlankOp(key)];
  }

  lemma ResolveLast(env: map<string, NodeKey>, c: Clause)
    requires c.SetOn? ==> c.v in env
    requires c.MergeEdge? ==> c.source in env && c.target in env
    ensures Resolve(env, [c]) ==
      if c.MergeNode? then [Ensure(c.key)] + SetOps(c.key, c.sets)
      else if c.SetOn? then [SetOp(env[c.v], c.item)]
      else [Link(Edge(env[c.source], c.etype, c.pred, env[c.target]))]
  {
    assert [c][1..] == [];
  }

  lemma TypeOpsAre(t: Triple)
    requires IsTypeTriple(t)
    ensures var k := KeyOf(t.subj); TripleOps(t) == [Ensure(k), AddLabel(k, PropertyName(t.obj.iri)), BlankOp(k)]
  {
    var s, k := TripleStatement(t), KeyOf(t.subj);
    ResolveLast(map[], s[0]);
    assert s == [s[0]];
    assert SetOps(k, s[0].sets) == [AddLabel(k, PropertyName(t.obj.iri)), BlankOp(k)];
  }

  lemma LiteralOpsAre(t: Triple)
    requires t.obj.Lit?
    ensures var k := KeyOf(t.subj);
      TripleOps(t) == ResourceOps(k) + [PutProp(k, PropertyName(t.pred), Text(ValueRepr(t.obj.literal)))]
  {
    var s, k := TripleStatement(t), KeyOf(t.subj);
    assert s == [s[0]] + [s[1]];
    ResolveMergeResource(map[], "s", k, [s[1]]);
    ResolveLast(map[]["s" := k], s[1]);
  }

  lemma ResolveEdge(k: NodeKey, o: NodeKey, etype: string, pred: string)
    ensures Resolve(map[], [MergeResource("s", k), MergeResource("o", o), MergeEdge("s", etype, pred, "o")])
      == ResourceOps(k) + (ResourceOps(o) + [Link(Edge(k, etype, pred, o))])
  {
    var a, b, e := MergeResource("s", k), MergeResource("o", o), MergeEdge("s", etype, pred, "o");
    var env: map<string, NodeKey> := map[]["s" := k];
    assert [a, b, e] == [a] + ([b] + [e]);
    ResolveMergeResource(map[], "s", k, [b] + [e]);
    ResolveMergeResource(env, "o", o, [e]);
    ResolveLast(env["o" := o], e);
  }

  lemma EdgeOpsAre(t: Triple)
    requires IsEdgeTriple(t)
    ensures TripleOps(t) == ResourceOps(KeyOf(t.subj)) + (ResourceOps(KeyOf(t.obj)) + [Link(EdgeOf(t))])
  {
    ResolveEdge(KeyOf(t.subj), KeyOf(t.obj), PropertyName(t.pred), Stored(t.pred));
  }

  /** Executing generate_triple for each triple in order. */
  function InsertOneByOne(g: Graph, ts: seq<Triple>): Graph
    decreases |ts|
  {
    if ts == [] then g else InsertOneByOne(Execute(g, TripleStatement(ts[0])), ts[1..])
  }

  function AllTripleOps(ts: seq<Triple>): seq<Op> {
    if ts == [] then [] else TripleOps(ts[0]) + AllTripleOps(ts[1..])
  }

  lemma {:induction false} InsertIsOps(g: Graph, ts: seq<Triple>)
    ensures InsertOneByOne(g, ts) == ApplyAll(g, AllTripleOps(ts))
    decreases |ts|
  {
    if ts != [] {
      InsertIsOps(Execute(g, TripleStatement(ts[0])), ts[1..]);
      ApplyAllConcat(g, TripleOps(ts[0]), AllTripleOps(ts[1..]));
    }
  }

  lemma {:induction false} AllTripleOpsConcat(a: seq<Triple>, b: seq<Triple>)
    ensures AllTripleOps(a + b) == AllTripleOps(a) + AllTripleOps(b)
  {
    if a == [] {
      assert a + b == b;
    } else {
      assert (a + b)[1..] == a[1..] + b;
      AllTripleOpsConcat(a[1..], b);
    }
  }

  lemma NoLinks(ops: seq<Op>)
    requires forall i :: 0 <= i < |ops| ==> !ops[i].Link?
    ensures Links(ops) == {}
  {
  }

  lemma TripleOpsLinks(t: Triple)
    ensures Links(TripleOps(t)) == if IsEdgeTriple(t) then {EdgeOf(t)} else {}
  {
    if IsEdgeTriple(t) {
      EdgeOpsAre(t);
      LinksOfEdge(ResourceOps(KeyOf(t.subj)), ResourceOps(KeyOf(t.obj)), Link(EdgeOf(t)));
    } else {
      NodeTripleLinks(t);
    }
  }

  lemma TypeOpsLinks(k: NodeKey, name: string)
    ensures Links([Ensure(k), AddLabel(k, name), BlankOp(k)]) == {}
  {
    NoLinks([Ensure(k), AddLabel(k, name), BlankOp(k)]);
  }

  lemma PropertyOpsLinks(k: NodeKey, name: string, v: Value)
    ensures Links(ResourceOps(k) + [PutProp(k, name, v)]) == {}
  {
    NoLinks(ResourceOps(k) + [PutProp(k, name, v)]);
  }

  lemma NodeTripleLinks(t: Triple)
    requires !IsEdgeTriple(t)
    ensures Links(TripleOps(t)) == {}
  {
    if IsTypeTriple(t) {
      TypeOpsAre(t);
      TypeOpsLinks(KeyOf(t.subj), PropertyName(t.obj.iri));
    } else {
      LiteralOpsAre(t);
      PropertyOpsLinks(KeyOf(t.subj), PropertyName(t.pred), Text(ValueRepr(t.obj.literal)));
    }
  }

  lemma LinksOfEdge(s: seq<Op>, o: seq<Op>, e: Op)
    requires e.Link?
    requires forall i :: 0 <= i < |s| ==> !s[i].Link?
    requires forall i :: 0 <= i < |o| ==> !o[i].Link?
    ensures Links(s + (o + [e])) == {e.edge}
  {
    TouchedConcat(s, o + [e]);
    TouchedConcat(o, [e]);
    NoLinks(s);
    NoLinks(o);
    OneLink(e);
  }

  lemma OneLink(e: Op)
    requires e.Link?
    ensures Links([e]) == {e.edge}
  {
    assert [e][0] == e;
  }

  ghost function EdgesOf(ts: seq<Triple>): set<Edge> {
    set t | t in ts && IsEdgeTriple(t) :: EdgeOf(t)
  }

  lemma EdgesOfCons(t: Triple, ts: seq<Triple>)
    ensures EdgesOf([t] + ts) == (if IsEdgeTriple(t) then {EdgeOf(t)} else {}) + EdgesOf(ts)
  {
    assert forall x :: x in [t] + ts <==> x == t || x in ts;
  }

  lemma {:induction false} LinksAreEdges(ts: seq<Triple>)
    ensures Links(AllTripleOps(ts)) == EdgesOf(ts)
  {
    if ts != [] {
      TripleOpsLinks(ts[0]);
      LinksAreEdges(ts[1..]);
      TouchedConcat(TripleOps(ts[0]), AllTripleOps(ts[1..]));
      EdgesOfCons(ts[0], ts[1..]);
      assert ts == [ts[0]] + ts[1..];
    }
  }

  /** The edges of an inserted graph are exactly the edges of its edge triples, each once. */
  lemma InsertedEdges(g: Graph, ts: seq<Triple>)
    ensures InsertOneByOne(g, ts).edges == g.edges + EdgesOf(ts)
  {
    InsertIsOps(g, ts);
    ApplyAllShape(g, AllTripleOps(ts));
    LinksAreEdges(ts);
  }

  /** IRIs as Iri::new lets them through (no control characters) that are not spelled like a
      blank node; blank labels without control characters. */
  predicate PlainTerm(t: Term) {
    match t
    case Iri(iri) => Clean(iri) && !StartsBlank(iri)
    case Blank(id) => Clean(id)
    case Lit(_) => true
  }

  predicate PlainTriple(t: Triple) {
    PlainTerm(t.subj) && Clean(t.pred) && PlainTerm(t.obj)
  }

  lemma KeyOfPlain(t: Subject)
    requires PlainTerm(t)
    ensures KeyOf(t) == NodeKey(t.Blank?, NodeUri(t))
  {
    if t.Blank? {
      assert forall i :: 2 <= i < |NodeUri(t)| ==> NodeUri(t)[i] == t.id[i - 2];
    }
  }

  lemma KeyOfInjective(a: Subject, b: Subject)
    requires PlainTerm(a) && PlainTerm(b)
    requires KeyOf(a) == KeyOf(b)
    ensures a == b
  {
    KeyOfPlain(a);
    KeyOfPlain(b);
    if a.Blank? {
      assert a.id == NodeUri(a)[2..] && b.id == NodeUri(b)[2..];
    }
  }

  lemma NodeUriInjective(a: Subject, b: Subject)
    requires PlainTerm(a) && PlainTerm(b)
    requires NodeUri(a) == NodeUri(b)
    ensures a == b
  {
    if a.Blank? {
      assert StartsBlank(NodeUri(a));
      assert a.id == NodeUri(a)[2..];
    }
    if b.Blank? {
      assert StartsBlank(NodeUri(b));
      assert b.id == NodeUri(b)[2..];
    }
  }

  /** Different triples become different edges. */
  lemma EdgeOfInjective(a: Triple, b: Triple)
    requires PlainTriple(a) && PlainTriple(b) && IsEdgeTriple(a) && IsEdgeTriple(b)
    requires EdgeOf(a) == EdgeOf(b)
    ensures a == b
  {
    KeyOfInjective(a.subj, b.subj);
    KeyOfInjective(a.obj, b.obj);
  }
}
