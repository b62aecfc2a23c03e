/** What a batch builds: the graph of one-by-one insertion, and the arrays of the lists in it. */
module BatchTheorems {
  import opened Common
  import opened Rdf
  import opened PropertyGraph
  import opened GraphEffects
  import opened CypherGenerator
  import opened RdfLists
  import opened RdfListRoundTrip
  import opened BatchInsert
  import opened BatchEquivalence

  ghost predicate GoodTriples(ts: seq<Triple>) {
    forall i :: 0 <= i < |ts| ==> GoodTriple(ts[i])
  }

  ghost predicate TypesAreIris(ts: seq<Triple>) {
    forall i :: 0 <= i < |ts| && ts[i].pred == RDF_TYPE ==> ts[i].obj.Iri?
  }

  // ----- items and triples

  lemma TypeItem(t: Triple)
    requires GoodTriple(t) && IsTypeTriple(t)
    ensures SameEffect(ItemOps(FromTriple(t)), TripleOps(t))
  {
    PlainSubjectKey(t.subj);
    TypeOpsAre(t);
    var k, mark := KeyOf(t.subj), [AddLabel(KeyOf(t.subj), PropertyName(t.obj.iri))];
    MoveBack([Ensure(k)], mark, [BlankOp(k)]);
    assert TripleOps(t) == [Ensure(k)] + mark + [BlankOp(k)];
    assert ItemOps(FromTriple(t)) == [Ensure(k)] + [BlankOp(k)] + mark;
  }

  lemma OtherItem(t: Triple)
    requires GoodTriple(t) && t.pred != RDF_TYPE
    ensures ItemOps(FromTriple(t)) == TripleOps(t)
  {
    PlainSubjectKey(t.subj);
    if t.obj.Lit? { LiteralOpsAre(t); } else { EdgeOpsAre(t); }
  }

  lemma ItemIsTriple(t: Triple)
    requires GoodTriple(t) && (t.pred == RDF_TYPE ==> t.obj.Iri?)
    ensures SameEffect(ItemOps(FromTriple(t)), TripleOps(t))
  {
    if t.pred == RDF_TYPE { TypeItem(t); } else { OtherItem(t); }
  }

  lemma TripleOpsSnoc(ts: seq<Triple>, t: Triple)
    ensures AllTripleOps(ts + [t]) == AllTripleOps(ts) + TripleOps(t)
  {
    AllTripleOpsConcat(ts, [t]);
    assert [t][1..] == [] && AllTripleOps([t]) == TripleOps(t) + [];
  }

  lemma ItemsSnoc(ts: seq<Triple>, t: Triple)
    ensures Items(ts + [t], []) == Items(ts, []) + [FromTriple(t)]
  {
  }

  /** Item by item or triple by triple, the effect is the same. */
  ghost predicate ItemsMatch(ts: seq<Triple>) {
    SameEffect(AllItemOps(Items(ts, [])), AllTripleOps(ts))
  }

  lemma AppendTriple(ts: seq<Triple>, t: Triple)
    requires ItemsMatch(ts) && GoodTriple(t) && (t.pred == RDF_TYPE ==> t.obj.Iri?)
    ensures ItemsMatch(ts + [t])
  {
    ItemIsTriple(t);
    ItemsSnoc(ts, t);
    AllItemOpsSnoc(Items(ts, []), FromTriple(t));
    TripleOpsSnoc(ts, t);
    SameEffectConcat(AllItemOps(Items(ts, [])), AllTripleOps(ts), ItemOps(FromTriple(t)), TripleOps(t));
  }

  lemma MatchNothing()
    ensures ItemsMatch([])
  {
    assert Items([], []) == [];
  }

  lemma {:induction false} ItemsAreTriples(ts: seq<Triple>)
    requires GoodTriples(ts) && TypesAreIris(ts)
    ensures ItemsMatch(ts)
  {
    if ts == [] {
      MatchNothing();
    } else {
      SplitLast(ts);
      ItemsAreTriples(ts[..|ts| - 1]);
      AppendTriple(ts[..|ts| - 1], ts[|ts| - 1]);
    }
  }

  function ArrayOps(cs: seq<Collection>): seq<Op> {
    if cs == [] then [] else ArrayOps(cs[..|cs| - 1]) + ItemOps(FromCollection(cs[|cs| - 1]))
  }

  /** Writing each array to its subject. */
  function PutArrays(g: Graph, cs: seq<Collection>): Graph {
    ApplyAll(g, ArrayOps(cs))
  }

  lemma ItemsThenArray(ts: seq<Triple>, cs: seq<Collection>, c: Collection)
    ensures Items(ts, cs + [c]) == Items(ts, cs) + [FromCollection(c)]
  {
  }

  lemma ArrayOpsSnoc(cs: seq<Collection>, c: Collection)
    ensures ArrayOps(cs + [c]) == ArrayOps(cs) + ItemOps(FromCollection(c))
  {
    assert (cs + [c])[..|cs|] == cs;
  }

  lemma AppendArray(ts: seq<Triple>, cs: seq<Collection>, c: Collection)
    requires AllItemOps(Items(ts, cs)) == AllItemOps(Items(ts, [])) + ArrayOps(cs)
    ensures AllItemOps(Items(ts, cs + [c])) == AllItemOps(Items(ts, [])) + ArrayOps(cs + [c])
  {
    ItemsThenArray(ts, cs, c);
    AllItemOpsSnoc(Items(ts, cs), FromCollection(c));
    ArrayOpsSnoc(cs, c);
    Associate(AllItemOps(Items(ts, [])), ArrayOps(cs), ItemOps(FromCollection(c)));
  }

  lemma {:induction false} ArraysLast(ts: seq<Triple>, cs: seq<Collection>)
    ensures AllItemOps(Items(ts, cs)) == AllItemOps(Items(ts, [])) + ArrayOps(cs)
  {
    if cs != [] {
      SplitLast(cs);
      ArraysLast(ts, cs[..|cs| - 1]);
      AppendArray(ts, cs[..|cs| - 1], cs[|cs| - 1]);
    }
  }

  lemma GoodParts(ts: seq<Triple>, cs: seq<Collection>)
    requires GoodTriples(ts) && forall i :: 0 <= i < |cs| ==> GoodCollection(cs[i])
    ensures GoodItems(Items(ts, cs))
  {
  }

  /** A batch inserts its remaining triples as if one by one, and then sets its arrays. */
  lemma BatchWithArrays(g: Graph, stmts: seq<Statement>, ts: seq<Triple>, cs: seq<Collection>)
    requires Generated(stmts, ts, cs)
    requires GoodTriples(ts) && TypesAreIris(ts) && forall i :: 0 <= i < |cs| ==> GoodCollection(cs[i])
    ensures ExecuteAll(g, stmts) == PutArrays(InsertOneByOne(g, ts), cs)
  {
    GoodParts(ts, cs);
    BatchIsItems(g, stmts, ts, cs);
    ArraysLast(ts, cs);
    ItemsAreTriples(ts);
    SameEffectSameGraph(g, AllItemOps(Items(ts, [])), AllTripleOps(ts));
    ApplyAllConcat(g, AllItemOps(Items(ts, [])), ArrayOps(cs));
    InsertIsOps(g, ts);
  }

  // ----- without lists

  ghost predicate ListFree(ts: seq<Triple>) {
    forall h :: !IsListHead(LinksOf(ts), h)
  }

  lemma {:induction false} NothingDropped(k: Links, ts: seq<Triple>)
    ensures Remaining(k, {}, ts) == ts
  {
    if ts != [] {
      var before, t := ts[..|ts| - 1], ts[|ts| - 1];
      NothingDropped(k, before);
      assert Kept(k, {}, t) && Remaining(k, {}, ts) == before + [t];
      SplitLast(ts);
    }
  }

  lemma ListFreeOutput(stmts: seq<Statement>, ts: seq<Triple>)
    requires Output(stmts, ts) && ListFree(ts)
    ensures Generated(stmts, ts, [])
  {
    var k := LinksOf(ts);
    var heads :| ListsHeads(k, heads) && Generated(stmts, Remaining(k, UsedNodes(k), ts), CollectionsOf(k, heads));
    Inhabited(heads);
    assert heads == [];
    assert UsedNodes(k) == {};
    NothingDropped(k, ts);
  }

  lemma ListFreeBatch(g: Graph, stmts: seq<Statement>, ts: seq<Triple>)
    requires Output(stmts, ts) && ListFree(ts) && GoodTriples(ts) && TypesAreIris(ts)
    ensures ExecuteAll(g, stmts) == InsertOneByOne(g, ts)
  {
    ListFreeOutput(stmts, ts);
    BatchWithArrays(g, stmts, ts, []);
  }

  function Flatten<T>(xss: seq<seq<T>>): seq<T> {
    if xss == [] then [] else xss[0] + Flatten(xss[1..])
  }

  lemma InsertConcat(g: Graph, a: seq<Triple>, b: seq<Triple>)
    ensures InsertOneByOne(g, a + b) == InsertOneByOne(InsertOneByOne(g, a), b)
  {
    InsertIsOps(g, a + b);
    InsertIsOps(g, a);
    InsertIsOps(InsertOneByOne(g, a), b);
    AllTripleOpsConcat(a, b);
    ApplyAllConcat(g, AllTripleOps(a), AllTripleOps(b));
  }

  /** Any cut into consecutive batches, any subject order in each of them. */
  lemma {:induction false} BatchesEqualOneByOne(g: Graph, batches: seq<seq<Triple>>, outs: seq<seq<Statement>>)
    requires |batches| == |outs|
    requires forall i :: 0 <= i < |batches| ==> Output(outs[i], batches[i])
    requires forall i :: 0 <= i < |batches| ==> ListFree(batches[i]) && GoodTriples(batches[i]) && TypesAreIris(batches[i])
    ensures ExecuteAll(g, Flatten(outs)) == InsertOneByOne(g, Flatten(batches))
    decreases |batches|
  {
    if batches != [] {
      ListFreeBatch(g, outs[0], batches[0]);
      BatchesEqualOneByOne(ExecuteAll(g, outs[0]), batches[1..], outs[1..]);
      ExecuteAllConcat(g, outs[0], Flatten(outs[1..]));
      InsertConcat(g, batches[0], Flatten(batches[1..]));
    }
  }

  // ----- rdf:type with another object

  lemma ItemLinksNoType(it: Item)
    requires GoodItem(it)
    ensures forall i :: 0 <= i < |ItemOps(it)| && ItemOps(it)[i].Link? ==> ItemOps(it)[i].edge.pred != RDF_TYPE
  {
  }

  lemma {:induction false} BatchLinksNoType(items: seq<Item>)
    requires GoodItems(items)
    ensures forall i :: 0 <= i < |AllItemOps(items)| && AllItemOps(items)[i].Link? ==> AllItemOps(items)[i].edge.pred != RDF_TYPE
  {
    if items != [] {
      GoodPrefix(items);
      BatchLinksNoType(items[..|items| - 1]);
      ItemLinksNoType(items[|items| - 1]);
    }
  }

  lemma BatchHasNoTypeEdge(stmts: seq<Statement>, ts: seq<Triple>)
    requires Generated(stmts, ts, []) && GoodTriples(ts)
    ensures forall e :: e in ExecuteAll(EMPTY, stmts).edges ==> e.pred != RDF_TYPE
  {
    GoodParts(ts, []);
    BatchIsItems(EMPTY, stmts, ts, []);
    ApplyAllShape(EMPTY, AllItemOps(Items(ts, [])));
    BatchLinksNoType(Items(ts, []));
  }

  lemma EdgeKeepsPredicate(t: Triple)
    requires GoodTriple(t) && IsEdgeTriple(t)
    ensures EdgeOf(t).pred == t.pred
  {
  }

  lemma EdgeIsInserted(ts: seq<Triple>, t: Triple)
    requires t in ts && IsEdgeTriple(t)
    ensures EdgeOf(t) in InsertOneByOne(EMPTY, ts).edges
  {
    InsertedEdges(EMPTY, ts);
    assert EdgeOf(t) in EdgesOf(ts);
  }

  /** rdf:type with a blank object becomes an edge on its own and nothing in a batch, so the two
      graphs are equal exactly when every rdf:type object is an IRI. */
  lemma TypeObjectsExact(stmts: seq<Statement>, ts: seq<Triple>)
    requires Output(stmts, ts) && ListFree(ts) && GoodTriples(ts)
    requires forall i :: 0 <= i < |ts| && ts[i].pred == RDF_TYPE ==> !ts[i].obj.Lit?
    ensures ExecuteAll(EMPTY, stmts) == InsertOneByOne(EMPTY, ts) <==> TypesAreIris(ts)
  {
    if TypesAreIris(ts) {
      ListFreeBatch(EMPTY, stmts, ts);
    } else {
      var i :| 0 <= i < |ts| && ts[i].pred == RDF_TYPE && !ts[i].obj.Iri?;
      ListFreeOutput(stmts, ts);
      BatchHasNoTypeEdge(stmts, ts);
      assert ts[i] in ts;
      EdgeIsInserted(ts, ts[i]);
      EdgeKeepsPredicate(ts[i]);
    }
  }

  // ----- lists end to end

  lemma {:induction false} ArrayOpSource(cs: seq<Collection>, op: Op)
    requires op in ArrayOps(cs) && op.PutProp? && op.name != "isBlank"
    ensures exists c :: c in cs && op == PutProp(UriKey(c.subject), c.property, Array(c.values))
  {
    var before, c := cs[..|cs| - 1], cs[|cs| - 1];
    assert cs == before + [c];
    if op in ArrayOps(before) {
      ArrayOpSource(before, op);
    } else {
      assert op in ItemOps(FromCollection(c)) && c in cs;
    }
  }

  lemma {:induction false} ArrayOpThere(cs: seq<Collection>, c: Collection) returns (i: nat)
    requires c in cs
    ensures i < |ArrayOps(cs)| && ArrayOps(cs)[i] == PutProp(UriKey(c.subject), c.property, Array(c.values))
  {
    var before, last := cs[..|cs| - 1], cs[|cs| - 1];
    assert cs == before + [last];
    if last == c {
      i := |ArrayOps(before)| + 2;
    } else {
      i := ArrayOpThere(before, c);
    }
  }

  /** No two lists hang from one subject by properties of one name. */
  ghost predicate DistinctPlaces(cs: seq<Collection>) {
    forall c, c' :: c in cs && c' in cs && c.subject == c'.subject && c.property == c'.property ==> c == c'
  }

  lemma ArrayStored(g: Graph, cs: seq<Collection>, c: Collection)
    requires DistinctPlaces(cs) && c in cs && GoodCollection(c)
    ensures var n := NodeAt(PutArrays(g, cs), UriKey(c.subject));
      c.property in n.props && n.props[c.property] == Array(c.values)
  {
    var ops, k := ArrayOps(cs), UriKey(c.subject);
    var i := ArrayOpThere(cs, c);
    ApplyAllFields(g, ops, k);
    WriteStays(ops, i, k, c.property);
    WriteSource(ops, k, c.property);
    var v := WritesTo(ops, k)[c.property];
    assert PutProp(k, c.property, v) in ops;
    ArrayOpSource(cs, PutProp(k, c.property, v));
  }

  lemma {:induction false} ResultsMember(ls: seq<RdfList>, c: Collection)
    ensures c in Results(ls) <==> exists j :: 0 <= j < |ls| && c == ls[j].Result()
  {
    if ls != [] {
      ResultsMember(ls[1..], c);
      if c in Results(ls[1..]) {
        var j :| 0 <= j < |ls[1..]| && c == ls[1..][j].Result();
        assert ls[j + 1] == ls[1..][j];
      }
      if j :| 0 <= j < |ls| && c == ls[j].Result() {
        assert j > 0 ==> ls[1..][j - 1] == ls[j];
      }
    }
  }

  lemma SameMembers(cs: seq<Collection>, rs: seq<Collection>)
    requires multiset(cs) == multiset(rs)
    ensures forall x :: x in cs <==> x in rs
  {
    forall x ensures x in cs <==> x in rs {
      assert x in multiset(cs) <==> x in multiset(rs);
    }
  }

  lemma GoodMembers(cs: seq<Collection>, rs: seq<Collection>)
    requires multiset(cs) == multiset(rs) && forall c :: c in rs ==> GoodCollection(c)
    ensures forall i :: 0 <= i < |cs| ==> GoodCollection(cs[i])
  {
    SameMembers(cs, rs);
    assert forall i :: 0 <= i < |cs| ==> cs[i] in cs;
  }

  /** The batch of an encoding inserts the other triples and sets arrays that are exactly the lists. */
  lemma EncodedBatch(g: Graph, stmts: seq<Statement>, ts: seq<Triple>, ls: seq<RdfList>) returns (cs: seq<Collection>)
    requires Output(stmts, ts) && Encodes(ts, ls)
    requires GoodTriples(Others(ts, ls)) && TypesAreIris(Others(ts, ls))
    requires forall c :: c in Results(ls) ==> GoodCollection(c)
    ensures multiset(cs) == multiset(Results(ls))
    ensures ExecuteAll(g, stmts) == PutArrays(InsertOneByOne(g, Others(ts, ls)), cs)
  {
    var k := LinksOf(ts);
    var heads :| ListsHeads(k, heads) && Generated(stmts, Remaining(k, UsedNodes(k), ts), CollectionsOf(k, heads));
    cs := CollectionsOf(k, heads);
    ListRoundTrip(ts, ls, heads);
    GoodMembers(cs, Results(ls));
    BatchWithArrays(g, stmts, Others(ts, ls), cs);
  }

  /** Every list of an encoded batch ends up, in order, as one array on its subject. */
  lemma ListsAreStored(g: Graph, stmts: seq<Statement>, ts: seq<Triple>, ls: seq<RdfList>, j: nat)
    requires Output(stmts, ts) && Encodes(ts, ls) && j < |ls|
    requires GoodTriples(Others(ts, ls)) && TypesAreIris(Others(ts, ls))
    requires DistinctPlaces(Results(ls)) && forall c :: c in Results(ls) ==> GoodCollection(c)
    ensures var n := NodeAt(ExecuteAll(g, stmts), UriKey(NodeUri(ls[j].subj)));
      PropertyName(ls[j].pred) in n.props && n.props[PropertyName(ls[j].pred)] == Array(Reprs(ls[j].items))
  {
    var c := ls[j].Result();
    var cs := EncodedBatch(g, stmts, ts, ls);
    SameMembers(cs, Results(ls));
    ResultsMember(ls, c);
    ArrayStored(InsertOneByOne(g, Others(ts, ls)), cs, c);
  }
}
