/** The literals and list items of the data, read back from the graph that was built of it. */
module StoredLiterals {
  import opened Rdf
  import opened PropertyGraph
  import opened GraphEffects
  import opened CypherGenerator
  import opened RdfLists
  import opened RdfListRoundTrip
  import opened BatchInsert
  import opened BatchEquivalence
  import opened BatchTheorems
  import opened LiteralValues

  /** t writes the property name of node k. */
  predicate Writes(t: Triple, k: NodeKey, name: string) {
    t.obj.Lit? && KeyOf(t.subj) == k && PropertyName(t.pred) == name
  }

  /** The last literal triple that writes the property name of node k. */
  ghost predicate LastWriter(ts: seq<Triple>, i: nat, k: NodeKey, name: string) {
    i < |ts| && Writes(ts[i], k, name) && forall j :: i < j < |ts| ==> !Writes(ts[j], k, name)
  }

  /** The node's property reads back as the literal. */
  ghost predicate Reads(g: Graph, k: NodeKey, name: string, lit: Literal) {
    var props := NodeAt(g, k).props;
    name in props && props[name].Text? && Means(ReadValue(props[name].repr), lit)
  }

  lemma WrittenByOne(t: Triple, k: NodeKey, name: string)
    requires name != "isBlank"
    ensures name in WritesTo(TripleOps(t), k) <==> Writes(t, k, name)
    ensures Writes(t, k, name) ==> WritesTo(TripleOps(t), k)[name] == Text(ValueRepr(t.obj.literal))
  {
    if t.obj.Lit? { WrittenByLiteral(t, k, name); } else { NothingWritten(t, k, name); }
  }

  lemma WrittenByLiteral(t: Triple, k: NodeKey, name: string)
    requires name != "isBlank" && t.obj.Lit?
    ensures name in WritesTo(TripleOps(t), k) <==> Writes(t, k, name)
    ensures Writes(t, k, name) ==> WritesTo(TripleOps(t), k)[name] == Text(ValueRepr(t.obj.literal))
  {
    var s := KeyOf(t.subj);
    LiteralOpsAre(t);
    NoWrite(ResourceOps(s), k, name);
    LastWrite(ResourceOps(s), PutProp(s, PropertyName(t.pred), Text(ValueRepr(t.obj.literal))), k, name);
  }

  /** No property is written but the flag. */
  ghost predicate OnlyFlags(ops: seq<Op>) {
    forall i :: 0 <= i < |ops| && ops[i].PutProp? ==> ops[i].name == "isBlank"
  }

  lemma FlagsOfType(k: NodeKey, name: string)
    ensures OnlyFlags([Ensure(k), AddLabel(k, name), BlankOp(k)])
  {
  }

  lemma FlagsOfEdge(k: NodeKey, o: NodeKey, e: Edge)
    ensures OnlyFlags(ResourceOps(k) + (ResourceOps(o) + [Link(e)]))
  {
    assert OnlyFlags(ResourceOps(k)) && OnlyFlags(ResourceOps(o) + [Link(e)]);
  }

  lemma NothingWritten(t: Triple, k: NodeKey, name: string)
    requires name != "isBlank" && !t.obj.Lit?
    ensures name !in WritesTo(TripleOps(t), k)
  {
    if IsTypeTriple(t) {
      TypeOpsAre(t);
      FlagsOfType(KeyOf(t.subj), PropertyName(t.obj.iri));
    } else {
      EdgeOpsAre(t);
      FlagsOfEdge(KeyOf(t.subj), KeyOf(t.obj), EdgeOf(t));
    }
    NoWrite(TripleOps(t), k, name);
  }

  lemma NoWrite(ops: seq<Op>, k: NodeKey, name: string)
    requires OnlyFlags(ops) && name != "isBlank"
    ensures name !in WritesTo(ops, k)
  {
    if name in WritesTo(ops, k) { WriteSource(ops, k, name); }
  }

  lemma LastWrite(ops: seq<Op>, last: Op, k: NodeKey, name: string)
    requires last.PutProp? && name !in WritesTo(ops, k)
    ensures name in WritesTo(ops + [last], k) <==> last.key == k && last.name == name
    ensures last.key == k && last.name == name ==> WritesTo(ops + [last], k)[name] == last.value
  {
    assert (ops + [last])[..|ops|] == ops;
  }

  lemma {:induction false} Unwritten(ts: seq<Triple>, k: NodeKey, name: string)
    requires name != "isBlank" && forall j :: 0 <= j < |ts| ==> !Writes(ts[j], k, name)
    ensures name !in WritesTo(AllTripleOps(ts), k)
  {
    if ts != [] {
      WrittenByOne(ts[0], k, name);
      Unwritten(ts[1..], k, name);
      WritesConcat(TripleOps(ts[0]), AllTripleOps(ts[1..]), k);
    }
  }

  lemma NotWrittenAfter(ts: seq<Triple>, i: nat, k: NodeKey, name: string)
    requires name != "isBlank" && LastWriter(ts, i, k, name)
    ensures name !in WritesTo(AllTripleOps(ts[i + 1..]), k)
  {
    var rest := ts[i + 1..];
    forall j | 0 <= j < |rest| ensures !Writes(rest[j], k, name) {
      assert rest[j] == ts[i + 1 + j];
    }
    Unwritten(rest, k, name);
  }

  lemma OpsAround(ts: seq<Triple>, i: nat)
    requires i < |ts|
    ensures AllTripleOps(ts) == AllTripleOps(ts[..i]) + (TripleOps(ts[i]) + AllTripleOps(ts[i + 1..]))
  {
    assert ts[i..][0] == ts[i] && ts[i..][1..] == ts[i + 1..] && ts == ts[..i] + ts[i..];
    AllTripleOpsConcat(ts[..i], ts[i..]);
  }

  lemma WrittenLast(ts: seq<Triple>, i: nat, k: NodeKey, name: string)
    requires name != "isBlank" && LastWriter(ts, i, k, name)
    ensures var written := WritesTo(AllTripleOps(ts), k);
      name in written && written[name] == Text(ValueRepr(ts[i].obj.literal))
  {
    NotWrittenAfter(ts, i, k, name);
    OpsAround(ts, i);
    WrittenByOne(ts[i], k, name);
    WritesConcat(TripleOps(ts[i]), AllTripleOps(ts[i + 1..]), k);
    WritesConcat(AllTripleOps(ts[..i]), TripleOps(ts[i]) + AllTripleOps(ts[i + 1..]), k);
  }

  /** After inserting the triples one by one, a property reads back as the last literal written to it. */
  lemma LiteralsReadBack(g: Graph, ts: seq<Triple>, i: nat, k: NodeKey, name: string)
    requires !Reserved(name) && LastWriter(ts, i, k, name)
    ensures Reads(InsertOneByOne(g, ts), k, name, ts[i].obj.literal)
  {
    InsertIsOps(g, ts);
    ApplyAllFields(g, AllTripleOps(ts), k);
    WrittenLast(ts, i, k, name);
    ValueReads(ts[i].obj.literal);
  }

  /** The property is there or not, and with the same value, in both graphs. */
  ghost predicate SameProperty(g: Graph, after: Graph, k: NodeKey, name: string) {
    var was, now := NodeAt(g, k).props, NodeAt(after, k).props;
    (name in now <==> name in was) && (name in now ==> now[name] == was[name])
  }

  /** A property that no triple writes is as it was. */
  lemma OthersStay(g: Graph, ts: seq<Triple>, k: NodeKey, name: string)
    requires !Reserved(name) && forall i :: 0 <= i < |ts| ==> !Writes(ts[i], k, name)
    ensures SameProperty(g, InsertOneByOne(g, ts), k, name)
  {
    InsertIsOps(g, ts);
    ApplyAllFields(g, AllTripleOps(ts), k);
    Unwritten(ts, k, name);
  }

  /** So it is after loading them in batches, with any subject order in each. */
  lemma LiteralsReadBackFromBatches(g: Graph, batches: seq<seq<Triple>>, outs: seq<seq<Statement>>, i: nat, k: NodeKey, name: string)
    requires |batches| == |outs| && !Reserved(name)
    requires forall j :: 0 <= j < |batches| ==> Output(outs[j], batches[j])
    requires forall j :: 0 <= j < |batches| ==> ListFree(batches[j]) && GoodTriples(batches[j]) && TypesAreIris(batches[j])
    requires LastWriter(Flatten(batches), i, k, name)
    ensures Reads(ExecuteAll(g, Flatten(outs)), k, name, Flatten(batches)[i].obj.literal)
  {
    BatchesEqualOneByOne(g, batches, outs);
    LiteralsReadBack(g, Flatten(batches), i, k, name);
  }

  lemma ArraysElsewhere(g: Graph, cs: seq<Collection>, k: NodeKey, name: string)
    requires name != "isBlank" && forall c :: c in cs ==> !(UriKey(c.subject) == k && c.property == name)
    ensures SameProperty(g, PutArrays(g, cs), k, name)
  {
    var ops := ArrayOps(cs);
    ApplyAllFields(g, ops, k);
    if name in WritesTo(ops, k) {
      WriteSource(ops, k, name);
      ArrayOpSource(cs, PutProp(k, name, WritesTo(ops, k)[name]));
    }
  }

  /** And beside the lists of a batch, unless a list hangs from the same subject by the same property. */
  lemma LiteralsReadBackBesideLists(g: Graph, stmts: seq<Statement>, ts: seq<Triple>, ls: seq<RdfList>, i: nat, k: NodeKey, name: string)
    requires Output(stmts, ts) && Encodes(ts, ls) && !Reserved(name)
    requires GoodTriples(Others(ts, ls)) && TypesAreIris(Others(ts, ls))
    requires forall c :: c in Results(ls) ==> GoodCollection(c) && !(UriKey(c.subject) == k && c.property == name)
    requires LastWriter(Others(ts, ls), i, k, name)
    ensures Reads(ExecuteAll(g, stmts), k, name, Others(ts, ls)[i].obj.literal)
  {
    var cs := EncodedBatch(g, stmts, ts, ls);
    SameMembers(cs, Results(ls));
    LiteralsReadBack(g, Others(ts, ls), i, k, name);
    ArraysElsewhere(InsertOneByOne(g, Others(ts, ls)), cs, k, name);
  }

  lemma {:induction false} ReprAt(items: seq<Term>, m: nat)
    requires m < |items| && forall n :: 0 <= n < |items| ==> !items[n].Blank?
    ensures |Reprs(items)| == |items| && Reprs(items)[m] == ItemRepr(items[m])
    decreases |items|
  {
    ReprsLength(items);
    if m < |items| - 1 {
      ReprsLength(items[..|items| - 1]);
      ReprAt(items[..|items| - 1], m);
      ReprsAppend(items);
    }
  }

  lemma ReprsAppend(items: seq<Term>)
    requires items != [] && forall n :: 0 <= n < |items| ==> !items[n].Blank?
    ensures Reprs(items) == Reprs(items[..|items| - 1]) + [ItemRepr(items[|items| - 1])]
  {
  }

  lemma {:induction false} ReprsLength(items: seq<Term>)
    requires forall n :: 0 <= n < |items| ==> !items[n].Blank?
    ensures |Reprs(items)| == |items|
  {
    if items != [] { ReprsLength(items[..|items| - 1]); }
  }

  // ----- labels and edges

  /** The names of the classes that the triples give to node k. */
  ghost function ClassesOf(ts: seq<Triple>, k: NodeKey): set<string> {
    set t | t in ts && t.pred == RDF_TYPE && t.obj.Iri? && KeyOf(t.subj) == k :: PropertyName(t.obj.iri)
  }

  ghost predicate NoLabel(ops: seq<Op>) {
    forall i :: 0 <= i < |ops| ==> !ops[i].AddLabel?
  }

  lemma NoLabelAdded(ops: seq<Op>, k: NodeKey)
    requires NoLabel(ops)
    ensures LabelsAt(ops, k) == {}
  {
  }

  lemma LabelsOfOne(t: Triple, k: NodeKey)
    ensures LabelsAt(TripleOps(t), k) == ClassesOf([t], k)
  {
    ClassesOfOne(t, k);
    var s := KeyOf(t.subj);
    if IsTypeTriple(t) {
      TypeOpsAre(t);
      LabelInTheMiddle(s, PropertyName(t.obj.iri), k);
    } else {
      if t.obj.Lit? {
        LiteralOpsAre(t);
        NoLabelOfProperty(s, PropertyName(t.pred), Text(ValueRepr(t.obj.literal)));
      } else {
        EdgeOpsAre(t);
        NoLabelOfEdge(s, KeyOf(t.obj), EdgeOf(t));
      }
      NoLabelAdded(TripleOps(t), k);
    }
  }

  lemma ClassesOfOne(t: Triple, k: NodeKey)
    ensures ClassesOf([t], k) == if IsTypeTriple(t) && KeyOf(t.subj) == k then {PropertyName(t.obj.iri)} else {}
  {
    assert t in [t];
  }

  lemma LabelInTheMiddle(s: NodeKey, name: string, k: NodeKey)
    ensures LabelsAt([Ensure(s), AddLabel(s, name), BlankOp(s)], k) == if s == k then {name} else {}
  {
    var ops := [Ensure(s), AddLabel(s, name), BlankOp(s)];
    assert ops[1] == AddLabel(s, name) && !ops[0].AddLabel? && !ops[2].AddLabel?;
  }

  lemma NoLabelOfProperty(s: NodeKey, name: string, v: Value)
    ensures NoLabel(ResourceOps(s) + [PutProp(s, name, v)])
  {
  }

  lemma NoLabelOfEdge(k: NodeKey, o: NodeKey, e: Edge)
    ensures NoLabel(ResourceOps(k) + (ResourceOps(o) + [Link(e)]))
  {
    assert NoLabel(ResourceOps(k)) && NoLabel(ResourceOps(o) + [Link(e)]);
  }

  lemma ClassesOfCons(t: Triple, ts: seq<Triple>, k: NodeKey)
    ensures ClassesOf([t] + ts, k) == ClassesOf([t], k) + ClassesOf(ts, k)
  {
    assert forall x :: x in [t] + ts <==> x in [t] || x in ts;
  }

  lemma {:induction false} LabelsOfAll(ts: seq<Triple>, k: NodeKey)
    ensures LabelsAt(AllTripleOps(ts), k) == ClassesOf(ts, k)
  {
    if ts != [] {
      LabelsOfOne(ts[0], k);
      LabelsOfAll(ts[1..], k);
      LabelsConcat(TripleOps(ts[0]), AllTripleOps(ts[1..]), k);
      ClassesOfCons(ts[0], ts[1..], k);
      assert ts == [ts[0]] + ts[1..];
    }
  }

  /** Every node gets, beside the labels it had, the names of its classes and no other. */
  lemma LabelsReadBack(g: Graph, ts: seq<Triple>, k: NodeKey)
    ensures NodeAt(InsertOneByOne(g, ts), k).labels == NodeAt(g, k).labels + ClassesOf(ts, k)
  {
    InsertIsOps(g, ts);
    ApplyAllFields(g, AllTripleOps(ts), k);
    LabelsOfAll(ts, k);
  }

  // ----- lists

  /** Every list of a batch is stored as an array that reads back item by item. */
  lemma ItemsReadBack(g: Graph, stmts: seq<Statement>, ts: seq<Triple>, ls: seq<RdfList>, j: nat)
    requires Output(stmts, ts) && Encodes(ts, ls) && j < |ls|
    requires GoodTriples(Others(ts, ls)) && TypesAreIris(Others(ts, ls))
    requires DistinctPlaces(Results(ls)) && forall c :: c in Results(ls) ==> GoodCollection(c)
    ensures var props := NodeAt(ExecuteAll(g, stmts), UriKey(NodeUri(ls[j].subj))).props;
      var name, items := PropertyName(ls[j].pred), ls[j].items;
      && name in props && props[name].Array? && |props[name].items| == |items|
      && forall m :: 0 <= m < |items| ==> !items[m].Blank? && MeansItem(ReadValue(props[name].items[m]), items[m])
  {
    ListsAreStored(g, stmts, ts, ls, j);
    var items := ls[j].items;
    ReprsLength(items);
    forall m | 0 <= m < |items| ensures MeansItem(ReadValue(Reprs(items)[m]), items[m]) {
      ReprAt(items, m);
      ItemReads(items[m]);
    }
  }
}
