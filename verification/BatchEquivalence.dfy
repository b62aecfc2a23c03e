/** Inserting by subject, in any subject order and any cut into batches, builds the graph that
    inserting one triple at a time builds. */
module BatchEquivalence {
  import opened Common
  import opened Rdf
  import opened Schema
  import opened PropertyGraph
  import opened GraphEffects
  import opened CypherGenerator
  import opened RdfLists
  import opened BatchInsert

  // ----- keys

  function UriKey(u: string): NodeKey {
    NodeKey(StartsBlank(u), u)
  }

  lemma PlainSubjectKey(t: Subject)
    requires PlainTerm(t)
    ensures KeyOf(t) == UriKey(NodeUri(t)) && Stored(NodeUri(t)) == NodeUri(t) && (t.Blank? <==> StartsBlank(NodeUri(t)))
  {
    KeyOfPlain(t);
    if t.Blank? {
      assert forall i :: 2 <= i < |NodeUri(t)| ==> NodeUri(t)[i] == t.id[i - 2];
      assert Clean(NodeUri(t));
    }
  }

  /** Property names that would overwrite what identifies a node. */
  predicate Reserved(name: string) {
    name == "uri" || name == "isBlank"
  }

  predicate GoodTriple(t: Triple) {
    PlainTriple(t) && (t.obj.Lit? ==> !Reserved(PropertyName(t.pred)))
  }

  predicate GoodCollection(c: Collection) {
    Clean(c.subject) && !Reserved(c.property)
  }

  predicate GoodItem(it: Item) {
    if it.FromTriple? then GoodTriple(it.triple) else GoodCollection(it.collection)
  }

  ghost predicate GoodItems(items: seq<Item>) {
    && (forall i :: 0 <= i < |items| ==> GoodItem(items[i]))
    && (forall i, j :: 0 <= i < j < |items| && items[j].FromTriple? ==> items[i].FromTriple?)
  }

  // ----- what one item adds, once its subject is there

  function Extra(it: Item): seq<Op> {
    var k := UriKey(it.Uri());
    if it.FromCollection? then [PutProp(k, it.collection.property, Array(it.collection.values))]
    else
      var t := it.triple;
      if t.pred == RDF_TYPE then (if t.obj.Iri? then [AddLabel(k, PropertyName(t.obj.iri))] else [])
      else if t.obj.Lit? then [PutProp(k, PropertyName(t.pred), Text(ValueRepr(t.obj.literal)))]
      else ResourceOps(KeyOf(t.obj)) + [Link(EdgeOf(t))]
  }

  function ItemOps(it: Item): seq<Op> {
    ResourceOps(UriKey(it.Uri())) + Extra(it)
  }

  function AllItemOps(items: seq<Item>): seq<Op> {
    if items == [] then [] else AllItemOps(items[..|items| - 1]) + ItemOps(items[|items| - 1])
  }

  // ----- the effects of a subject statement

  function RelEdge(k: NodeKey, rel: Relationship): Edge {
    Edge(k, SanitizeIdentifier(rel.localName), Stored(rel.pred), rel.Target())
  }

  function OneRel(k: NodeKey, rel: Relationship): seq<Op> {
    ResourceOps(rel.Target()) + [Link(RelEdge(k, rel))]
  }

  function RelOps(k: NodeKey, rels: seq<Relationship>): seq<Op> {
    if rels == [] then [] else OneRel(k, rels[0]) + RelOps(k, rels[1..])
  }

  function SubjectOps(d: SubjectData): seq<Op> {
    [Ensure(d.Key())] + SetOps(d.Key(), SetItems(d)) + RelOps(d.Key(), d.relationships)
  }

  lemma ResolveMergeEdge(env: map<string, NodeKey>, e: Clause, rest: Statement)
    requires e.MergeEdge? && e.source in env && e.target in env
    ensures Resolve(env, [e] + rest) == [Link(Edge(env[e.source], e.etype, e.pred, env[e.target]))] + Resolve(env, rest)
  {
    assert ([e] + rest)[1..] == rest;
  }

  lemma TargetVarIsNotS(i: nat)
    ensures TargetVar(i) != "s"
  {
    assert TargetVar(i)[0] == 'o' && "s"[0] == 's';
  }

  lemma TwoThen<T>(a: T, b: T, rest: seq<T>)
    ensures [a, b] + rest == [a] + ([b] + rest)
  {
  }

  lemma ResolveTwoClauses(env: map<string, NodeKey>, rel: Relationship, i: nat, rest: Statement)
    requires "s" in env
    ensures Resolve(env, TwoClauses(rel, i) + rest)
         == OneRel(env["s"], rel) + Resolve(env[TargetVar(i) := rel.Target()], rest)
  {
    var v, target := TargetVar(i), rel.Target();
    var merge := TwoClauses(rel, i)[1];
    TargetVarIsNotS(i);
    TwoThen(MergeResource(v, target), merge, rest);
    ResolveMergeResource(env, v, target, [merge] + rest);
    ResolveMergeEdge(env[v := target], merge, rest);
    Associate(ResourceOps(target), [Link(RelEdge(env["s"], rel))], Resolve(env[v := target], rest));
  }

  lemma {:induction false} ResolveRelationships(env: map<string, NodeKey>, rels: seq<Relationship>, i: nat)
    requires "s" in env
    ensures Resolve(env, RelationshipClauses(rels, i)) == RelOps(env["s"], rels)
    decreases |rels|
  {
    if rels != [] {
      var next := env[TargetVar(i) := rels[0].Target()];
      TargetVarIsNotS(i);
      ResolveTwoClauses(env, rels[0], i, RelationshipClauses(rels[1..], i + 1));
      ResolveRelationships(next, rels[1..], i + 1);
    }
  }

  lemma SubjectOpsAre(d: SubjectData)
    ensures Resolve(map[], SubjectStatement(d)) == SubjectOps(d)
  {
    var s, rels := SubjectStatement(d), RelationshipClauses(d.relationships, 0);
    assert s[0] == MergeNode("s", d.Key(), SetItems(d)) && s[1..] == rels;
    ResolveRelationships(map["s" := d.Key()], d.relationships, 0);
  }

  // ----- tidy effects: only k gets properties of its own, and flags are right

  predicate RightFlag(op: Op) {
    op.PutProp? && op.name == "isBlank" ==> op.value == Flag(op.key.blank)
  }

  predicate Tidy(k: NodeKey, op: Op) {
    RightFlag(op) && (op.PutProp? && op.name != "isBlank" ==> op.key == k)
  }

  ghost predicate TidyAll(k: NodeKey, ops: seq<Op>) {
    forall i :: 0 <= i < |ops| ==> Tidy(k, ops[i])
  }

  lemma TidyCommute(k: NodeKey, a: seq<Op>, k': NodeKey, b: seq<Op>)
    requires k != k' && TidyAll(k, a) && TidyAll(k', b)
    ensures Commuting(a, b)
  {
  }

  lemma ResourceOpsTidy(k: NodeKey, k': NodeKey)
    ensures TidyAll(k, ResourceOps(k'))
  {
  }

  lemma {:induction false} RelOpsTidy(k: NodeKey, k': NodeKey, rels: seq<Relationship>)
    ensures forall i :: 0 <= i < |RelOps(k, rels)| ==> Tidy(k', RelOps(k, rels)[i])
    ensures forall i :: 0 <= i < |RelOps(k, rels)| && RelOps(k, rels)[i].PutProp? ==> RelOps(k, rels)[i].name == "isBlank"
  {
    if rels != [] { RelOpsTidy(k, k', rels[1..]); }
  }

  lemma TidyConcat(k: NodeKey, a: seq<Op>, b: seq<Op>)
    requires TidyAll(k, a) && TidyAll(k, b)
    ensures TidyAll(k, a + b)
  {
  }

  lemma ExtraTidy(it: Item)
    requires GoodItem(it)
    ensures TidyAll(UriKey(it.Uri()), Extra(it))
  {
    if it.FromTriple? && !it.triple.obj.Lit? && it.triple.pred != RDF_TYPE {
      var k := UriKey(it.Uri());
      ResourceOpsTidy(k, KeyOf(it.triple.obj));
      TidyConcat(k, ResourceOps(KeyOf(it.triple.obj)), [Link(EdgeOf(it.triple))]);
    } else if it.FromTriple? {
      PlainSubjectKey(it.triple.subj);
    }
  }

  lemma ItemTidy(it: Item)
    requires GoodItem(it)
    ensures TidyAll(UriKey(it.Uri()), ItemOps(it))
  {
    ResourceOpsTidy(UriKey(it.Uri()), UriKey(it.Uri()));
    ExtraTidy(it);
    TidyConcat(UriKey(it.Uri()), ResourceOps(UriKey(it.Uri())), Extra(it));
  }

  ghost predicate GoodData(d: SubjectData) {
    && d.Key() == UriKey(d.uri)
    && (forall i :: 0 <= i < |d.properties| ==> !Reserved(d.properties[i].0))
    && (forall i :: 0 <= i < |d.arrays| ==> !Reserved(d.arrays[i].0))
  }

  lemma SetsTidy(k: NodeKey, items: seq<SetItem>)
    requires forall i :: 0 <= i < |items| && items[i].SetProp? ==> items[i] == BlankFlag(k) || items[i].name != "isBlank"
    ensures TidyAll(k, SetOps(k, items))
  {
    var sets := SetOps(k, items);
    forall i | 0 <= i < |sets| ensures Tidy(k, sets[i]) {
      assert sets[i] == SetOp(k, items[i]);
    }
  }

  lemma SubjectOpsTidy(d: SubjectData)
    requires GoodData(d)
    ensures TidyAll(d.Key(), SubjectOps(d))
    ensures Ensure(d.Key()) in SubjectOps(d) && BlankOp(d.Key()) in SubjectOps(d)
  {
    var k := d.Key();
    SetsTidy(k, SetItems(d));
    RelOpsTidy(k, k, d.relationships);
    TidyConcat(k, [Ensure(k)], SetOps(k, SetItems(d)));
    TidyConcat(k, [Ensure(k)] + SetOps(k, SetItems(d)), RelOps(k, d.relationships));
    FlagIsSet(d);
  }

  lemma FlagIsSet(d: SubjectData)
    ensures Ensure(d.Key()) in SubjectOps(d) && BlankOp(d.Key()) in SubjectOps(d)
  {
    var k := d.Key();
    assert SetItems(d)[|d.labels|] == BlankFlag(k);
    assert SetOps(k, SetItems(d))[|d.labels|] == BlankOp(k);
    assert SubjectOps(d)[0] == Ensure(k) && SubjectOps(d)[1 + |d.labels|] == BlankOp(k);
  }

  lemma AbsorbResource(ops: seq<Op>, k: NodeKey, extra: seq<Op>)
    requires TidyAll(k, ops) && Ensure(k) in ops && BlankOp(k) in ops
    ensures SameEffect(ops + ResourceOps(k) + extra, ops + extra)
  {
    var once := ops + [Ensure(k)];
    AbsorbOne(ops, Ensure(k));
    AbsorbOne(once, BlankOp(k));
    assert ops + ResourceOps(k) == once + [BlankOp(k)];
    SameEffectTrans(once + [BlankOp(k)], once, ops);
    SameEffectThen(ops + ResourceOps(k), ops, extra);
  }

  // ----- adding one item to its subject

  lemma SetOpsConcat(k: NodeKey, a: seq<SetItem>, b: seq<SetItem>)
    ensures SetOps(k, a + b) == SetOps(k, a) + SetOps(k, b)
  {
  }

  lemma {:induction false} RelOpsSnoc(k: NodeKey, rels: seq<Relationship>, rel: Relationship)
    ensures RelOps(k, rels + [rel]) == RelOps(k, rels) + OneRel(k, rel)
  {
    var all, one := rels + [rel], OneRel(k, rel);
    if rels == [] {
      assert all == [rel] && all[1..] == [];
      assert one + [] == one && [] + one == one;
    } else {
      assert all[0] == rels[0] && all[1..] == rels[1..] + [rel];
      RelOpsSnoc(k, rels[1..], rel);
      Associate(OneRel(k, rels[0]), RelOps(k, rels[1..]), one);
    }
  }

  /** Setting one more thing: a set item put between two stretches of items acts like one put at
      the end, when nothing after it writes the same property. */
  lemma SetOneMore(k: NodeKey, a: seq<SetItem>, x: SetItem, b: seq<SetItem>, rels: seq<Op>)
    requires Commuting([SetOp(k, x)], SetOps(k, b) + rels)
    ensures SameEffect([Ensure(k)] + SetOps(k, a + [x] + b) + rels, [Ensure(k)] + SetOps(k, a + b) + rels + [SetOp(k, x)])
  {
    var one := SetOps(k, [x]);
    assert one == [SetOp(k, x)];
    SetOpsConcat(k, a + [x], b);
    SetOpsConcat(k, a, [x]);
    SetOpsConcat(k, a, b);
    var front, back := [Ensure(k)] + SetOps(k, a), SetOps(k, b) + rels;
    MoveBack(front, one, back);
    assert front + one + back == [Ensure(k)] + SetOps(k, a + [x] + b) + rels;
    assert front + back + one == [Ensure(k)] + SetOps(k, a + b) + rels + [SetOp(k, x)];
  }

  lemma AddLabelEffect(d: SubjectData, l: string)
    requires l !in d.labels
    ensures SameEffect(SubjectOps(d.(labels := d.labels + [l])), SubjectOps(d) + [AddLabel(d.Key(), l)])
  {
    var k, after := d.Key(), [BlankFlag(d.Key())] + PropertyItems(d.properties) + ArrayItems(d.arrays);
    assert LabelItems(d.labels + [l]) == LabelItems(d.labels) + [SetLabel(l)];
    assert SetItems(d) == LabelItems(d.labels) + after;
    assert SetItems(d.(labels := d.labels + [l])) == LabelItems(d.labels) + [SetLabel(l)] + after;
    SetOneMore(k, LabelItems(d.labels), SetLabel(l), after, RelOps(k, d.relationships));
  }

  lemma AddPropertyEffect(d: SubjectData, name: string, value: string)
    requires d.arrays == [] && !Reserved(name)
    ensures SameEffect(SubjectOps(d.(properties := d.properties + [(name, value)])), SubjectOps(d) + [PutProp(d.Key(), name, Text(value))])
  {
    var k, x := d.Key(), SetProp(name, Text(value));
    assert PropertyItems(d.properties + [(name, value)]) == PropertyItems(d.properties) + [x];
    assert SetItems(d.(properties := d.properties + [(name, value)])) == SetItems(d) + [x] + [];
    assert SetItems(d) + [] == SetItems(d);
    RelOpsTidy(k, k, d.relationships);
    SetOneMore(k, SetItems(d), x, [], RelOps(k, d.relationships));
  }

  lemma AddArrayEffect(d: SubjectData, name: string, values: seq<string>)
    requires !Reserved(name)
    ensures SameEffect(SubjectOps(d.(arrays := d.arrays + [(name, values)])), SubjectOps(d) + [PutProp(d.Key(), name, Array(values))])
  {
    var k, x := d.Key(), SetProp(name, Array(values));
    assert ArrayItems(d.arrays + [(name, values)]) == ArrayItems(d.arrays) + [x];
    assert SetItems(d.(arrays := d.arrays + [(name, values)])) == SetItems(d) + [x] + [];
    assert SetItems(d) + [] == SetItems(d);
    RelOpsTidy(k, k, d.relationships);
    SetOneMore(k, SetItems(d), x, [], RelOps(k, d.relationships));
  }

  function RelationshipOf(t: Triple): Relationship
    requires !t.obj.Lit?
  {
    Relationship(t.pred, LocalName(t.pred), NodeUri(t.obj), t.obj.Blank?)
  }

  lemma OneRelIsEdge(t: Triple)
    requires !t.obj.Lit?
    ensures OneRel(KeyOf(t.subj), RelationshipOf(t)) == ResourceOps(KeyOf(t.obj)) + [Link(EdgeOf(t))]
  {
  }

  lemma AddEdgeEffect(d: SubjectData, rel: Relationship)
    ensures SubjectOps(d.(relationships := d.relationships + [rel])) == SubjectOps(d) + OneRel(d.Key(), rel)
  {
    RelOpsSnoc(d.Key(), d.relationships, rel);
    assert SetItems(d.(relationships := d.relationships + [rel])) == SetItems(d);
    Associate([Ensure(d.Key())] + SetOps(d.Key(), SetItems(d)), RelOps(d.Key(), d.relationships), OneRel(d.Key(), rel));
  }

  /** A label that is there already. */
  lemma KnownLabel(d: SubjectData, l: string)
    requires l in d.labels
    ensures SameEffect(SubjectOps(d), SubjectOps(d) + [AddLabel(d.Key(), l)])
  {
    var k, ops := d.Key(), SubjectOps(d);
    var i :| 0 <= i < |d.labels| && d.labels[i] == l;
    assert SetItems(d)[i] == SetLabel(l);
    assert ops[1 + i] == AddLabel(k, l);
    AbsorbOne(ops, AddLabel(k, l));
  }

  lemma AddItemEffect(d: SubjectData, it: Item)
    requires GoodData(d) && GoodItem(it) && it.Uri() == d.uri && (it.FromTriple? ==> d.arrays == [])
    ensures GoodData(it.AddTo(d)) && it.AddTo(d).uri == d.uri && (it.FromTriple? ==> it.AddTo(d).arrays == [])
    ensures SameEffect(SubjectOps(it.AddTo(d)), SubjectOps(d) + Extra(it))
  {
    if it.FromCollection? {
      AddArrayEffect(d, it.collection.property, it.collection.values);
    } else {
      AddTripleEffect(d, it.triple);
    }
  }

  lemma AddTripleEffect(d: SubjectData, t: Triple)
    requires GoodData(d) && GoodTriple(t) && NodeUri(t.subj) == d.uri && d.arrays == []
    ensures GoodData(AddTriple(d, t)) && AddTriple(d, t).uri == d.uri && AddTriple(d, t).arrays == []
    ensures SameEffect(SubjectOps(AddTriple(d, t)), SubjectOps(d) + Extra(FromTriple(t)))
  {
    PlainSubjectKey(t.subj);
    if t.pred == RDF_TYPE {
      if t.obj.Iri? {
        var l := PropertyName(t.obj.iri);
        if l in d.labels { KnownLabel(d, l); } else { AddLabelEffect(d, l); }
      } else {
        assert SubjectOps(d) + [] == SubjectOps(d);
      }
    } else if t.obj.Lit? {
      AddPropertyEffect(d, PropertyName(t.pred), ValueRepr(t.obj.literal));
    } else {
      AddEdgeEffect(d, RelationshipOf(t));
      OneRelIsEdge(t);
    }
  }

  lemma NewSubjectOps(u: string, blank: bool)
    requires blank == StartsBlank(u) && Stored(u) == u
    ensures GoodData(NewSubject(u, blank)) && SubjectOps(NewSubject(u, blank)) == ResourceOps(UriKey(u))
  {
    var d := NewSubject(u, blank);
    assert SetItems(d) == [BlankFlag(d.Key())];
    assert SetOps(d.Key(), SetItems(d)) == [BlankOp(d.Key())];
  }

  // ----- one subject against its own items

  ghost function Mine(items: seq<Item>, u: string): seq<Item> {
    if items == [] then []
    else if items[|items| - 1].Uri() == u then Mine(items[..|items| - 1], u) + [items[|items| - 1]]
    else Mine(items[..|items| - 1], u)
  }

  ghost function NotMine(items: seq<Item>, u: string): seq<Item> {
    if items == [] then []
    else if items[|items| - 1].Uri() == u then NotMine(items[..|items| - 1], u)
    else NotMine(items[..|items| - 1], u) + [items[|items| - 1]]
  }

  ghost predicate Grouped(d: SubjectData, u: string, mine: seq<Item>) {
    GoodData(d) && d.uri == u && SameEffect(SubjectOps(d), AllItemOps(mine))
  }

  lemma AllItemOpsSnoc(items: seq<Item>, it: Item)
    ensures AllItemOps(items + [it]) == AllItemOps(items) + ItemOps(it)
  {
    assert (items + [it])[..|items|] == items;
  }

  lemma GroupEffects(before: seq<Op>, after: seq<Op>, k: NodeKey, extra: seq<Op>, mine: seq<Op>)
    requires SameEffect(after, before + extra) && SameEffect(before, mine)
    requires TidyAll(k, before) && Ensure(k) in before && BlankOp(k) in before
    ensures SameEffect(after, mine + (ResourceOps(k) + extra))
  {
    AbsorbResource(before, k, extra);
    SameEffectTrans(after, before + extra, before + ResourceOps(k) + extra);
    Associate(before, ResourceOps(k), extra);
    SameEffectThen(before, mine, ResourceOps(k) + extra);
    SameEffectTrans(after, before + (ResourceOps(k) + extra), mine + (ResourceOps(k) + extra));
  }

  lemma GroupStep(d: SubjectData, it: Item, mine: seq<Item>)
    requires Grouped(d, it.Uri(), mine) && GoodItem(it) && (it.FromTriple? ==> d.arrays == [])
    ensures Grouped(it.AddTo(d), it.Uri(), mine + [it])
  {
    AddItemEffect(d, it);
    SubjectOpsTidy(d);
    GroupEffects(SubjectOps(d), SubjectOps(it.AddTo(d)), UriKey(it.Uri()), Extra(it), AllItemOps(mine));
    AllItemOpsSnoc(mine, it);
  }

  lemma GroupStart(it: Item)
    requires GoodItem(it)
    ensures Grouped(it.AddTo(NewSubject(it.Uri(), it.IsBlank())), it.Uri(), [it])
  {
    if it.FromTriple? { PlainSubjectKey(it.triple.subj); }
    NewSubjectOps(it.Uri(), it.IsBlank());
    AddItemEffect(NewSubject(it.Uri(), it.IsBlank()), it);
    AllItemOpsSnoc([], it);
    assert AllItemOps([]) + ItemOps(it) == ItemOps(it);
    assert [] + [it] == [it];
  }

  lemma GoodPrefix(items: seq<Item>)
    requires GoodItems(items) && items != []
    ensures GoodItems(items[..|items| - 1]) && GoodItem(items[|items| - 1])
    ensures items[|items| - 1].FromTriple? ==> OnlyTriples(items[..|items| - 1])
  {
  }

  ghost predicate OnlyTriples(items: seq<Item>) {
    forall i :: 0 <= i < |items| ==> items[i].FromTriple?
  }

  lemma {:induction false} NoArraysYet(items: seq<Item>, u: string)
    requires OnlyTriples(items) && u in Collect(items)
    ensures Collect(items)[u].arrays == []
  {
    var before, it := items[..|items| - 1], items[|items| - 1];
    assert it.FromTriple?;
    if u in Collect(before) {
      NoArraysYet(before, u);
    }
  }

  lemma {:induction false} CollectGroups(items: seq<Item>, u: string)
    requires GoodItems(items)
    ensures u in Collect(items) <==> Mine(items, u) != []
    ensures u in Collect(items) ==> Grouped(Collect(items)[u], u, Mine(items, u))
  {
    if items != [] {
      var before, it := items[..|items| - 1], items[|items| - 1];
      GoodPrefix(items);
      CollectGroups(before, u);
      if it.Uri() == u {
        if u in Collect(before) {
          if it.FromTriple? { NoArraysYet(before, u); }
          GroupStep(Collect(before)[u], it, Mine(before, u));
        } else {
          GroupStart(it);
          assert [] + [it] == [it];
        }
      }
    }
  }

  // ----- all subjects against all items

  lemma {:induction false} MineTidy(items: seq<Item>, u: string)
    requires GoodItems(items)
    ensures TidyAll(UriKey(u), AllItemOps(Mine(items, u)))
  {
    if items != [] {
      var before, it := items[..|items| - 1], items[|items| - 1];
      GoodPrefix(items);
      MineTidy(before, u);
      if it.Uri() == u {
        ItemTidy(it);
        TidyConcat(UriKey(u), AllItemOps(Mine(before, u)), ItemOps(it));
        AllItemOpsSnoc(Mine(before, u), it);
      }
    }
  }

  lemma AppendMine(all: seq<Op>, rest: seq<Op>, mine: seq<Op>, x: seq<Op>)
    requires SameEffect(all, rest + mine)
    ensures SameEffect(all + x, rest + (mine + x))
  {
    SameEffectThen(all, rest + mine, x);
    Associate(rest, mine, x);
  }

  lemma AppendOther(all: seq<Op>, rest: seq<Op>, mine: seq<Op>, x: seq<Op>)
    requires SameEffect(all, rest + mine) && Commuting(mine, x)
    ensures SameEffect(all + x, rest + x + mine)
  {
    SameEffectThen(all, rest + mine, x);
    MoveBack(rest, mine, x);
    SameEffectTrans(all + x, rest + mine + x, rest + x + mine);
  }

  lemma UriKeyInjective(u: string, v: string)
    requires u != v
    ensures UriKey(u) != UriKey(v)
  {
  }

  /** The items of one subject can all be moved behind the others. */
  lemma {:induction false} Partition(items: seq<Item>, u: string)
    requires GoodItems(items)
    ensures SameEffect(AllItemOps(items), AllItemOps(NotMine(items, u)) + AllItemOps(Mine(items, u)))
  {
    if items != [] {
      var before, it := items[..|items| - 1], items[|items| - 1];
      GoodPrefix(items);
      Partition(before, u);
      var rest, mine := AllItemOps(NotMine(before, u)), AllItemOps(Mine(before, u));
      if it.Uri() == u {
        AllItemOpsSnoc(Mine(before, u), it);
        AppendMine(AllItemOps(before), rest, mine, ItemOps(it));
      } else {
        AllItemOpsSnoc(NotMine(before, u), it);
        OthersCommute(before, u, it);
        AppendOther(AllItemOps(before), rest, mine, ItemOps(it));
      }
    }
  }

  lemma OthersCommute(items: seq<Item>, u: string, it: Item)
    requires GoodItems(items) && GoodItem(it) && it.Uri() != u
    ensures Commuting(AllItemOps(Mine(items, u)), ItemOps(it))
  {
    MineTidy(items, u);
    ItemTidy(it);
    UriKeyInjective(u, it.Uri());
    TidyCommute(UriKey(u), AllItemOps(Mine(items, u)), UriKey(it.Uri()), ItemOps(it));
  }

  lemma {:induction false} NotMineMembers(items: seq<Item>, u: string)
    ensures forall it :: it in NotMine(items, u) <==> it in items && it.Uri() != u
  {
    if items != [] {
      NotMineMembers(items[..|items| - 1], u);
      assert items == items[..|items| - 1] + [items[|items| - 1]];
    }
  }

  lemma GoodAppend(items: seq<Item>, it: Item)
    requires GoodItems(items) && GoodItem(it) && (it.FromTriple? ==> OnlyTriples(items))
    ensures GoodItems(items + [it])
  {
  }

  lemma {:induction false} NotMineGood(items: seq<Item>, u: string)
    requires GoodItems(items)
    ensures GoodItems(NotMine(items, u))
  {
    if items != [] {
      var before, it := items[..|items| - 1], items[|items| - 1];
      GoodPrefix(items);
      NotMineGood(before, u);
      if it.Uri() != u {
        NotMineMembers(before, u);
        var rest := NotMine(before, u);
        if it.FromTriple? {
          forall i | 0 <= i < |rest| ensures rest[i].FromTriple? {
            assert rest[i] in rest && rest[i] in before;
          }
        }
        GoodAppend(rest, it);
      }
    }
  }

  lemma {:induction false} MineOfNotMine(items: seq<Item>, u: string, v: string)
    requires u != v
    ensures Mine(NotMine(items, u), v) == Mine(items, v)
  {
    if items != [] {
      var before, it := items[..|items| - 1], items[|items| - 1];
      MineOfNotMine(before, u, v);
      var rest := NotMine(before, u);
      if it.Uri() != u {
        assert (rest + [it])[..|rest|] == rest;
      }
    }
  }

  ghost function GroupedOps(items: seq<Item>, order: seq<string>): seq<Op> {
    if order == [] then []
    else GroupedOps(items, order[..|order| - 1]) + AllItemOps(Mine(items, order[|order| - 1]))
  }

  lemma {:induction false} GroupedOpsOfRest(items: seq<Item>, u: string, order: seq<string>)
    requires u !in order
    ensures GroupedOps(NotMine(items, u), order) == GroupedOps(items, order)
  {
    if order != [] {
      var v := order[|order| - 1];
      assert v in order && forall x :: x in order[..|order| - 1] ==> x in order;
      GroupedOpsOfRest(items, u, order[..|order| - 1]);
      MineOfNotMine(items, u, v);
    }
  }

  lemma RestIsCovered(items: seq<Item>, order: seq<string>)
    requires order != [] && forall it :: it in items ==> it.Uri() in order
    ensures forall it :: it in NotMine(items, order[|order| - 1]) ==> it.Uri() in order[..|order| - 1]
    ensures NoDup(order) ==> order[|order| - 1] !in order[..|order| - 1]
  {
    var before, u := order[..|order| - 1], order[|order| - 1];
    NotMineMembers(items, u);
    assert order == before + [u];
    assert forall i :: 0 <= i < |before| ==> before[i] == order[i];
  }

  lemma NoItems(items: seq<Item>)
    requires forall it :: it !in items
    ensures items == []
  {
    Inhabited(items);
  }

  lemma {:induction false} GroupingIsIrrelevant(items: seq<Item>, order: seq<string>)
    requires GoodItems(items) && NoDup(order) && forall it :: it in items ==> it.Uri() in order
    ensures SameEffect(GroupedOps(items, order), AllItemOps(items))
    decreases |order|
  {
    if order == [] {
      NoItems(items);
    } else {
      var before, u := order[..|order| - 1], order[|order| - 1];
      var rest := NotMine(items, u);
      RestIsCovered(items, order);
      NotMineGood(items, u);
      GroupingIsIrrelevant(rest, before);
      GroupedOpsOfRest(items, u, before);
      LastGroup(items, u, GroupedOps(items, before));
    }
  }

  lemma LastGroup(items: seq<Item>, u: string, others: seq<Op>)
    requires GoodItems(items) && SameEffect(others, AllItemOps(NotMine(items, u)))
    ensures SameEffect(others + AllItemOps(Mine(items, u)), AllItemOps(items))
  {
    var rest, mine := AllItemOps(NotMine(items, u)), AllItemOps(Mine(items, u));
    SameEffectThen(others, rest, mine);
    Partition(items, u);
    SameEffectTrans(others + mine, rest + mine, AllItemOps(items));
  }

  // ----- executing a batch

  ghost function BatchOps(m: map<string, SubjectData>, order: seq<string>): seq<Op>
    requires forall u :: u in order ==> u in m
  {
    if order == [] then []
    else
      assert order[|order| - 1] in order;
      BatchOps(m, order[..|order| - 1]) + SubjectOps(m[order[|order| - 1]])
  }

  lemma {:induction false} ExecuteIsBatchOps(g: Graph, m: map<string, SubjectData>, order: seq<string>)
    requires forall u :: u in order ==> u in m
    ensures ExecuteAll(g, StatementsFor(m, order)) == ApplyAll(g, BatchOps(m, order))
  {
    if order != [] {
      var before, u := order[..|order| - 1], order[|order| - 1];
      assert u in order && forall v :: v in before ==> v in order;
      ExecuteIsBatchOps(g, m, before);
      var s := SubjectStatement(m[u]);
      ExecuteAllConcat(g, StatementsFor(m, before), [s]);
      assert [s][1..] == [];
      SubjectOpsAre(m[u]);
      ApplyAllConcat(g, BatchOps(m, before), SubjectOps(m[u]));
    }
  }

  lemma {:induction false} BatchIsGrouped(items: seq<Item>, order: seq<string>)
    requires GoodItems(items) && forall u :: u in order ==> u in Collect(items)
    ensures SameEffect(BatchOps(Collect(items), order), GroupedOps(items, order))
  {
    if order != [] {
      var before, u := order[..|order| - 1], order[|order| - 1];
      assert u in order && forall v :: v in before ==> v in order;
      BatchIsGrouped(items, before);
      CollectGroups(items, u);
      SameEffectConcat(BatchOps(Collect(items), before), GroupedOps(items, before),
                       SubjectOps(Collect(items)[u]), AllItemOps(Mine(items, u)));
    }
  }

  lemma {:induction false} ItemsAreCollected(items: seq<Item>)
    ensures forall it :: it in items ==> it.Uri() in Collect(items)
  {
    if items != [] {
      ItemsAreCollected(items[..|items| - 1]);
      assert items == items[..|items| - 1] + [items[|items| - 1]];
    }
  }

  /** Any subject order: the batch acts like its items, one at a time in their own order. */
  lemma BatchIsItems(g: Graph, stmts: seq<Statement>, remaining: seq<Triple>, collections: seq<Collection>)
    requires Generated(stmts, remaining, collections) && GoodItems(Items(remaining, collections))
    ensures ExecuteAll(g, stmts) == ApplyAll(g, AllItemOps(Items(remaining, collections)))
  {
    var items := Items(remaining, collections);
    var order :| Enumerates(order, Collect(items)) && stmts == StatementsFor(Collect(items), order);
    ExecuteIsBatchOps(g, Collect(items), order);
    BatchIsGrouped(items, order);
    ItemsAreCollected(items);
    GroupingIsIrrelevant(items, order);
    SameEffectTrans(BatchOps(Collect(items), order), GroupedOps(items, order), AllItemOps(items));
    SameEffectSameGraph(g, BatchOps(Collect(items), order), AllItemOps(items));
  }
}
