/** One statement per subject (generate_batch and generate_subject_query in
    mapper/src/graph/cypher.rs). */
module BatchInsert {
  import opened Common
  import opened Rdf
  import opened Schema
  import opened PropertyGraph
  import opened CypherGenerator
  import opened RdfLists

  datatype Relationship = Relationship(pred: string, localName: string, targetUri: string, targetIsBlank: bool) {
    function Target(): NodeKey {
      NodeKey(targetIsBlank, Stored(targetUri))
    }
  }

  datatype SubjectData = SubjectData(uri: string, isBlank: bool, labels: seq<string>,
                                     properties: seq<(string, string)>, arrays: seq<(string, seq<string>)>,
                                     relationships: seq<Relationship>) {
    function Key(): NodeKey {
      NodeKey(isBlank, Stored(uri))
    }
  }

  function NewSubject(uri: string, isBlank: bool): SubjectData {
    SubjectData(uri, isBlank, [], [], [], [])
  }

  // ----- grouping

  function AddTriple(d: SubjectData, t: Triple): SubjectData {
    if t.pred == RDF_TYPE then
      if t.obj.Iri? && PropertyName(t.obj.iri) !in d.labels
      then d.(labels := d.labels + [PropertyName(t.obj.iri)])
      else d
    else if t.obj.Lit? then
      d.(properties := d.properties + [(PropertyName(t.pred), ValueRepr(t.obj.literal))])
    else
      d.(relationships := d.relationships + [Relationship(t.pred, LocalName(t.pred), NodeUri(t.obj), t.obj.Blank?)])
  }

  function AddCollection(d: SubjectData, c: Collection): SubjectData {
    d.(arrays := d.arrays + [(c.property, c.values)])
  }

  /** What generate_batch groups: the triples left over, then the arrays. */
  datatype Item = FromTriple(triple: Triple) | FromCollection(collection: Collection) {
    function Uri(): string {
      if FromTriple? then NodeUri(triple.subj) else collection.subject
    }

    function IsBlank(): bool {
      if FromTriple? then triple.subj.Blank? else StartsBlank(collection.subject)
    }

    function AddTo(d: SubjectData): SubjectData {
      if FromTriple? then AddTriple(d, triple) else AddCollection(d, collection)
    }
  }

  function Entry(m: map<string, SubjectData>, it: Item): SubjectData {
    if it.Uri() in m then m[it.Uri()] else NewSubject(it.Uri(), it.IsBlank())
  }

  function Collect(items: seq<Item>): map<string, SubjectData> {
    if items == [] then map[]
    else
      var m, it := Collect(items[..|items| - 1]), items[|items| - 1];
      m[it.Uri() := it.AddTo(Entry(m, it))]
  }

  function Items(ts: seq<Triple>, collections: seq<Collection>): seq<Item> {
    seq(|ts|, i requires 0 <= i < |ts| => FromTriple(ts[i]))
    + seq(|collections|, i requires 0 <= i < |collections| => FromCollection(collections[i]))
  }

  // ----- the statement of one subject

  function LabelItems(labels: seq<string>): seq<SetItem> {
    seq(|labels|, i requires 0 <= i < |labels| => SetLabel(labels[i]))
  }

  function PropertyItems(ps: seq<(string, string)>): seq<SetItem> {
    seq(|ps|, i requires 0 <= i < |ps| => SetProp(ps[i].0, Text(ps[i].1)))
  }

  function ArrayItems(ps: seq<(string, seq<string>)>): seq<SetItem> {
    seq(|ps|, i requires 0 <= i < |ps| => SetProp(ps[i].0, Array(ps[i].1)))
  }

  /** Labels are a set, so the order in which they are printed does not matter here. */
  function SetItems(d: SubjectData): seq<SetItem> {
    LabelItems(d.labels) + [BlankFlag(d.Key())] + PropertyItems(d.properties) + ArrayItems(d.arrays)
  }

  function TargetVar(i: nat): string {
    "o" + Decimal(i)
  }

  function TwoClauses(rel: Relationship, i: nat): Statement {
    [MergeResource(TargetVar(i), rel.Target()),
     MergeEdge("s", SanitizeIdentifier(rel.localName), Stored(rel.pred), TargetVar(i))]
  }

  function RelationshipClauses(rels: seq<Relationship>, i: nat): Statement
    decreases |rels|
  {
    if rels == [] then []
    else TwoClauses(rels[0], i) + RelationshipClauses(rels[1..], i + 1)
  }

  function SubjectStatement(d: SubjectData): Statement {
    [MergeNode("s", d.Key(), SetItems(d))] + RelationshipClauses(d.relationships, 0)
  }

  function StatementsFor(m: map<string, SubjectData>, order: seq<string>): seq<Statement>
    requires forall u :: u in order ==> u in m
  {
    if order == [] then []
    else
      assert order[|order| - 1] in order;
      StatementsFor(m, order[..|order| - 1]) + [SubjectStatement(m[order[|order| - 1]])]
  }

  /** order lists the keys of m, each once: one way a hash map can be walked. */
  ghost predicate Enumerates(order: seq<string>, m: map<string, SubjectData>) {
    NoDup(order) && forall u :: u in order <==> u in m
  }

  // ----- the methods

  method GenerateSubjectQuery(d: SubjectData) returns (statement: Statement)
    ensures statement == SubjectStatement(d)
  {
    var sets := [];
    for i := 0 to |d.labels|
      invariant sets == LabelItems(d.labels[..i])
    {
      sets := sets + [SetLabel(d.labels[i])];
    }
    assert d.labels[..|d.labels|] == d.labels;
    sets := sets + [BlankFlag(d.Key())];
    ghost var head := sets;
    for i := 0 to |d.properties|
      invariant sets == head + PropertyItems(d.properties[..i])
    {
      sets := sets + [SetProp(d.properties[i].0, Text(d.properties[i].1))];
    }
    assert d.properties[..|d.properties|] == d.properties;
    head := sets;
    for i := 0 to |d.arrays|
      invariant sets == head + ArrayItems(d.arrays[..i])
    {
      sets := sets + [SetProp(d.arrays[i].0, Array(d.arrays[i].1))];
    }
    assert d.arrays[..|d.arrays|] == d.arrays;
    assert sets == SetItems(d);
    var rels := GenerateRelationships(d.relationships);
    statement := [MergeNode("s", d.Key(), sets)] + rels;
  }

  lemma RelationshipStep(parts: Statement, rels: seq<Relationship>, i: nat)
    requires i < |rels|
    ensures parts + RelationshipClauses(rels[i..], i)
         == parts + TwoClauses(rels[i], i) + RelationshipClauses(rels[i + 1..], i + 1)
  {
    assert rels[i..][0] == rels[i] && rels[i..][1..] == rels[i + 1..];
  }

  method GenerateRelationships(rels: seq<Relationship>) returns (parts: Statement)
    ensures parts == RelationshipClauses(rels, 0)
  {
    parts := [];
    assert rels[0..] == rels;
    for i := 0 to |rels|
      invariant parts + RelationshipClauses(rels[i..], i) == RelationshipClauses(rels, 0)
    {
      RelationshipStep(parts, rels, i);
      parts := parts + TwoClauses(rels[i], i);
    }
  }

  method CollectSubjects(items: seq<Item>) returns (subjects: map<string, SubjectData>)
    ensures subjects == Collect(items)
  {
    subjects := map[];
    for i := 0 to |items|
      invariant subjects == Collect(items[..i])
    {
      assert items[..i + 1][..i] == items[..i];
      var it := items[i];
      subjects := subjects[it.Uri() := it.AddTo(Entry(subjects, it))];
    }
    assert items[..|items|] == items;
  }

  /** stmts is a possible output for the triples that remain and the arrays found. */
  ghost predicate Generated(stmts: seq<Statement>, remaining: seq<Triple>, collections: seq<Collection>) {
    exists order :: Enumerates(order, Collect(Items(remaining, collections)))
      && stmts == StatementsFor(Collect(Items(remaining, collections)), order)
  }

  /** stmts is a possible output for ts: its lists are extracted in some order, and the rest grouped. */
  ghost predicate Output(stmts: seq<Statement>, ts: seq<Triple>) {
    exists heads :: ListsHeads(LinksOf(ts), heads)
      && Generated(stmts, Remaining(LinksOf(ts), UsedNodes(LinksOf(ts)), ts), CollectionsOf(LinksOf(ts), heads))
  }

  method GenerateBatch(ts: seq<Triple>) returns (statements: seq<Statement>)
    requires WalksEnd(LinksOf(ts))
    ensures Output(statements, ts)
  {
    var arrays, rest;
    ghost var heads;
    arrays, rest, heads := DetectAndExtract(ts);
    var subjects := CollectSubjects(Items(rest, arrays));
    statements := [];
    ghost var order: seq<string> := [];
    var pending := subjects.Keys;
    while pending != {}
      invariant pending <= subjects.Keys && NoDup(order)
      invariant forall u :: u in order <==> u in subjects && u !in pending
      invariant statements == StatementsFor(subjects, order)
    {
      var u :| u in pending;
      pending := pending - {u};
      var query := GenerateSubjectQuery(subjects[u]);
      statements := statements + [query];
      NoDupConcat(order, [u]);
      assert (order + [u])[..|order|] == order;
      order := order + [u];
    }
    assert Enumerates(order, subjects);
    assert Generated(statements, rest, arrays);
  }
}
