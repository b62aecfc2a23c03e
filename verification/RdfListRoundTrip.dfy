/** Lists written as first/rest chains come back as arrays, and nothing else is taken. */
module RdfListRoundTrip {
  import opened Common
  import opened Rdf
  import opened CypherGenerator
  import opened RdfLists

  /** A list hanging from subj by pred, after section 5.2 of RDF Schema 1.1. */
  datatype ListText = ListText(subj: Subject, pred: string, nodes: seq<string>, items: seq<Term>) {
    ghost predicate Valid() {
      && |nodes| == |items| > 0 && NoDup(nodes)
      && pred != RDF_FIRST && pred != RDF_REST
      && forall i :: 0 <= i < |items| ==> !items[i].Blank?
    }

    function HeadTriple(): Triple
      requires nodes != []
    {
      Triple(subj, pred, Blank(nodes[0]))
    }

    function FirstTriple(i: nat): Triple
      requires i < |nodes| == |items|
    {
      Triple(Blank(nodes[i]), RDF_FIRST, items[i])
    }

    function RestTriple(i: nat): Triple
      requires i < |nodes|
    {
      Triple(Blank(nodes[i]), RDF_REST, if i + 1 < |nodes| then Blank(nodes[i + 1]) else Iri(RDF_NIL))
    }

    /** t is one of the triples that write this list. */
    ghost predicate Writes(t: Triple)
      requires Valid()
    {
      t == HeadTriple() || exists i :: 0 <= i < |nodes| && (t == FirstTriple(i) || t == RestTriple(i))
    }

    ghost function Result(): Collection
      requires Valid()
    {
      Collection(NodeUri(subj), PropertyName(pred), Reprs(items))
    }
  }

  type RdfList = l: ListText | l.Valid() witness ListText(Iri(""), "", ["b"], [Iri("")])

  function Reprs(items: seq<Term>): seq<string>
    requires forall i :: 0 <= i < |items| ==> !items[i].Blank?
  {
    if items == [] then [] else Reprs(items[..|items| - 1]) + [ItemRepr(items[|items| - 1])]
  }

  ghost predicate InLists(ls: seq<RdfList>, b: string) {
    exists j :: 0 <= j < |ls| && b in ls[j].nodes
  }

  ghost predicate Written(ls: seq<RdfList>, t: Triple)
  {
    exists j :: 0 <= j < |ls| && ls[j].Writes(t)
  }

  /** A triple that has nothing to do with the list nodes and starts no list of its own. */
  ghost predicate Foreign(ls: seq<RdfList>, t: Triple) {
    && (t.subj.Blank? ==> !InLists(ls, t.subj.id) && t.pred != RDF_FIRST)
    && (t.obj.Blank? ==> !InLists(ls, t.obj.id))
  }

  /** A reference to the head of one of the lists, from a node that is in none. */
  ghost predicate Refers(ls: seq<RdfList>, t: Triple) {
    && IsHeadTriple(t) && (t.subj.Blank? ==> !InLists(ls, t.subj.id))
    && exists j :: 0 <= j < |ls| && t.obj == Blank(ls[j].nodes[0])
  }

  /** ts holds the triples of the lists ls, in any order, mixed with foreign ones and with further
      references to the lists. */
  ghost predicate Listed(ts: seq<Triple>, ls: seq<RdfList>) {
    && (forall j :: 0 <= j < |ls| && ls[j].subj.Blank? ==> !InLists(ls, ls[j].subj.id))
    && (forall i, j :: 0 <= i < |ls| && 0 <= j < |ls| && i != j ==> forall b :: b in ls[i].nodes ==> b !in ls[j].nodes)
    && (forall t :: Written(ls, t) ==> t in ts)
    && (forall t :: t in ts ==> Written(ls, t) || Foreign(ls, t) || Refers(ls, t))
  }

  /** The same with one reference to each list. */
  ghost predicate Encodes(ts: seq<Triple>, ls: seq<RdfList>) {
    Listed(ts, ls) && forall t :: t in ts ==> Written(ls, t) || Foreign(ls, t)
  }

  // ----- what the first pass finds

  lemma PredicatesDiffer()
    ensures RDF_FIRST != RDF_REST
  {
    assert |RDF_FIRST| != |RDF_REST|;
  }

  lemma {:induction false} ObjectsOfMember(ts: seq<Triple>, pred: string)
    ensures forall b :: b in ObjectsOf(ts, pred) ==> Triple(Blank(b), pred, ObjectsOf(ts, pred)[b]) in ts
    ensures forall t :: t in ts && t.pred == pred && t.subj.Blank? ==> t.subj.id in ObjectsOf(ts, pred)
  {
    if ts != [] {
      ObjectsOfMember(ts[..|ts| - 1], pred);
      assert ts == ts[..|ts| - 1] + [ts[|ts| - 1]];
    }
  }

  lemma {:induction false} HeadsOfMember(ts: seq<Triple>)
    ensures forall b :: b in HeadsOf(ts) ==> exists t :: t in ts && IsHeadTriple(t) && t.obj == Blank(b) && HeadOf(t) == HeadsOf(ts)[b]
    ensures forall t :: t in ts && IsHeadTriple(t) ==> t.obj.id in HeadsOf(ts)
  {
    if ts != [] {
      var before, last := ts[..|ts| - 1], ts[|ts| - 1];
      HeadsOfMember(before);
      assert ts == before + [last];
      forall b | b in HeadsOf(ts)
        ensures exists t :: t in ts && IsHeadTriple(t) && t.obj == Blank(b) && HeadOf(t) == HeadsOf(ts)[b]
      {
        if IsHeadTriple(last) && last.obj.id == b {
          assert last in ts && HeadOf(last) == HeadsOf(ts)[b];
        } else {
          var t :| t in before && IsHeadTriple(t) && t.obj == Blank(b) && HeadOf(t) == HeadsOf(before)[b];
          assert t in ts;
        }
      }
    }
  }

  /** A list node is the subject of its own two triples and of no other. */
  lemma SubjectOfNode(ts: seq<Triple>, ls: seq<RdfList>, j: nat, i: nat, t: Triple)
    requires Listed(ts, ls) && j < |ls| && i < |ls[j].nodes|
    requires t in ts && t.subj == Blank(ls[j].nodes[i])
    ensures t == ls[j].FirstTriple(i) || t == ls[j].RestTriple(i)
  {
    assert ls[j].nodes[i] in ls[j].nodes && InLists(ls, t.subj.id);
    var j' :| 0 <= j' < |ls| && ls[j'].Writes(t);
    if t == ls[j'].HeadTriple() {
      assert false;
    } else {
      var i' :| 0 <= i' < |ls[j'].nodes| && (t == ls[j'].FirstTriple(i') || t == ls[j'].RestTriple(i'));
      assert ls[j'].nodes[i'] in ls[j'].nodes;
      assert j' == j && i' == i;
    }
  }

  lemma NodeLinks(ts: seq<Triple>, ls: seq<RdfList>, j: nat, i: nat)
    requires Listed(ts, ls) && j < |ls| && i < |ls[j].nodes|
    ensures var k, b := LinksOf(ts), ls[j].nodes[i];
      && b in k.first && k.first[b] == ls[j].items[i]
      && b in k.rest && k.rest[b] == ls[j].RestTriple(i).obj
  {
    var b, first, rest := ls[j].nodes[i], ls[j].FirstTriple(i), ls[j].RestTriple(i);
    PredicatesDiffer();
    ObjectsOfMember(ts, RDF_FIRST);
    ObjectsOfMember(ts, RDF_REST);
    assert ls[j].Writes(first) && ls[j].Writes(rest);
    assert Written(ls, first) && Written(ls, rest);
    SubjectOfNode(ts, ls, j, i, Triple(Blank(b), RDF_FIRST, ObjectsOf(ts, RDF_FIRST)[b]));
    SubjectOfNode(ts, ls, j, i, Triple(Blank(b), RDF_REST, ObjectsOf(ts, RDF_REST)[b]));
  }

  lemma NodesAreChain(ts: seq<Triple>, ls: seq<RdfList>, j: nat)
    requires Listed(ts, ls) && j < |ls|
    ensures IsChain(LinksOf(ts), ls[j].nodes)
  {
    var k, p := LinksOf(ts), ls[j].nodes;
    forall i | 0 <= i < |p| - 1 ensures Steps(k, p[i], p[i + 1]) {
      NodeLinks(ts, ls, j, i);
    }
    NodeLinks(ts, ls, j, |p| - 1);
  }

  /** A head triple points at a list node only if that is the head of the list. */
  lemma PointsToHead(ts: seq<Triple>, ls: seq<RdfList>, t: Triple) returns (j: nat)
    requires Listed(ts, ls) && t in ts && IsHeadTriple(t) && InLists(ls, t.obj.id)
    ensures j < |ls| && t.obj == Blank(ls[j].nodes[0])
  {
    assert Refers(ls, t);
    j :| 0 <= j < |ls| && t.obj == Blank(ls[j].nodes[0]);
  }

  /** The head of a list is recorded for one of its references. */
  lemma HeadIsReferred(ts: seq<Triple>, ls: seq<RdfList>, j: nat)
    requires Listed(ts, ls) && j < |ls|
    ensures var k, h := LinksOf(ts), ls[j].nodes[0];
      h in k.heads && exists t :: t in ts && IsHeadTriple(t) && t.obj == Blank(h) && HeadOf(t) == k.heads[h]
  {
    HeadsOfMember(ts);
    assert ls[j].Writes(ls[j].HeadTriple()) && Written(ls, ls[j].HeadTriple());
  }

  /** In an encoding the head triple is the only reference. */
  lemma OnlyReference(ts: seq<Triple>, ls: seq<RdfList>, j: nat, t: Triple)
    requires Encodes(ts, ls) && j < |ls| && t in ts && IsHeadTriple(t) && t.obj == Blank(ls[j].nodes[0])
    ensures t == ls[j].HeadTriple()
  {
    assert ls[j].nodes[0] in ls[j].nodes && InLists(ls, t.obj.id);
    assert Written(ls, t);
    var j' :| 0 <= j' < |ls| && ls[j'].Writes(t);
    assert t == ls[j'].HeadTriple() && t.obj.id in ls[j'].nodes;
  }

  lemma HeadLink(ts: seq<Triple>, ls: seq<RdfList>, j: nat)
    requires Encodes(ts, ls) && j < |ls|
    ensures var k, h := LinksOf(ts), ls[j].nodes[0];
      h in k.heads && k.heads[h] == HeadOf(ls[j].HeadTriple())
  {
    var h := ls[j].nodes[0];
    HeadIsReferred(ts, ls, j);
    var t :| t in ts && IsHeadTriple(t) && t.obj == Blank(h) && HeadOf(t) == LinksOf(ts).heads[h];
    OnlyReference(ts, ls, j, t);
  }

  /** A referenced node with an rdf:first is the head of one of the lists. */
  lemma HeadsAreListHeads(ts: seq<Triple>, ls: seq<RdfList>, h: string) returns (j: nat)
    requires Listed(ts, ls)
    requires var k := LinksOf(ts); h in k.heads && h in k.first
    ensures j < |ls| && h == ls[j].nodes[0]
  {
    ObjectsOfMember(ts, RDF_FIRST);
    HeadsOfMember(ts);
    var t0 := Triple(Blank(h), RDF_FIRST, LinksOf(ts).first[h]);
    assert !Foreign(ls, t0) && Written(ls, t0);
    var j0 :| 0 <= j0 < |ls| && ls[j0].Writes(t0);
    NodeOfWritten(ls[j0], t0);
    assert InLists(ls, h);
    var t :| t in ts && IsHeadTriple(t) && t.obj == Blank(h) && HeadOf(t) == HeadsOf(ts)[h];
    j := PointsToHead(ts, ls, t);
  }

  lemma NodeOfWritten(l: RdfList, t: Triple)
    requires l.Writes(t) && t != l.HeadTriple()
    ensures t.subj.Blank? && t.subj.id in l.nodes
  {
    var i :| 0 <= i < |l.nodes| && (t == l.FirstTriple(i) || t == l.RestTriple(i));
    assert l.nodes[i] in l.nodes;
  }

  /** Extraction stops on every encoding, whatever the foreign rdf:rest links do. */
  lemma EncodingEnds(ts: seq<Triple>, ls: seq<RdfList>)
    requires Listed(ts, ls)
    ensures WalksEnd(LinksOf(ts))
  {
    var k := LinksOf(ts);
    forall h, p | h in k.heads && h in k.first && IsWalk(k, p) && p[0] == h ensures NoDup(p) {
      var j := HeadsAreListHeads(ts, ls, h);
      NodesAreChain(ts, ls, j);
      WalkFollowsChain(k, p, ls[j].nodes);
    }
  }

  lemma ListHeadsAre(ts: seq<Triple>, ls: seq<RdfList>, h: string)
    requires Listed(ts, ls)
    ensures IsListHead(LinksOf(ts), h) <==> exists j :: 0 <= j < |ls| && h == ls[j].nodes[0]
  {
    var k := LinksOf(ts);
    if IsListHead(k, h) {
      NoChainWithoutFirst(k, h);
      var j := HeadsAreListHeads(ts, ls, h);
      assert 0 <= j < |ls| && h == ls[j].nodes[0];
    }
    if j :| 0 <= j < |ls| && h == ls[j].nodes[0] {
      HeadIsReferred(ts, ls, j);
      NodesAreChain(ts, ls, j);
    }
  }

  lemma {:induction false} ValuesAreReprs(k: Links, p: seq<string>, items: seq<Term>)
    requires |p| == |items|
    requires forall i :: 0 <= i < |p| ==> Simple(k, p[i]) && k.first[p[i]] == items[i]
    ensures Values(k, p) == Reprs(items)
  {
    if p != [] {
      ValuesAreReprs(k, p[..|p| - 1], items[..|items| - 1]);
    }
  }

  /** A list comes out whole, for the head that was recorded. */
  lemma CollectionOfList(ts: seq<Triple>, ls: seq<RdfList>, j: nat)
    requires Listed(ts, ls) && j < |ls|
    ensures var k, h := LinksOf(ts), ls[j].nodes[0];
      IsListHead(k, h) && ChainOf(k, h) == ls[j].nodes
      && CollectionOf(k, h) == Collection(k.heads[h].subject, k.heads[h].property, Reprs(ls[j].items))
  {
    var k, h := LinksOf(ts), ls[j].nodes[0];
    HeadIsReferred(ts, ls, j);
    NodesAreChain(ts, ls, j);
    ChainUnique(k, ChainOf(k, h), ls[j].nodes);
    forall i | 0 <= i < |ls[j].nodes| ensures Simple(k, ls[j].nodes[i]) && k.first[ls[j].nodes[i]] == ls[j].items[i] {
      NodeLinks(ts, ls, j, i);
    }
    ValuesAreReprs(k, ls[j].nodes, ls[j].items);
  }

  lemma CollectionIsResult(ts: seq<Triple>, ls: seq<RdfList>, j: nat)
    requires Encodes(ts, ls) && j < |ls|
    ensures var h := ls[j].nodes[0];
      IsListHead(LinksOf(ts), h) && CollectionOf(LinksOf(ts), h) == ls[j].Result()
  {
    CollectionOfList(ts, ls, j);
    HeadLink(ts, ls, j);
  }

  lemma UsedAreListNodes(ts: seq<Triple>, ls: seq<RdfList>, b: string)
    requires Listed(ts, ls)
    ensures b in UsedNodes(LinksOf(ts)) <==> InLists(ls, b)
  {
    var k := LinksOf(ts);
    if b in UsedNodes(k) {
      var h :| h in k.heads && IsListHead(k, h) && b in ChainOf(k, h);
      ListHeadsAre(ts, ls, h);
      var j :| 0 <= j < |ls| && h == ls[j].nodes[0];
      CollectionOfList(ts, ls, j);
    }
    if InLists(ls, b) {
      var j :| 0 <= j < |ls| && b in ls[j].nodes;
      CollectionOfList(ts, ls, j);
      HeadIsReferred(ts, ls, j);
    }
  }

  /** Exactly the triples that write the lists are taken out. */
  lemma KeptAreForeign(ts: seq<Triple>, ls: seq<RdfList>, t: Triple)
    requires Encodes(ts, ls) && t in ts
    ensures Kept(LinksOf(ts), UsedNodes(LinksOf(ts)), t) <==> !Written(ls, t)
  {
    var k := LinksOf(ts);
    var used := UsedNodes(k);
    if t.subj.Blank? { UsedAreListNodes(ts, ls, t.subj.id); }
    if t.obj.Blank? { UsedAreListNodes(ts, ls, t.obj.id); }
    if Written(ls, t) {
      var j :| 0 <= j < |ls| && ls[j].Writes(t);
      if t == ls[j].HeadTriple() {
        HeadLink(ts, ls, j);
        assert ls[j].nodes[0] in ls[j].nodes && InLists(ls, t.obj.id);
      } else {
        NodeOfWritten(ls[j], t);
        assert InLists(ls, t.subj.id);
      }
    }
  }

  // ----- the round trip

  ghost function Others(ts: seq<Triple>, ls: seq<RdfList>): seq<Triple>
  {
    if ts == [] then [] else
      Others(ts[..|ts| - 1], ls) + if Written(ls, ts[|ts| - 1]) then [] else [ts[|ts| - 1]]
  }

  lemma {:induction false} RemainingAreOthers(all: seq<Triple>, ls: seq<RdfList>, ts: seq<Triple>)
    requires Encodes(all, ls) && forall t :: t in ts ==> t in all
    ensures Remaining(LinksOf(all), UsedNodes(LinksOf(all)), ts) == Others(ts, ls)
  {
    if ts != [] {
      RemainingAreOthers(all, ls, ts[..|ts| - 1]);
      KeptAreForeign(all, ls, ts[|ts| - 1]);
    }
  }

  ghost function Results(ls: seq<RdfList>): seq<Collection>
  {
    if ls == [] then [] else [ls[0].Result()] + Results(ls[1..])
  }

  ghost function HeadNodes(ls: seq<RdfList>): (r: seq<string>)
    ensures |r| == |ls| && forall j :: 0 <= j < |ls| ==> r[j] == ls[j].nodes[0]
  {
    if ls == [] then [] else [ls[0].nodes[0]] + HeadNodes(ls[1..])
  }

  ghost function OneCollection(k: Links, h: string): seq<Collection> {
    if IsListHead(k, h) then [CollectionOf(k, h)] else []
  }

  lemma {:induction false} CollectionsAreFlatMap(k: Links, order: seq<string>)
    requires forall h :: h in order ==> IsListHead(k, h)
    ensures CollectionsOf(k, order) == FlatMap(h => OneCollection(k, h), order)
  {
    if order != [] {
      var n := |order| - 1;
      CollectionsAreFlatMap(k, order[..n]);
      FlatMapConcat(h => OneCollection(k, h), order[..n], [order[n]]);
      assert order == order[..n] + [order[n]];
      assert order[n] in order && [order[n]][1..] == [];
    }
  }

  lemma {:induction false} ResultsAreFlatMap(k: Links, ls: seq<RdfList>)
    requires forall l :: l in ls ==> OneCollection(k, l.nodes[0]) == [l.Result()]
    ensures FlatMap(h => OneCollection(k, h), HeadNodes(ls)) == Results(ls)
  {
    if ls != [] {
      assert HeadNodes(ls)[1..] == HeadNodes(ls[1..]);
      assert ls[0] in ls;
      ResultsAreFlatMap(k, ls[1..]);
    }
  }

  lemma CollectionsAreResults(ts: seq<Triple>, ls: seq<RdfList>)
    requires Encodes(ts, ls)
    ensures FlatMap(h => OneCollection(LinksOf(ts), h), HeadNodes(ls)) == Results(ls)
  {
    forall l | l in ls ensures OneCollection(LinksOf(ts), l.nodes[0]) == [l.Result()] {
      var j :| 0 <= j < |ls| && ls[j] == l;
      CollectionIsResult(ts, ls, j);
    }
    ResultsAreFlatMap(LinksOf(ts), ls);
  }

  lemma HeadNodesAreOrder(ts: seq<Triple>, ls: seq<RdfList>, order: seq<string>)
    requires Listed(ts, ls) && ListsHeads(LinksOf(ts), order)
    ensures multiset(order) == multiset(HeadNodes(ls))
  {
    var heads := HeadNodes(ls);
    forall h ensures h in order <==> h in heads {
      ListHeadsAre(ts, ls, h);
      if j :| 0 <= j < |ls| && h == ls[j].nodes[0] {
        assert heads[j] == h;
      }
    }
    forall i, j | 0 <= i < j < |heads| ensures heads[i] != heads[j] {
      assert heads[i] in ls[i].nodes && heads[j] in ls[j].nodes;
    }
    NoDupSameElements(order, heads);
  }

  /** Extraction gives back exactly the lists, and leaves exactly the other triples in order. */
  lemma ListRoundTrip(ts: seq<Triple>, ls: seq<RdfList>, order: seq<string>)
    requires Encodes(ts, ls) && ListsHeads(LinksOf(ts), order)
    ensures multiset(CollectionsOf(LinksOf(ts), order)) == multiset(Results(ls))
    ensures Remaining(LinksOf(ts), UsedNodes(LinksOf(ts)), ts) == Others(ts, ls)
  {
    HeadNodesAreOrder(ts, ls, order);
    CollectionsAreFlatMap(LinksOf(ts), order);
    CollectionsAreResults(ts, ls);
    FlatMapPermutation(h => OneCollection(LinksOf(ts), h), order, HeadNodes(ls));
    RemainingAreOthers(ts, ls, ts);
  }

  /** Extract and compare in one step. */
  method ExtractLists(ts: seq<Triple>, ghost ls: seq<RdfList>)
    returns (collections: seq<Collection>, remaining: seq<Triple>)
    requires Encodes(ts, ls)
    ensures multiset(collections) == multiset(Results(ls)) && remaining == Others(ts, ls)
  {
    EncodingEnds(ts, ls);
    ghost var order;
    collections, remaining, order := DetectAndExtract(ts);
    ListRoundTrip(ts, ls, order);
  }
}
