/** Lists that are referred to more than once. The first pass records one reference to each head, the
    last; here is what becomes of every reference, and when nothing is lost. */
module RdfListReferences {
  import opened Common
  import opened Rdf
  import opened CypherGenerator
  import opened RdfLists
  import opened RdfListRoundTrip

  /** t refers to the list l. */
  predicate RefersTo(t: Triple, l: RdfList) {
    IsHeadTriple(t) && t.obj == Blank(l.nodes[0])
  }

  /** The array that t asks for. */
  function ArrayFor(h: Head, l: RdfList): Collection {
    Collection(h.subject, h.property, Reprs(l.items))
  }

  lemma {:induction false} RemainingMember(k: Links, used: set<string>, ts: seq<Triple>, t: Triple)
    ensures t in Remaining(k, used, ts) <==> t in ts && Kept(k, used, t)
  {
    if ts != [] {
      RemainingMember(k, used, ts[..|ts| - 1], t);
      SplitLast(ts);
    }
  }

  /** The recorded head is that of the last reference. */
  lemma {:induction false} LastReferenceCounts(ts: seq<Triple>, i: nat)
    requires i < |ts| && IsHeadTriple(ts[i])
    requires forall j :: i < j < |ts| ==> !(IsHeadTriple(ts[j]) && ts[j].obj == ts[i].obj)
    ensures ts[i].obj.id in HeadsOf(ts) && HeadsOf(ts)[ts[i].obj.id] == HeadOf(ts[i])
  {
    if i < |ts| - 1 { LastReferenceCounts(ts[..|ts| - 1], i); }
  }

  /** What becomes of a reference: it becomes the array if its head was recorded; it is dropped without
      one if another property of the same subject was; and if another subject's was, it stays, and
      nothing is left of the list it points to. */
  lemma ReferenceFates(ts: seq<Triple>, ls: seq<RdfList>, j: nat, t: Triple)
    requires Listed(ts, ls) && j < |ls| && t in ts && RefersTo(t, ls[j])
    ensures var k, b := LinksOf(ts), ls[j].nodes[0];
      var left := Remaining(k, UsedNodes(k), ts);
      && IsListHead(k, b)
      && (CollectionOf(k, b) == ArrayFor(HeadOf(t), ls[j]) <==> k.heads[b] == HeadOf(t))
      && (k.heads[b] == HeadOf(t) ==> t !in left)
      && (CollectionOf(k, b) != ArrayFor(HeadOf(t), ls[j]) && t !in left
          <==> k.heads[b].subject == NodeUri(t.subj) && k.heads[b].property != PropertyName(t.pred))
      && (t in left <==> k.heads[b].subject != NodeUri(t.subj))
      && forall u :: u in left ==> u.subj != Blank(b)
  {
    var k, b := LinksOf(ts), ls[j].nodes[0];
    var used := UsedNodes(k);
    CollectionOfList(ts, ls, j);
    assert b in ls[j].nodes && InLists(ls, b);
    UsedAreListNodes(ts, ls, b);
    RemainingMember(k, used, ts, t);
    NotFromList(ts, ls, j, t);
    if t.subj.Blank? { UsedAreListNodes(ts, ls, t.subj.id); }
    forall u | u in Remaining(k, used, ts) ensures u.subj != Blank(b) {
      RemainingMember(k, used, ts, u);
    }
  }

  /** References come from outside the lists. */
  lemma NotFromList(ts: seq<Triple>, ls: seq<RdfList>, j: nat, t: Triple)
    requires Listed(ts, ls) && j < |ls| && t in ts && RefersTo(t, ls[j])
    ensures t.subj.Blank? ==> !InLists(ls, t.subj.id)
  {
    assert ls[j].nodes[0] in ls[j].nodes && InLists(ls, t.obj.id);
    assert Refers(ls, t);
  }

  // ----- when nothing is lost

  ghost function HeadsTo(ts: seq<Triple>, l: RdfList): set<Head> {
    set t | t in ts && RefersTo(t, l) :: HeadOf(t)
  }

  /** One array for every subject and property that refer to the list. */
  ghost function ArraysFor(ts: seq<Triple>, l: RdfList): set<Collection> {
    set h | h in HeadsTo(ts, l) :: ArrayFor(h, l)
  }

  ghost function AllArrays(ts: seq<Triple>, ls: seq<RdfList>): multiset<Collection> {
    if ls == [] then multiset{} else multiset(ArraysFor(ts, ls[0])) + AllArrays(ts, ls[1..])
  }

  /** The triples that neither write a list nor refer to one. */
  ghost function Unlisted(ts: seq<Triple>, ls: seq<RdfList>): seq<Triple> {
    if ts == [] then []
    else
      var t := ts[|ts| - 1];
      Unlisted(ts[..|ts| - 1], ls) + if Written(ls, t) || Refers(ls, t) then [] else [t]
  }

  /** Every reference is an array in the result, and nothing else of the lists is left. */
  ghost predicate RoundTrips(ts: seq<Triple>, ls: seq<RdfList>, order: seq<string>)
    requires ListsHeads(LinksOf(ts), order)
  {
    var k := LinksOf(ts);
    && multiset(CollectionsOf(k, order)) == AllArrays(ts, ls)
    && Remaining(k, UsedNodes(k), ts) == Unlisted(ts, ls)
  }

  ghost predicate OneHead(ts: seq<Triple>, l: RdfList) {
    forall t, u :: t in ts && u in ts && RefersTo(t, l) && RefersTo(u, l) ==> HeadOf(t) == HeadOf(u)
  }

  lemma SingletonSize<T>(s: set<T>, x: T)
    requires x in s
    ensures |s| >= 1 && (|s| == 1 <==> s == {x})
  {
    assert s == {x} + (s - {x});
  }

  lemma {:induction false} ArrayCount(hs: set<Head>, l: RdfList)
    ensures |set h | h in hs :: ArrayFor(h, l)| == |hs|
  {
    if hs != {} {
      var h :| h in hs;
      var some := set g | g in hs - {h} :: ArrayFor(g, l);
      ArrayCount(hs - {h}, l);
      assert (set g | g in hs :: ArrayFor(g, l)) == some + {ArrayFor(h, l)};
    }
  }

  /** One array is wanted of a list exactly when its references agree. */
  lemma ArraysOfList(ts: seq<Triple>, ls: seq<RdfList>, j: nat)
    requires Listed(ts, ls) && j < |ls|
    ensures var k, b := LinksOf(ts), ls[j].nodes[0];
      && IsListHead(k, b) && |ArraysFor(ts, ls[j])| >= 1
      && (|ArraysFor(ts, ls[j])| == 1 <==> OneHead(ts, ls[j]))
      && (OneHead(ts, ls[j]) ==> ArraysFor(ts, ls[j]) == {CollectionOf(k, b)})
  {
    var k, b := LinksOf(ts), ls[j].nodes[0];
    CollectionOfList(ts, ls, j);
    HeadIsReferred(ts, ls, j);
    var t :| t in ts && RefersTo(t, ls[j]) && HeadOf(t) == k.heads[b];
    var hs := HeadsTo(ts, ls[j]);
    assert HeadOf(t) in hs;
    ArrayCount(hs, ls[j]);
    SingletonSize(hs, HeadOf(t));
    if OneHead(ts, ls[j]) { assert hs == {HeadOf(t)}; }
    if hs == {HeadOf(t)} {
      forall u | u in ts && RefersTo(u, ls[j]) ensures HeadOf(u) == HeadOf(t) {
        assert HeadOf(u) in hs;
      }
    }
  }

  lemma {:induction false} ArrayTotal(ts: seq<Triple>, ls: seq<RdfList>)
    requires forall l :: l in ls ==> |ArraysFor(ts, l)| >= 1
    ensures |AllArrays(ts, ls)| >= |ls|
    ensures |AllArrays(ts, ls)| == |ls| ==> forall l :: l in ls ==> |ArraysFor(ts, l)| == 1
  {
    if ls != [] {
      assert ls[0] in ls && ls == [ls[0]] + ls[1..];
      ArrayTotal(ts, ls[1..]);
    }
  }

  lemma {:induction false} ArraysAreFlatMap(ts: seq<Triple>, k: Links, ls: seq<RdfList>)
    requires forall l :: l in ls ==> IsListHead(k, l.nodes[0]) && ArraysFor(ts, l) == {CollectionOf(k, l.nodes[0])}
    ensures multiset(FlatMap(h => OneCollection(k, h), HeadNodes(ls))) == AllArrays(ts, ls)
  {
    if ls != [] {
      assert ls[0] in ls;
      assert HeadNodes(ls)[1..] == HeadNodes(ls[1..]);
      ArraysAreFlatMap(ts, k, ls[1..]);
      assert OneCollection(k, HeadNodes(ls)[0]) == [CollectionOf(k, ls[0].nodes[0])];
    }
  }

  lemma {:induction false} CollectionsCount(k: Links, order: seq<string>)
    requires forall h :: h in order ==> IsListHead(k, h)
    ensures |CollectionsOf(k, order)| == |order|
  {
    if order != [] {
      assert order[|order| - 1] in order;
      CollectionsCount(k, order[..|order| - 1]);
    }
  }

  /** Triples that write a list or refer to one are taken out, if all references to a list agree. */
  lemma KeptAreUnlisted(ts: seq<Triple>, ls: seq<RdfList>, t: Triple)
    requires Listed(ts, ls) && t in ts && forall l :: l in ls ==> OneHead(ts, l)
    ensures Kept(LinksOf(ts), UsedNodes(LinksOf(ts)), t) <==> !Written(ls, t) && !Refers(ls, t)
  {
    var k := LinksOf(ts);
    if t.subj.Blank? { UsedAreListNodes(ts, ls, t.subj.id); }
    if t.obj.Blank? { UsedAreListNodes(ts, ls, t.obj.id); }
    if j :| 0 <= j < |ls| && RefersTo(t, ls[j]) {
      ReferenceFates(ts, ls, j, t);
      HeadIsReferred(ts, ls, j);
      var u :| u in ts && RefersTo(u, ls[j]) && HeadOf(u) == k.heads[ls[j].nodes[0]];
      assert ls[j] in ls && OneHead(ts, ls[j]);
      RemainingMember(k, UsedNodes(k), ts, t);
      NotFromList(ts, ls, j, t);
      assert Refers(ls, t);
    } else if Written(ls, t) {
      var j :| 0 <= j < |ls| && ls[j].Writes(t);
      if t != ls[j].HeadTriple() {
        NodeOfWritten(ls[j], t);
        assert InLists(ls, t.subj.id);
      }
    }
  }

  lemma {:induction false} RemainingAreUnlisted(all: seq<Triple>, ls: seq<RdfList>, ts: seq<Triple>)
    requires Listed(all, ls) && (forall l :: l in ls ==> OneHead(all, l)) && forall t :: t in ts ==> t in all
    ensures Remaining(LinksOf(all), UsedNodes(LinksOf(all)), ts) == Unlisted(ts, ls)
  {
    if ts != [] {
      RemainingAreUnlisted(all, ls, ts[..|ts| - 1]);
      KeptAreUnlisted(all, ls, ts[|ts| - 1]);
    }
  }

  lemma ListCount(ts: seq<Triple>, ls: seq<RdfList>, order: seq<string>)
    requires Listed(ts, ls) && ListsHeads(LinksOf(ts), order)
    ensures |multiset(CollectionsOf(LinksOf(ts), order))| == |ls|
  {
    HeadNodesAreOrder(ts, ls, order);
    CollectionsCount(LinksOf(ts), order);
    assert |multiset(order)| == |order| && |multiset(HeadNodes(ls))| == |ls|;
  }

  /** Lists with any number of references round-trip if and only if all references to each list come
      from one subject by one property name. */
  lemma SharedExact(ts: seq<Triple>, ls: seq<RdfList>, order: seq<string>)
    requires Listed(ts, ls) && ListsHeads(LinksOf(ts), order)
    ensures RoundTrips(ts, ls, order) <==> forall l :: l in ls ==> OneHead(ts, l)
  {
    var k := LinksOf(ts);
    forall l | l in ls
      ensures IsListHead(k, l.nodes[0]) && |ArraysFor(ts, l)| >= 1 && (|ArraysFor(ts, l)| == 1 <==> OneHead(ts, l))
      ensures OneHead(ts, l) ==> ArraysFor(ts, l) == {CollectionOf(k, l.nodes[0])}
    {
      var j :| 0 <= j < |ls| && ls[j] == l;
      ArraysOfList(ts, ls, j);
    }
    if RoundTrips(ts, ls, order) {
      ListCount(ts, ls, order);
      ArrayTotal(ts, ls);
    }
    if forall l :: l in ls ==> OneHead(ts, l) {
      HeadNodesAreOrder(ts, ls, order);
      CollectionsAreFlatMap(k, order);
      ArraysAreFlatMap(ts, k, ls);
      FlatMapPermutation(h => OneCollection(k, h), order, HeadNodes(ls));
      RemainingAreUnlisted(ts, ls, ts);
    }
  }

  function TwiceReferred(l: RdfList, u: Triple): seq<Triple>
    requires |l.nodes| == 1
  {
    [l.HeadTriple(), l.FirstTriple(0), l.RestTriple(0), u]
  }

  lemma TwiceReferredIsListed(l: RdfList, u: Triple)
    requires |l.nodes| == 1 && (l.subj.Blank? ==> l.subj.id != l.nodes[0])
    requires RefersTo(u, l) && (u.subj.Blank? ==> u.subj.id != l.nodes[0])
    ensures Listed(TwiceReferred(l, u), [l])
  {
    var ts, ls := TwiceReferred(l, u), [l];
    assert forall b :: InLists(ls, b) ==> b == l.nodes[0];
    forall x | Written(ls, x) ensures x in ts {
      var j :| 0 <= j < |ls| && ls[j].Writes(x);
    }
    forall x | x in ts ensures Written(ls, x) || Foreign(ls, x) || Refers(ls, x) {
      assert ls[0].Writes(x) ==> Written(ls, x);
      assert x == u ==> x.obj == Blank(ls[0].nodes[0]);
    }
  }

  /** A list of one item and two references to it that differ in subject or property name. */
  lemma SharedHeadLost(l: RdfList, u: Triple, order: seq<string>)
    requires |l.nodes| == 1 && (l.subj.Blank? ==> l.subj.id != l.nodes[0])
    requires RefersTo(u, l) && (u.subj.Blank? ==> u.subj.id != l.nodes[0]) && HeadOf(u) != HeadOf(l.HeadTriple())
    requires ListsHeads(LinksOf(TwiceReferred(l, u)), order)
    ensures !RoundTrips(TwiceReferred(l, u), [l], order)
  {
    var t, ts, ls := l.HeadTriple(), TwiceReferred(l, u), [l];
    TwiceReferredIsListed(l, u);
    assert ls[0] == l && l in ls && ts[0] == t && ts[3] == u && RefersTo(t, l) && !OneHead(ts, l);
    SharedExact(ts, ls, order);
  }
}
