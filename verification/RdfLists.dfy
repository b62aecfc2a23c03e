/** Turning rdf:first / rdf:rest chains into arrays (detect_and_extract_collections in
    mapper/src/graph/cypher.rs). Blank nodes are named by their labels. */
module RdfLists {
  import opened Common
  import opened Rdf
  import opened CypherGenerator

  /** Where a list hangs: the subject's identifier and the sanitized property name. */
  datatype Head = Head(subject: string, property: string)

  datatype Collection = Collection(subject: string, property: string, values: seq<string>)

  datatype Links = Links(first: map<string, Term>, rest: map<string, Term>, heads: map<string, Head>)

  // ----- first pass

  /** The last object given to each blank subject by pred. */
  function ObjectsOf(ts: seq<Triple>, pred: string): map<string, Term> {
    if ts == [] then map[]
    else
      var t, before := ts[|ts| - 1], ObjectsOf(ts[..|ts| - 1], pred);
      if t.pred == pred && t.subj.Blank? then before[t.subj.id := t.obj] else before
  }

  predicate IsHeadTriple(t: Triple) {
    t.pred != RDF_FIRST && t.pred != RDF_REST && t.obj.Blank?
  }

  function HeadOf(t: Triple): Head {
    Head(NodeUri(t.subj), PropertyName(t.pred))
  }

  function HeadsOf(ts: seq<Triple>): map<string, Head> {
    if ts == [] then map[]
    else
      var t, before := ts[|ts| - 1], HeadsOf(ts[..|ts| - 1]);
      if IsHeadTriple(t) then before[t.obj.id := HeadOf(t)] else before
  }

  function LinksOf(ts: seq<Triple>): Links {
    Links(ObjectsOf(ts, RDF_FIRST), ObjectsOf(ts, RDF_REST), HeadsOf(ts))
  }

  method FindLinks(ts: seq<Triple>) returns (k: Links)
    ensures k == LinksOf(ts)
  {
    k := Links(map[], map[], map[]);
    for i := 0 to |ts|
      invariant k == LinksOf(ts[..i])
    {
      var t := ts[i];
      assert ts[..i + 1][..i] == ts[..i];
      if t.pred == RDF_FIRST {
        if t.subj.Blank? { k := k.(first := k.first[t.subj.id := t.obj]); }
      } else if t.pred == RDF_REST {
        if t.subj.Blank? { k := k.(rest := k.rest[t.subj.id := t.obj]); }
      } else if t.obj.Blank? {
        k := k.(heads := k.heads[t.obj.id := HeadOf(t)]);
      }
    }
    assert ts[..|ts|] == ts;
  }

  // ----- second pass

  /** The Cypher text of a list item; a blank node has none. Dates get no special form here. */
  function ItemRepr(t: Term): string
    requires !t.Blank?
  {
    if t.Lit? then (if IsNumericOrBool(t.literal.value) then t.literal.value else Quoted(t.literal.value))
    else Quoted(t.iri)
  }

  /** b holds a value that may stand in an array. */
  predicate Simple(k: Links, b: string) {
    b in k.first && !k.first[b].Blank?
  }

  predicate Steps(k: Links, a: string, b: string) {
    Simple(k, a) && a in k.rest && k.rest[a] == Blank(b)
  }

  /** A path the second pass can take. */
  ghost predicate IsWalk(k: Links, p: seq<string>) {
    p != [] && forall i :: 0 <= i < |p| - 1 ==> Steps(k, p[i], p[i + 1])
  }

  /** A whole list: simple values all along, closed by rdf:nil. */
  ghost predicate IsChain(k: Links, p: seq<string>) {
    && IsWalk(k, p)
    && var last := p[|p| - 1];
       Simple(k, last) && last in k.rest && k.rest[last] == Iri(RDF_NIL)
  }

  ghost predicate HasChain(k: Links, h: string) {
    exists p :: IsChain(k, p) && p[0] == h
  }

  ghost function ChainOf(k: Links, h: string): (p: seq<string>)
    requires HasChain(k, h)
    ensures IsChain(k, p) && p[0] == h
  {
    var p :| IsChain(k, p) && p[0] == h;
    p
  }

  function Values(k: Links, p: seq<string>): seq<string>
    requires forall i :: 0 <= i < |p| ==> Simple(k, p[i])
  {
    if p == [] then []
    else
      assert Simple(k, p[|p| - 1]);
      Values(k, p[..|p| - 1]) + [ItemRepr(k.first[p[|p| - 1]])]
  }

  lemma WalkIsSimple(k: Links, p: seq<string>)
    requires IsChain(k, p)
    ensures forall i :: 0 <= i < |p| ==> Simple(k, p[i])
  {
    forall i | 0 <= i < |p| ensures Simple(k, p[i]) {
      assert i < |p| - 1 ==> Steps(k, p[i], p[i + 1]);
    }
  }

  /** Walks from one place are determined: a walk is a prefix of the list it is in. */
  lemma {:induction false} WalkFollowsChain(k: Links, w: seq<string>, c: seq<string>)
    requires IsWalk(k, w) && IsChain(k, c) && w[0] == c[0]
    ensures |w| <= |c| && w == c[..|w|]
    decreases |w|
  {
    if |w| > 1 {
      var v := w[..|w| - 1];
      var n := |v| - 1;
      forall i | 0 <= i < |v| - 1 ensures Steps(k, v[i], v[i + 1]) {
        assert Steps(k, w[i], w[i + 1]);
      }
      WalkFollowsChain(k, v, c);
      assert Steps(k, w[n], w[n + 1]) && w[n] == c[n];
      assert n < |c| - 1;
      assert Steps(k, c[n], c[n + 1]);
    }
  }

  lemma ChainUnique(k: Links, p: seq<string>, q: seq<string>)
    requires IsChain(k, p) && IsChain(k, q) && p[0] == q[0]
    ensures p == q
  {
    WalkFollowsChain(k, p, q);
    WalkFollowsChain(k, q, p);
  }

  /** The second pass ends on h: no walk from it comes back to a node. */
  ghost predicate EndsFrom(k: Links, h: string) {
    forall p :: IsWalk(k, p) && p[0] == h ==> NoDup(p)
  }

  lemma WalkExtends(k: Links, p: seq<string>, b: string)
    requires IsWalk(k, p) && Steps(k, p[|p| - 1], b)
    ensures IsWalk(k, p + [b])
  {
  }

  lemma {:induction false} NoDupFits(p: seq<string>, s: set<string>)
    requires NoDup(p) && forall x :: x in p ==> x in s
    ensures |p| <= |s|
  {
    if p != [] {
      assert forall x :: x in p[1..] ==> x in s - {p[0]} by {
        forall x | x in p[1..] ensures x != p[0] && x in s {
          var i :| 0 <= i < |p[1..]| && p[1..][i] == x;
          assert p[i + 1] == x && p[i + 1] in p;
        }
      }
      NoDupFits(p[1..], s - {p[0]});
    }
  }

  /** How far a walk is from the end at most: the list nodes it has not left yet. */
  ghost function Ahead(k: Links, p: seq<string>): set<string> {
    k.rest.Keys - Elements(p)
  }

  /** The walk has left path and stands at a node. */
  ghost predicate Walking(k: Links, head: string, path: seq<string>, at: string, seen: set<string>, values: seq<string>) {
    && IsWalk(k, path + [at]) && (path + [at])[0] == head
    && (forall i :: 0 <= i < |path| ==> Simple(k, path[i]))
    && values == Values(k, path) && seen == Elements(path)
  }

  lemma ValuesSnoc(k: Links, head: string, path: seq<string>, at: string, seen: set<string>, values: seq<string>)
    requires Walking(k, head, path, at, seen, values) && Simple(k, at)
    ensures forall i :: 0 <= i < |path + [at]| ==> Simple(k, (path + [at])[i])
    ensures values + [ItemRepr(k.first[at])] == Values(k, path + [at])
    ensures seen + {at} == Elements(path + [at])
  {
    assert (path + [at])[..|path|] == path;
  }

  lemma WalkStep(k: Links, head: string, path: seq<string>, at: string, seen: set<string>, values: seq<string>, next: string)
    requires Walking(k, head, path, at, seen, values) && Steps(k, at, next)
    ensures Walking(k, head, path + [at], next, seen + {at}, values + [ItemRepr(k.first[at])])
  {
    ValuesSnoc(k, head, path, at, seen, values);
    WalkExtends(k, path + [at], next);
  }

  method WalkList(k: Links, head: string) returns (simple: bool, seen: set<string>, values: seq<string>, ghost path: seq<string>)
    requires EndsFrom(k, head)
    ensures simple <==> HasChain(k, head)
    ensures simple ==> IsChain(k, path) && path[0] == head && seen == Elements(path)
    ensures simple ==> (forall i :: 0 <= i < |path| ==> Simple(k, path[i])) && values == Values(k, path)
  {
    var at := head;
    seen, values, path := {}, [], [];
    while true
      invariant Walking(k, head, path, at, seen, values)
      decreases Ahead(k, path)
    {
      ghost var walk := path + [at];
      NoDupWalk(k, head, walk);
      AheadShrinks(k, path, at);
      if at !in k.first || k.first[at].Blank? || at !in k.rest {
        NoChainThrough(k, walk);
        return false, {}, [], [];
      }
      var value, next := ItemRepr(k.first[at]), k.rest[at];
      if next == Iri(RDF_NIL) {
        ValuesSnoc(k, head, path, at, seen, values);
        return true, seen + {at}, values + [value], walk;
      }
      if !next.Blank? {
        NoChainThrough(k, walk);
        return false, {}, [], [];
      }
      WalkStep(k, head, path, at, seen, values, next.id);
      seen, values, path, at := seen + {at}, values + [value], walk, next.id;
    }
  }

  lemma NoDupWalk(k: Links, head: string, walk: seq<string>)
    requires EndsFrom(k, head) && IsWalk(k, walk) && walk[0] == head
    ensures NoDup(walk)
  {
  }

  lemma AheadShrinks(k: Links, path: seq<string>, at: string)
    requires NoDup(path + [at])
    ensures at in k.rest ==> Ahead(k, path + [at]) < Ahead(k, path)
  {
    assert (path + [at])[|path|] == at;
    assert forall i :: 0 <= i < |path| ==> (path + [at])[i] == path[i];
    assert at !in path;
    assert Elements(path + [at]) == Elements(path) + {at};
    assert Ahead(k, path + [at]) == Ahead(k, path) - {at};
  }

  lemma ChainGoesOn(k: Links, walk: seq<string>, c: seq<string>)
    requires IsWalk(k, walk) && IsChain(k, c) && walk[0] == c[0]
    ensures var at := walk[|walk| - 1];
      Simple(k, at) && at in k.rest && (k.rest[at].Blank? || k.rest[at] == Iri(RDF_NIL))
  {
    WalkFollowsChain(k, walk, c);
    var n := |walk| - 1;
    assert n < |c| - 1 ==> Steps(k, c[n], c[n + 1]);
  }

  /** A walk that stops at a node which cannot be in a list shows that there is no list. */
  lemma NoChainThrough(k: Links, walk: seq<string>)
    requires IsWalk(k, walk)
    requires var at := walk[|walk| - 1];
      !Simple(k, at) || at !in k.rest || (!k.rest[at].Blank? && k.rest[at] != Iri(RDF_NIL))
    ensures !HasChain(k, walk[0])
  {
    if HasChain(k, walk[0]) {
      ChainGoesOn(k, walk, ChainOf(k, walk[0]));
    }
  }

  // ----- when the walk ends

  ghost predicate BoundedBy(k: Links, h: string, n: nat) {
    forall p :: IsWalk(k, p) && p[0] == h ==> |p| <= n
  }

  lemma WalkFits(k: Links, p: seq<string>)
    requires IsWalk(k, p) && NoDup(p)
    ensures |p| <= |k.rest.Keys| + 1
  {
    var v := p[..|p| - 1];
    forall x | x in v ensures x in k.rest.Keys {
      var i :| 0 <= i < |v| && v[i] == x;
      assert Steps(k, p[i], p[i + 1]);
    }
    NoDupFits(v, k.rest.Keys);
  }

  /** A walk that meets a node twice goes on for ever around the cycle. */
  lemma {:induction false} CycleRunsOn(k: Links, p: seq<string>, i: nat, j: nat, n: nat) returns (q: seq<string>, m: nat)
    requires IsWalk(k, p) && i < j < |p| && p[i] == p[j]
    ensures IsWalk(k, q) && q[0] == p[0] && |q| > n && i <= m < j && q[|q| - 1] == p[m]
  {
    if n == 0 {
      q, m := p[..i + 1], i;
      assert forall x :: 0 <= x < |q| - 1 ==> Steps(k, p[x], p[x + 1]);
    } else {
      q, m := CycleRunsOn(k, p, i, j, n - 1);
      assert Steps(k, p[m], p[m + 1]);
      WalkExtends(k, q, p[m + 1]);
      q := q + [p[m + 1]];
      m := if m + 1 == j then i else m + 1;
    }
  }

  /** The second pass stops on a head exactly when its walks never meet a node twice. */
  lemma TerminationExact(k: Links, h: string)
    ensures EndsFrom(k, h) <==> exists n: nat :: BoundedBy(k, h, n)
  {
    if EndsFrom(k, h) {
      forall p | IsWalk(k, p) && p[0] == h ensures |p| <= |k.rest.Keys| + 1 {
        WalkFits(k, p);
      }
      assert BoundedBy(k, h, |k.rest.Keys| + 1);
    } else {
      var p :| IsWalk(k, p) && p[0] == h && !NoDup(p);
      var i, j :| 0 <= i < j < |p| && p[i] == p[j];
      forall n: nat ensures !BoundedBy(k, h, n) {
        var q, m := CycleRunsOn(k, p, i, j, n);
      }
    }
  }

  // ----- collections and what is left

  ghost predicate IsListHead(k: Links, h: string) {
    h in k.heads && HasChain(k, h)
  }

  ghost function CollectionOf(k: Links, h: string): Collection
    requires IsListHead(k, h)
  {
    var chain := ChainOf(k, h);
    WalkIsSimple(k, chain);
    Collection(k.heads[h].subject, k.heads[h].property, Values(k, chain))
  }

  ghost function CollectionsOf(k: Links, order: seq<string>): seq<Collection>
    requires forall h :: h in order ==> IsListHead(k, h)
  {
    if order == [] then [] else
      assert order[|order| - 1] in order;
      CollectionsOf(k, order[..|order| - 1]) + [CollectionOf(k, order[|order| - 1])]
  }

  /** order lists the heads of all lists, each once. */
  ghost predicate ListsHeads(k: Links, order: seq<string>) {
    NoDup(order) && forall h :: h in order <==> IsListHead(k, h)
  }

  ghost function UsedNodes(k: Links): set<string> {
    set h, b | h in k.heads && IsListHead(k, h) && b in ChainOf(k, h) :: b
  }

  ghost predicate WalksEnd(k: Links) {
    forall h :: h in k.heads && h in k.first ==> EndsFrom(k, h)
  }

  /** p follows rdf:rest links. */
  ghost predicate RestPath(k: Links, p: seq<string>) {
    |p| > 1 && forall i :: 0 <= i < |p| - 1 ==> p[i] in k.rest && k.rest[p[i]] == Blank(p[i + 1])
  }

  /** No node is reached from itself. */
  ghost predicate Acyclic(k: Links) {
    forall p :: RestPath(k, p) ==> p[0] != p[|p| - 1]
  }

  /** Acyclic rdf:rest links are enough for the second pass to stop. */
  lemma AcyclicEnds(k: Links)
    requires Acyclic(k)
    ensures WalksEnd(k)
  {
    forall p, i, j | IsWalk(k, p) && 0 <= i < j < |p| ensures p[i] != p[j] {
      PartOfWalk(k, p, i, j);
      assert p[i..j + 1][0] == p[i] && p[i..j + 1][j - i] == p[j];
    }
  }

  lemma PartOfWalk(k: Links, p: seq<string>, i: nat, j: nat)
    requires IsWalk(k, p) && i < j < |p|
    ensures RestPath(k, p[i..j + 1])
  {
    var part := p[i..j + 1];
    forall m | 0 <= m < |part| - 1 ensures part[m] in k.rest && k.rest[part[m]] == Blank(part[m + 1]) {
      assert Steps(k, p[i + m], p[i + m + 1]);
    }
  }

  predicate Kept(k: Links, used: set<string>, t: Triple) {
    && !(t.subj.Blank? && t.subj.id in used)
    && !(t.obj.Blank? && t.obj.id in used && t.obj.id in k.heads && k.heads[t.obj.id].subject == NodeUri(t.subj))
  }

  function Remaining(k: Links, used: set<string>, ts: seq<Triple>): seq<Triple> {
    if ts == [] then [] else
      Remaining(k, used, ts[..|ts| - 1]) + if Kept(k, used, ts[|ts| - 1]) then [ts[|ts| - 1]] else []
  }

  /** Heads come out of a hash map, in any order. */
  method BuildCollections(k: Links) returns (collections: seq<Collection>, used: set<string>, ghost order: seq<string>)
    requires WalksEnd(k)
    ensures ListsHeads(k, order)
    ensures collections == CollectionsOf(k, order)
    ensures used == UsedNodes(k)
  {
    collections, used, order := [], {}, [];
    var pending := k.heads.Keys;
    while pending != {}
      invariant pending <= k.heads.Keys && NoDup(order)
      invariant forall h :: h in order <==> IsListHead(k, h) && h !in pending
      invariant collections == CollectionsOf(k, order)
      invariant forall b :: b in used <==> exists h :: h in order && b in ChainOf(k, h)
    {
      var h :| h in pending;
      pending := pending - {h};
      if h in k.first {
        var simple, seen, values, path := WalkList(k, h);
        if simple && values != [] {
          ChainUnique(k, path, ChainOf(k, h));
          collections := collections + [Collection(k.heads[h].subject, k.heads[h].property, values)];
          used := used + seen;
          NoDupConcat(order, [h]);
          assert (order + [h])[..|order|] == order;
          order := order + [h];
        }
      } else {
        NoChainWithoutFirst(k, h);
      }
    }
    assert used == UsedNodes(k);
  }

  lemma NoChainWithoutFirst(k: Links, h: string)
    ensures HasChain(k, h) ==> h in k.first
  {
    if HasChain(k, h) {
      WalkIsSimple(k, ChainOf(k, h));
    }
  }

  method DetectAndExtract(ts: seq<Triple>)
    returns (collections: seq<Collection>, remaining: seq<Triple>, ghost order: seq<string>)
    requires WalksEnd(LinksOf(ts))
    ensures ListsHeads(LinksOf(ts), order)
    ensures collections == CollectionsOf(LinksOf(ts), order)
    ensures remaining == Remaining(LinksOf(ts), UsedNodes(LinksOf(ts)), ts)
  {
    var used;
    var k := FindLinks(ts);
    collections, used, order := BuildCollections(k);
    remaining := [];
    for i := 0 to |ts|
      invariant remaining == Remaining(k, used, ts[..i])
    {
      assert ts[..i + 1][..i] == ts[..i];
      if Kept(k, used, ts[i]) {
        remaining := remaining + [ts[i]];
      }
    }
    assert ts[..|ts|] == ts;
  }
}
