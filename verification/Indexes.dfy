/** The type index and the predicate index (storage/src/index.rs), used by one thread at a time. */
module Indexes {
  // ----- sums over maps

  ghost function Sum(m: map<nat, nat>): nat
    decreases |m|
  {
    if m == map[] then 0 else
      var k :| k in m;
      RemoveSmaller(m, k);
      m[k] + Sum(m - {k})
  }

  lemma RemoveSmaller<T>(m: map<nat, T>, k: nat)
    requires k in m
    ensures |m - {k}| < |m|
  {
    assert (m - {k})[k := m[k]] == m;
  }

  /** The sum does not depend on the order in which the keys are met. */
  lemma {:induction false} SumWithout(m: map<nat, nat>, k: nat)
    requires k in m
    ensures Sum(m) == m[k] + Sum(m - {k})
    decreases |m|
  {
    RemoveSmaller(m, k);
    var j :| j in m && Sum(m) == m[j] + Sum(m - {j});
    if j != k {
      RemoveSmaller(m, j);
      SumWithout(m - {j}, k);
      SumWithout(m - {k}, j);
      assert m - {j} - {k} == m - {k} - {j};
    }
  }

  lemma SumUpdate(m: map<nat, nat>, k: nat, v: nat)
    ensures Sum(m[k := v]) == v + Sum(m - {k})
  {
    SumWithout(m[k := v], k);
    assert m[k := v] - {k} == m - {k};
  }

  function Sizes<T>(m: map<nat, set<T>>): map<nat, nat> {
    map k | k in m :: |m[k]|
  }

  // ----- the type index

  type Sets = map<nat, set<nat>>

  predicate Has(m: Sets, k: nat, x: nat) {
    k in m && x in m[k]
  }

  /** The second map says of each value what the first says of each key, and no set is empty. */
  ghost predicate Transposed(a: Sets, b: Sets) {
    && (forall k: nat, x: nat :: Has(a, k, x) <==> Has(b, x, k))
    && (forall k :: k in a ==> a[k] != {})
    && (forall x :: x in b ==> b[x] != {})
  }

  function Put(m: Sets, k: nat, x: nat): Sets {
    m[k := (if k in m then m[k] else {}) + {x}]
  }

  /** Takes x out of k's set, and drops the set when that leaves it empty. */
  function Take(m: Sets, k: nat, x: nat): Sets {
    if k !in m then m
    else if m[k] - {x} == {} then m - {k}
    else m[k := m[k] - {x}]
  }

  lemma PutHas(m: Sets, k: nat, x: nat)
    ensures forall j: nat, y: nat :: Has(Put(m, k, x), j, y) <==> Has(m, j, y) || (j == k && y == x)
  {
  }

  lemma TakeHas(m: Sets, k: nat, x: nat)
    ensures forall j: nat, y: nat :: Has(Take(m, k, x), j, y) <==> Has(m, j, y) && !(j == k && y == x)
  {
    if k in m {
      assert forall y: nat :: y in m[k] && y != x ==> y in m[k] - {x};
    }
  }

  lemma PutTransposed(a: Sets, b: Sets, k: nat, x: nat)
    requires Transposed(a, b)
    ensures Transposed(Put(a, k, x), Put(b, x, k))
  {
    PutHas(a, k, x);
    PutHas(b, x, k);
  }

  lemma TakeTransposed(a: Sets, b: Sets, k: nat, x: nat)
    requires Transposed(a, b)
    ensures Transposed(Take(a, k, x), Take(b, x, k))
  {
    TakeHas(a, k, x);
    TakeHas(b, x, k);
  }

  ghost function Pairs(m: Sets): set<(nat, nat)> {
    set k, x | k in m && x in m[k] :: (k, x)
  }

  function Row(k: nat, xs: set<nat>): set<(nat, nat)> {
    set x | x in xs :: (k, x)
  }

  lemma {:induction false} RowSize(k: nat, xs: set<nat>)
    ensures |Row(k, xs)| == |xs|
    decreases |xs|
  {
    if xs != {} {
      var x :| x in xs;
      RowSize(k, xs - {x});
      assert Row(k, xs) == Row(k, xs - {x}) + {(k, x)};
    }
  }

  lemma {:induction false} SizeIsPairs(m: Sets)
    ensures Sum(Sizes(m)) == |Pairs(m)|
    decreases |m|
  {
    if m != map[] {
      var k :| k in m;
      RemoveSmaller(m, k);
      SizeIsPairs(m - {k});
      RowSize(k, m[k]);
      SumWithout(Sizes(m), k);
      assert Sizes(m) - {k} == Sizes(m - {k});
      assert Pairs(m) == Pairs(m - {k}) + Row(k, m[k]);
    } else {
      assert Sizes(m) == map[];
    }
  }

  lemma {:induction false} FlipSize(ps: set<(nat, nat)>, qs: set<(nat, nat)>)
    requires forall a, b :: (a, b) in ps <==> (b, a) in qs
    ensures |ps| == |qs|
    decreases |ps|
  {
    if ps == {} {
      assert forall q :: q in qs ==> (q.1, q.0) in ps;
      assert qs == {};
    } else {
      var p :| p in ps;
      FlipSize(ps - {p}, qs - {(p.1, p.0)});
    }
  }

  /** The number of assertions is the same counted by type and by subject. */
  lemma SameSizeFromEitherSide(a: Sets, b: Sets)
    requires Transposed(a, b)
    ensures Sum(Sizes(a)) == Sum(Sizes(b)) == |Pairs(a)|
  {
    SizeIsPairs(a);
    SizeIsPairs(b);
    forall k: nat, x: nat ensures (k, x) in Pairs(a) <==> (x, k) in Pairs(b) {
      assert Has(a, k, x) <==> Has(b, x, k);
    }
    FlipSize(Pairs(a), Pairs(b));
  }

  datatype TypeChange =
    | AddTypeOf(subj: nat, typ: nat)
    | RemoveTypeOf(subj: nat, typ: nat)
    | RemoveTypesOf(subj: nat)
    | ClearTypes

  /** Whether the assertion that s is a t holds after a change, told without the index. */
  predicate HoldsAfter(was: bool, c: TypeChange, s: nat, t: nat) {
    match c
    case AddTypeOf(s', t') => was || (s' == s && t' == t)
    case RemoveTypeOf(s', t') => was && !(s' == s && t' == t)
    case RemoveTypesOf(s') => was && s' != s
    case ClearTypes => false
  }

  /** m without x in any set. */
  function Drop(m: Sets, x: nat): Sets {
    map k | k in m && m[k] - {x} != {} :: m[k] - {x}
  }

  /** What a change does to the map from types to subjects ... */
  function OnTypes(m: Sets, c: TypeChange): Sets {
    match c
    case AddTypeOf(s, t) => Put(m, t, s)
    case RemoveTypeOf(s, t) => Take(m, t, s)
    case RemoveTypesOf(s) => Drop(m, s)
    case ClearTypes => map[]
  }

  /** ... and to the map from subjects to types. */
  function OnSubjects(m: Sets, c: TypeChange): Sets {
    match c
    case AddTypeOf(s, t) => Put(m, s, t)
    case RemoveTypeOf(s, t) => Take(m, s, t)
    case RemoveTypesOf(s) => m - {s}
    case ClearTypes => map[]
  }

  /** A map without empty sets is known by its pairs. */
  lemma SameSets(a: Sets, b: Sets)
    requires forall k: nat, x: nat :: Has(a, k, x) <==> Has(b, k, x)
    requires (forall k :: k in a ==> a[k] != {}) && forall k :: k in b ==> b[k] != {}
    ensures a == b
  {
    forall k ensures k in a <==> k in b {
      if k in a {
        var x :| x in a[k];
        assert Has(a, k, x) && Has(b, k, x);
      }
      if k in b {
        var x :| x in b[k];
        assert Has(b, k, x) && Has(a, k, x);
      }
    }
    forall k | k in a ensures a[k] == b[k] {
      forall x: nat ensures x in a[k] <==> x in b[k] {
        assert Has(a, k, x) <==> Has(b, k, x);
      }
    }
  }

  class TypeIndex {
    var typeToSubjects: Sets
    var subjectToTypes: Sets

    ghost predicate Valid()
      reads this
    {
      Transposed(typeToSubjects, subjectToTypes)
    }

    constructor ()
      ensures Valid() && typeToSubjects == map[] && subjectToTypes == map[]
    {
      typeToSubjects, subjectToTypes := map[], map[];
    }

    method AddType(subj: nat, typ: nat)
      requires Valid()
      modifies this
      ensures Valid()
      ensures typeToSubjects == OnTypes(old(typeToSubjects), AddTypeOf(subj, typ))
      ensures subjectToTypes == OnSubjects(old(subjectToTypes), AddTypeOf(subj, typ))
      ensures forall s, t :: Has(subjectToTypes, s, t) <==> HoldsAfter(Has(old(subjectToTypes), s, t), AddTypeOf(subj, typ), s, t)
    {
      PutTransposed(typeToSubjects, subjectToTypes, typ, subj);
      typeToSubjects := Put(typeToSubjects, typ, subj);
      subjectToTypes := Put(subjectToTypes, subj, typ);
    }

    method RemoveType(subj: nat, typ: nat)
      requires Valid()
      modifies this
      ensures Valid()
      ensures typeToSubjects == OnTypes(old(typeToSubjects), RemoveTypeOf(subj, typ))
      ensures subjectToTypes == OnSubjects(old(subjectToTypes), RemoveTypeOf(subj, typ))
      ensures forall s, t :: Has(subjectToTypes, s, t) <==> HoldsAfter(Has(old(subjectToTypes), s, t), RemoveTypeOf(subj, typ), s, t)
    {
      TakeTransposed(typeToSubjects, subjectToTypes, typ, subj);
      typeToSubjects := Take(typeToSubjects, typ, subj);
      subjectToTypes := Take(subjectToTypes, subj, typ);
    }

    method RemoveSubject(subj: nat)
      requires Valid()
      modifies this
      ensures Valid()
      ensures typeToSubjects == OnTypes(old(typeToSubjects), RemoveTypesOf(subj))
      ensures subjectToTypes == OnSubjects(old(subjectToTypes), RemoveTypesOf(subj))
      ensures forall s, t :: Has(subjectToTypes, s, t) <==> HoldsAfter(Has(old(subjectToTypes), s, t), RemoveTypesOf(subj), s, t)
    {
      DropHas(typeToSubjects, subj);
      if subj !in subjectToTypes {
        NothingToDrop(typeToSubjects, subjectToTypes, subj);
        return;
      }
      var pending := subjectToTypes[subj];
      ghost var before := typeToSubjects;
      subjectToTypes := subjectToTypes - {subj};
      while pending != {}
        invariant forall t :: t in pending ==> Has(before, t, subj)
        invariant forall t, s :: Has(typeToSubjects, t, s) <==>
          Has(before, t, s) && (s != subj || t in pending)
        invariant forall t :: t in typeToSubjects ==> typeToSubjects[t] != {}
        invariant subjectToTypes == old(subjectToTypes) - {subj}
      {
        var typ :| typ in pending;
        pending := pending - {typ};
        TakeHas(typeToSubjects, typ, subj);
        typeToSubjects := Take(typeToSubjects, typ, subj);
      }
      SameSets(typeToSubjects, Drop(before, subj));
    }

    method ClearAll()
      modifies this
      ensures Valid()
      ensures typeToSubjects == OnTypes(old(typeToSubjects), ClearTypes)
      ensures subjectToTypes == OnSubjects(old(subjectToTypes), ClearTypes)
      ensures forall s, t :: Has(subjectToTypes, s, t) <==> HoldsAfter(Has(old(subjectToTypes), s, t), ClearTypes, s, t)
    {
      typeToSubjects, subjectToTypes := map[], map[];
    }

    method Len() returns (n: nat)
      requires Valid()
      ensures n == |Pairs(typeToSubjects)| == Sum(Sizes(subjectToTypes))
    {
      n := 0;
      var left := typeToSubjects;
      while left != map[]
        invariant n + Sum(Sizes(left)) == Sum(Sizes(typeToSubjects))
        decreases |left|
      {
        var k :| k in left;
        SumWithout(Sizes(left), k);
        assert Sizes(left) - {k} == Sizes(left - {k});
        RemoveSmaller(left, k);
        n := n + |left[k]|;
        left := left - {k};
      }
      assert Sizes(left) == map[];
      SameSizeFromEitherSide(typeToSubjects, subjectToTypes);
    }
  }

  lemma DropHas(m: Sets, x: nat)
    ensures forall j: nat, y: nat :: Has(Drop(m, x), j, y) <==> Has(m, j, y) && y != x
    ensures forall j :: j in Drop(m, x) ==> Drop(m, x)[j] != {}
  {
    forall j: nat, y: nat | Has(m, j, y) && y != x ensures Has(Drop(m, x), j, y) {
      assert y in m[j] - {x};
    }
  }

  lemma NothingToDrop(a: Sets, b: Sets, x: nat)
    requires Transposed(a, b) && x !in b
    ensures Drop(a, x) == a && b - {x} == b
  {
    DropHas(a, x);
    forall k: nat ensures !Has(a, k, x) {
      assert !Has(b, x, k);
    }
    SameSets(Drop(a, x), a);
  }

  // ----- runs

  function TypesAfter(m: Sets, cs: seq<TypeChange>): Sets {
    if cs == [] then m else OnTypes(TypesAfter(m, cs[..|cs| - 1]), cs[|cs| - 1])
  }

  function SubjectsAfter(m: Sets, cs: seq<TypeChange>): Sets {
    if cs == [] then m else OnSubjects(SubjectsAfter(m, cs[..|cs| - 1]), cs[|cs| - 1])
  }

  /** Whether the assertion that s is a t holds after a run of changes. */
  predicate Asserted(before: bool, cs: seq<TypeChange>, s: nat, t: nat) {
    if cs == [] then before else HoldsAfter(Asserted(before, cs[..|cs| - 1], s, t), cs[|cs| - 1], s, t)
  }

  ghost predicate NoEmptySets(m: Sets) {
    forall k :: k in m ==> m[k] != {}
  }

  lemma OneChange(a: Sets, b: Sets, c: TypeChange)
    requires NoEmptySets(a) && NoEmptySets(b)
    ensures NoEmptySets(OnTypes(a, c)) && NoEmptySets(OnSubjects(b, c))
    ensures forall s: nat, t: nat ::
      (Has(OnTypes(a, c), t, s) <==> HoldsAfter(Has(a, t, s), c, s, t))
      && (Has(OnSubjects(b, c), s, t) <==> HoldsAfter(Has(b, s, t), c, s, t))
  {
    match c
    case AddTypeOf(s, t) =>
      PutHas(a, t, s);
      PutHas(b, s, t);
    case RemoveTypeOf(s, t) =>
      TakeHas(a, t, s);
      TakeHas(b, s, t);
    case RemoveTypesOf(s) => DropHas(a, s);
    case ClearTypes =>
  }

  /** Each map follows its own changes. */
  lemma {:induction false} MapsFollowChanges(a: Sets, b: Sets, cs: seq<TypeChange>)
    requires NoEmptySets(a) && NoEmptySets(b)
    ensures NoEmptySets(TypesAfter(a, cs)) && NoEmptySets(SubjectsAfter(b, cs))
    ensures forall s: nat, t: nat ::
      (Has(TypesAfter(a, cs), t, s) <==> Asserted(Has(a, t, s), cs, s, t))
      && (Has(SubjectsAfter(b, cs), s, t) <==> Asserted(Has(b, s, t), cs, s, t))
  {
    if cs != [] {
      var before, c := cs[..|cs| - 1], cs[|cs| - 1];
      MapsFollowChanges(a, b, before);
      OneChange(TypesAfter(a, before), SubjectsAfter(b, before), c);
    }
  }

  /** Over every run, with removals of whole subjects and clears, the two maps agree and hold exactly
      the assertions that hold. */
  lemma TypesOverRuns(cs: seq<TypeChange>)
    ensures Transposed(TypesAfter(map[], cs), SubjectsAfter(map[], cs))
    ensures forall s: nat, t: nat :: Has(SubjectsAfter(map[], cs), s, t) <==> Asserted(false, cs, s, t)
  {
    MapsFollowChanges(map[], map[], cs);
  }

  /** The two maps sit behind two locks, so changes made at the same time may reach them in different
      orders. Where each half does its own work (removals of a subject, whose second half depends on what
      the first found, are in TypeIndexProtocol), the maps agree afterwards if and only if the two orders
      tell of every assertion the same. */
  lemma OrdersExact(a: Sets, b: Sets, onTypes: seq<TypeChange>, onSubjects: seq<TypeChange>)
    requires Transposed(a, b)
    requires (forall c :: c in onTypes ==> !c.RemoveTypesOf?) && forall c :: c in onSubjects ==> !c.RemoveTypesOf?
    ensures Transposed(TypesAfter(a, onTypes), SubjectsAfter(b, onSubjects)) <==>
      forall s: nat, t: nat :: Asserted(Has(a, t, s), onTypes, s, t) <==> Asserted(Has(a, t, s), onSubjects, s, t)
  {
    MapsFollowChanges(a, b, onTypes);
    MapsFollowChanges(a, b, onSubjects);
    var types, subjects := TypesAfter(a, onTypes), SubjectsAfter(b, onSubjects);
    if forall s: nat, t: nat :: Asserted(Has(a, t, s), onTypes, s, t) <==> Asserted(Has(a, t, s), onSubjects, s, t) {
      forall k: nat, x: nat ensures Has(types, k, x) <==> Has(subjects, x, k) {
        assert Has(a, k, x) <==> Has(b, x, k);
      }
    }
    if Transposed(types, subjects) {
      forall s: nat, t: nat ensures Asserted(Has(a, t, s), onTypes, s, t) <==> Asserted(Has(a, t, s), onSubjects, s, t) {
        assert Has(a, t, s) <==> Has(b, s, t);
        assert Has(types, t, s) <==> Has(subjects, s, t);
      }
    }
  }

  predicate OneAssertion(c: TypeChange) {
    c.AddTypeOf? || c.RemoveTypeOf?
  }

  /** One adds the very assertion that the other removes. */
  predicate Undoes(p: TypeChange, q: TypeChange)
    requires OneAssertion(p) && OneAssertion(q)
  {
    p.subj == q.subj && p.typ == q.typ && p.AddTypeOf? != q.AddTypeOf?
  }

  lemma AssertedSnoc(was: bool, cs: seq<TypeChange>, c: TypeChange, s: nat, t: nat)
    ensures Asserted(was, cs + [c], s, t) == HoldsAfter(Asserted(was, cs, s, t), c, s, t)
  {
    assert (cs + [c])[..|cs|] == cs;
  }

  lemma TwoChanges(was: bool, p: TypeChange, q: TypeChange, s: nat, t: nat)
    ensures Asserted(was, [p, q], s, t) == HoldsAfter(HoldsAfter(was, p, s, t), q, s, t)
  {
    assert [p, q] == [p] + [q] && [p] == [] + [p];
    AssertedSnoc(was, [p], q, s, t);
    AssertedSnoc(was, [], p, s, t);
  }

  lemma OrderOfTwo(was: bool, p: TypeChange, q: TypeChange, s: nat, t: nat)
    requires OneAssertion(p) && OneAssertion(q)
    ensures (Asserted(was, [p, q], s, t) <==> Asserted(was, [q, p], s, t)) <==> !(Undoes(p, q) && s == p.subj && t == p.typ)
  {
    TwoChanges(was, p, q, s, t);
    TwoChanges(was, q, p, s, t);
  }

  /** Two additions or removals of single assertions that meet the maps in opposite orders: the maps
      agree afterwards if and only if neither undoes the other. */
  lemma HalvesMustNotInterleave(a: Sets, b: Sets, p: TypeChange, q: TypeChange)
    requires Transposed(a, b) && OneAssertion(p) && OneAssertion(q)
    ensures Transposed(TypesAfter(a, [p, q]), SubjectsAfter(b, [q, p])) <==> !Undoes(p, q)
  {
    OrdersExact(a, b, [p, q], [q, p]);
    forall s: nat, t: nat
      ensures (Asserted(Has(a, t, s), [p, q], s, t) <==> Asserted(Has(a, t, s), [q, p], s, t))
        <==> !(Undoes(p, q) && s == p.subj && t == p.typ)
    {
      OrderOfTwo(Has(a, t, s), p, q, s, t);
    }
    var s, t := p.subj, p.typ;
    assert (Asserted(Has(a, t, s), [p, q], s, t) <==> Asserted(Has(a, t, s), [q, p], s, t)) <==> !Undoes(p, q);
  }

  // ----- the predicate index

  type Edge = (nat, nat)

  datatype Predicates = Predicates(edges: map<nat, set<Edge>>, counts: map<nat, nat>, total: nat)

  function EdgesAt(i: Predicates, p: nat): set<Edge> {
    if p in i.edges then i.edges[p] else {}
  }

  function CountAt(i: Predicates, p: nat): nat {
    if p in i.counts then i.counts[p] else 0
  }

  function AddEdge(i: Predicates, p: nat, e: Edge): Predicates {
    Predicates(i.edges[p := EdgesAt(i, p) + {e}], i.counts[p := CountAt(i, p) + 1], i.total + 1)
  }

  function SaturatingDec(n: nat): nat { if n == 0 then 0 else n - 1 }

  function RemoveEdge(i: Predicates, p: nat, e: Edge): Predicates {
    if e !in EdgesAt(i, p) then i
    else
      var left := EdgesAt(i, p) - {e};
      var count := SaturatingDec(CountAt(i, p));
      Predicates(if left == {} then i.edges - {p} else i.edges[p := left],
                 if p !in i.counts then i.counts else if count == 0 then i.counts - {p} else i.counts[p := count],
                 SaturatingDec(i.total))
  }

  /** The total is the sum of the counts; counts are positive and at least the stored edges. */
  ghost predicate Balanced(i: Predicates) {
    && i.total == Sum(i.counts)
    && (forall p :: p in i.counts ==> i.counts[p] > 0)
    && (forall p :: p in i.edges ==> i.edges[p] != {})
    && (forall p :: |EdgesAt(i, p)| <= CountAt(i, p))
  }

  lemma AddBalanced(i: Predicates, p: nat, e: Edge)
    requires Balanced(i)
    ensures Balanced(AddEdge(i, p, e))
  {
    SumUpdate(i.counts, p, CountAt(i, p) + 1);
    if p in i.counts {
      SumWithout(i.counts, p);
    } else {
      assert i.counts - {p} == i.counts;
    }
    assert |EdgesAt(i, p) + {e}| <= |EdgesAt(i, p)| + 1;
    var after := AddEdge(i, p, e);
    forall q ensures |EdgesAt(after, q)| <= CountAt(after, q) {
      assert |EdgesAt(i, q)| <= CountAt(i, q);
    }
  }

  /** Removal never meets a zero to saturate at. */
  lemma RemoveBalanced(i: Predicates, p: nat, e: Edge)
    requires Balanced(i)
    ensures Balanced(RemoveEdge(i, p, e))
    ensures e in EdgesAt(i, p) ==> CountAt(i, p) > 0 && i.total > 0
  {
    if e in EdgesAt(i, p) {
      var left := EdgesAt(i, p) - {e};
      assert EdgesAt(i, p) == left + {e} && |EdgesAt(i, p)| == |left| + 1;
      SumWithout(i.counts, p);
      if CountAt(i, p) > 1 { SumUpdate(i.counts, p, CountAt(i, p) - 1); }
      var after := RemoveEdge(i, p, e);
      forall q ensures |EdgesAt(after, q)| <= CountAt(after, q) {
        assert |EdgesAt(i, q)| <= CountAt(i, q);
      }
    }
  }

  // ----- runs, and how far the counts drift

  datatype Change = Add(p: nat, e: Edge) | Remove(p: nat, e: Edge) | Clear

  const NO_PREDICATES := Predicates(map[], map[], 0)

  function After(i: Predicates, c: Change): Predicates {
    match c
    case Add(p, e) => AddEdge(i, p, e)
    case Remove(p, e) => RemoveEdge(i, p, e)
    case Clear => NO_PREDICATES
  }

  function RunChanges(cs: seq<Change>): Predicates {
    if cs == [] then NO_PREDICATES else After(RunChanges(cs[..|cs| - 1]), cs[|cs| - 1])
  }

  /** The edges of p that are present, told without the index. */
  function Present(cs: seq<Change>, p: nat): set<Edge> {
    if cs == [] then {}
    else
      var before, c := Present(cs[..|cs| - 1], p), cs[|cs| - 1];
      match c
      case Add(q, e) => if q == p then before + {e} else before
      case Remove(q, e) => if q == p then before - {e} else before
      case Clear => {}
  }

  /** How often an edge of p was added while it was present, since the last clear. */
  function ReAdded(cs: seq<Change>, p: nat): nat {
    if cs == [] then 0
    else
      var before, c := ReAdded(cs[..|cs| - 1], p), cs[|cs| - 1];
      match c
      case Add(q, e) => if q == p && e in Present(cs[..|cs| - 1], p) then before + 1 else before
      case Remove(_, _) => before
      case Clear => 0
  }

  lemma {:induction false} RunBalanced(cs: seq<Change>)
    ensures Balanced(RunChanges(cs))
  {
    if cs == [] {
      assert Sum(map[]) == 0;
    } else {
      var before, c := RunChanges(cs[..|cs| - 1]), cs[|cs| - 1];
      RunBalanced(cs[..|cs| - 1]);
      match c
      case Add(p, e) => AddBalanced(before, p, e);
      case Remove(p, e) => RemoveBalanced(before, p, e);
      case Clear => assert Sum(map[]) == 0;
    }
  }

  /** The edges of p and their number plus the drift. */
  ghost predicate Drifted(i: Predicates, p: nat, present: set<Edge>, drift: nat) {
    EdgesAt(i, p) == present && CountAt(i, p) == |present| + drift
  }

  lemma AddDrifts(i: Predicates, p: nat, present: set<Edge>, drift: nat, q: nat, e: Edge)
    requires Drifted(i, p, present, drift)
    ensures Drifted(AddEdge(i, q, e), p, if q == p then present + {e} else present,
                    if q == p && e in present then drift + 1 else drift)
  {
    if q == p && e in present { assert present + {e} == present; }
  }

  lemma RemoveDrifts(i: Predicates, p: nat, present: set<Edge>, drift: nat, q: nat, e: Edge)
    requires Drifted(i, p, present, drift) && Balanced(i)
    ensures Drifted(RemoveEdge(i, q, e), p, if q == p then present - {e} else present, drift)
  {
    if q == p && e in present {
      assert present == (present - {e}) + {e} && |present| == |present - {e}| + 1;
    } else if q == p {
      assert present - {e} == present;
    }
  }

  /** Over every run the index holds exactly the present edges, and each count exceeds them by
      exactly the number of re-additions: it is right if and only if there were none. */
  lemma {:induction false} CountsDriftByReAdding(cs: seq<Change>, p: nat)
    ensures Drifted(RunChanges(cs), p, Present(cs, p), ReAdded(cs, p))
  {
    if cs != [] {
      var before, c := cs[..|cs| - 1], cs[|cs| - 1];
      CountsDriftByReAdding(before, p);
      match c
      case Add(q, e) => AddDrifts(RunChanges(before), p, Present(before, p), ReAdded(before, p), q, e);
      case Remove(q, e) =>
        RunBalanced(before);
        RemoveDrifts(RunChanges(before), p, Present(before, p), ReAdded(before, p), q, e);
      case Clear =>
    }
  }

  // ----- selectivity

  function Selectivity(i: Predicates, p: nat): real {
    if i.total == 0 then 1.0 else CountAt(i, p) as real / i.total as real
  }

  ghost function SumOfSelectivities(i: Predicates, counts: map<nat, nat>): real
    decreases |counts|
  {
    if counts == map[] then 0.0 else
      var p :| p in counts;
      RemoveSmaller(counts, p);
      Selectivity(i, p) + SumOfSelectivities(i, counts - {p})
  }

  lemma {:induction false} SelectivitiesAre(i: Predicates, counts: map<nat, nat>)
    requires i.total > 0 && forall p :: p in counts ==> p in i.counts && i.counts[p] == counts[p]
    ensures SumOfSelectivities(i, counts) == Sum(counts) as real / i.total as real
    decreases |counts|
  {
    if counts != map[] {
      var p :| p in counts && SumOfSelectivities(i, counts) == Selectivity(i, p) + SumOfSelectivities(i, counts - {p});
      RemoveSmaller(counts, p);
      SelectivitiesAre(i, counts - {p});
      SumWithout(counts, p);
      AddFractions(counts[p] as real, Sum(counts - {p}) as real, i.total as real);
      assert Selectivity(i, p) == counts[p] as real / i.total as real;
      assert Sum(counts) as real == counts[p] as real + Sum(counts - {p}) as real;
    } else {
      assert Sum(counts) == 0;
      ZeroFraction(i.total as real);
    }
  }

  lemma ZeroFraction(d: real)
    requires d > 0.0
    ensures 0.0 / d == 0.0 && d / d == 1.0
  {
  }

  lemma AddFractions(a: real, b: real, d: real)
    requires d > 0.0
    ensures a / d + b / d == (a + b) / d
  {
  }

  /** In every reachable index that is not empty, the selectivities of the predicates sum to one. */
  lemma SelectivitiesSumToOne(cs: seq<Change>)
    requires RunChanges(cs).total > 0
    ensures SumOfSelectivities(RunChanges(cs), RunChanges(cs).counts) == 1.0
  {
    var i := RunChanges(cs);
    RunBalanced(cs);
    SelectivitiesAre(i, i.counts);
    ZeroFraction(i.total as real);
  }

  /** A predicate's selectivity is its share of the triples; in an empty index no predicate rules anything out. */
  lemma SelectivityIsShare(i: Predicates, p: nat)
    ensures i.total > 0 ==> Selectivity(i, p) * i.total as real == CountAt(i, p) as real
    ensures i.total == 0 ==> Selectivity(i, p) == 1.0
  {
  }

  class PredicateIndex {
    var edges: map<nat, set<Edge>>
    var counts: map<nat, nat>
    var total: nat

    function State(): Predicates
      reads this
    {
      Predicates(edges, counts, total)
    }

    constructor ()
      ensures State() == NO_PREDICATES
    {
      edges, counts, total := map[], map[], 0;
    }

    method AddTriple(p: nat, s: nat, o: nat)
      modifies this
      ensures State() == AddEdge(old(State()), p, (s, o))
    {
      edges := edges[p := (if p in edges then edges[p] else {}) + {(s, o)}];
      counts := counts[p := (if p in counts then counts[p] else 0) + 1];
      total := total + 1;
    }

    method RemoveTriple(p: nat, s: nat, o: nat)
      modifies this
      ensures State() == RemoveEdge(old(State()), p, (s, o))
    {
      if p !in edges || (s, o) !in edges[p] { return; }
      var left := edges[p] - {(s, o)};
      edges := if left == {} then edges - {p} else edges[p := left];
      if p in counts {
        var count := SaturatingDec(counts[p]);
        counts := if count == 0 then counts - {p} else counts[p := count];
      }
      total := SaturatingDec(total);
    }

    method ClearAll()
      modifies this
      ensures State() == NO_PREDICATES
    {
      edges, counts, total := map[], map[], 0;
    }
  }
}
