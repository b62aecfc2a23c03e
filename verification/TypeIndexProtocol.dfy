/** The type index used by many threads (storage/src/index.rs). Its two maps sit behind two locks, and a
    call holds one at a time: additions, removals of one assertion and clears take the map from types
    first, the removal of a subject takes the map from subjects first and then visits only the types
    it found there. Calls may interleave between the two halves. */
module TypeIndexProtocol {
  import opened Indexes

  /** The part of a call under one of the locks; calls are known by their index. */
  datatype Half = OnTypeMap(call: nat) | OnSubjectMap(call: nat)

  /** The maps, and what each removal of a subject found. */
  datatype Shared = Shared(types: Sets, subjects: Sets, found: map<nat, set<nat>>)

  /** Takes x out of the sets of the keys ks. */
  function DropFrom(m: Sets, ks: set<nat>, x: nat): Sets {
    map k | k in m && (k in ks ==> m[k] - {x} != {}) :: if k in ks then m[k] - {x} else m[k]
  }

  function SetOf(m: Sets, k: nat): set<nat> {
    if k in m then m[k] else {}
  }

  function FoundBy(st: Shared, call: nat): set<nat> {
    if call in st.found then st.found[call] else {}
  }

  function Step(calls: seq<TypeChange>, st: Shared, h: Half): Shared
    requires h.call < |calls|
  {
    var c := calls[h.call];
    if h.OnSubjectMap? then
      Shared(st.types, OnSubjects(st.subjects, c),
             if c.RemoveTypesOf? then st.found[h.call := SetOf(st.subjects, c.subj)] else st.found)
    else if c.RemoveTypesOf? then st.(types := DropFrom(st.types, FoundBy(st, h.call), c.subj))
    else st.(types := OnTypes(st.types, c))
  }

  predicate Halves(calls: seq<TypeChange>, schedule: seq<Half>) {
    forall i :: 0 <= i < |schedule| ==> schedule[i].call < |calls|
  }

  function Run(calls: seq<TypeChange>, start: Shared, schedule: seq<Half>): Shared
    requires Halves(calls, schedule)
  {
    if schedule == [] then start
    else Step(calls, Run(calls, start, schedule[..|schedule| - 1]), schedule[|schedule| - 1])
  }

  // ----- one assertion, followed without the index

  /** Whether each map holds the assertion, and the calls that found it in the map from subjects. */
  datatype Seen = Seen(onTypes: bool, onSubjects: bool, finders: set<nat>)

  function Follow(calls: seq<TypeChange>, x: Seen, h: Half, s: nat, t: nat): Seen
    requires h.call < |calls|
  {
    var c := calls[h.call];
    if h.OnSubjectMap? then
      Seen(x.onTypes, HoldsAfter(x.onSubjects, c, s, t),
           if c != RemoveTypesOf(s) then x.finders
           else if x.onSubjects then x.finders + {h.call} else x.finders - {h.call})
    else if c == RemoveTypesOf(s) then x.(onTypes := x.onTypes && h.call !in x.finders)
    else if c.RemoveTypesOf? then x
    else x.(onTypes := HoldsAfter(x.onTypes, c, s, t))
  }

  function FollowAll(calls: seq<TypeChange>, was: bool, schedule: seq<Half>, s: nat, t: nat): Seen
    requires Halves(calls, schedule)
  {
    if schedule == [] then Seen(was, was, {})
    else Follow(calls, FollowAll(calls, was, schedule[..|schedule| - 1], s, t), schedule[|schedule| - 1], s, t)
  }

  /** What the maps show of the assertion that s is a t. */
  ghost predicate Shows(calls: seq<TypeChange>, st: Shared, x: Seen, s: nat, t: nat) {
    && (Has(st.types, t, s) <==> x.onTypes)
    && (Has(st.subjects, s, t) <==> x.onSubjects)
    && forall i: nat :: i < |calls| && calls[i] == RemoveTypesOf(s) ==> (t in FoundBy(st, i) <==> i in x.finders)
  }

  lemma DropFromHas(m: Sets, ks: set<nat>, x: nat)
    ensures forall j: nat, y: nat :: Has(DropFrom(m, ks, x), j, y) <==> Has(m, j, y) && !(j in ks && y == x)
    ensures NoEmptySets(m) ==> NoEmptySets(DropFrom(m, ks, x))
  {
    forall j: nat, y: nat | Has(m, j, y) && !(j in ks && y == x) ensures Has(DropFrom(m, ks, x), j, y) {
      assert j in ks ==> y in m[j] - {x};
    }
  }

  lemma StepShows(calls: seq<TypeChange>, st: Shared, x: Seen, h: Half, s: nat, t: nat)
    requires h.call < |calls| && Shows(calls, st, x, s, t) && NoEmptySets(st.types) && NoEmptySets(st.subjects)
    ensures Shows(calls, Step(calls, st, h), Follow(calls, x, h, s, t), s, t)
  {
    var c := calls[h.call];
    if h.OnTypeMap? && c.RemoveTypesOf? {
      DropFromHas(st.types, FoundBy(st, h.call), c.subj);
    } else {
      OneChange(st.types, st.subjects, c);
    }
  }

  lemma StepKeepsFull(calls: seq<TypeChange>, st: Shared, h: Half)
    requires h.call < |calls| && NoEmptySets(st.types) && NoEmptySets(st.subjects)
    ensures NoEmptySets(Step(calls, st, h).types) && NoEmptySets(Step(calls, st, h).subjects)
  {
    DropFromHas(st.types, FoundBy(st, h.call), if calls[h.call].RemoveTypesOf? then calls[h.call].subj else 0);
    OneChange(st.types, st.subjects, calls[h.call]);
  }

  /** In every schedule, each map holds an assertion exactly if following it alone says so. */
  lemma {:induction false} RunShows(calls: seq<TypeChange>, a: Sets, b: Sets, schedule: seq<Half>, s: nat, t: nat)
    requires Halves(calls, schedule) && Transposed(a, b)
    ensures var st := Run(calls, Shared(a, b, map[]), schedule);
      NoEmptySets(st.types) && NoEmptySets(st.subjects)
      && Shows(calls, st, FollowAll(calls, Has(a, t, s), schedule, s, t), s, t)
  {
    if schedule == [] {
      assert Has(a, t, s) <==> Has(b, s, t);
    } else {
      var before, h := schedule[..|schedule| - 1], schedule[|schedule| - 1];
      RunShows(calls, a, b, before, s, t);
      var st := Run(calls, Shared(a, b, map[]), before);
      StepShows(calls, st, FollowAll(calls, Has(a, t, s), before, s, t), h, s, t);
      StepKeepsFull(calls, st, h);
    }
  }

  /** Whatever calls run, and however their halves interleave, the maps agree if and only if, for every
      assertion followed alone, the two halves leave it alike. */
  lemma SchedulesExact(calls: seq<TypeChange>, a: Sets, b: Sets, schedule: seq<Half>)
    requires Halves(calls, schedule) && Transposed(a, b)
    ensures var st := Run(calls, Shared(a, b, map[]), schedule);
      Transposed(st.types, st.subjects) <==>
      forall s: nat, t: nat :: var x := FollowAll(calls, Has(a, t, s), schedule, s, t); x.onTypes == x.onSubjects
  {
    var st := Run(calls, Shared(a, b, map[]), schedule);
    RunShows(calls, a, b, schedule, 0, 0);
    forall s: nat, t: nat
      ensures Has(st.types, t, s) <==> FollowAll(calls, Has(a, t, s), schedule, s, t).onTypes
      ensures Has(st.subjects, s, t) <==> FollowAll(calls, Has(a, t, s), schedule, s, t).onSubjects
    {
      RunShows(calls, a, b, schedule, s, t);
    }
  }

  // ----- calls one after the other

  /** The halves of a call in the order in which it takes the locks. */
  function FirstHalf(c: TypeChange, call: nat): Half {
    if c.RemoveTypesOf? then OnSubjectMap(call) else OnTypeMap(call)
  }

  function SecondHalf(c: TypeChange, call: nat): Half {
    if c.RemoveTypesOf? then OnTypeMap(call) else OnSubjectMap(call)
  }

  function Serial(calls: seq<TypeChange>): (r: seq<Half>)
    ensures Halves(calls, r)
  {
    if calls == [] then []
    else
      var n := |calls| - 1;
      Serial(calls[..n]) + [FirstHalf(calls[n], n), SecondHalf(calls[n], n)]
  }

  lemma FollowTwo(calls: seq<TypeChange>, was: bool, before: seq<Half>, h: Half, k: Half, s: nat, t: nat)
    requires Halves(calls, before) && h.call < |calls| && k.call < |calls|
    ensures Halves(calls, before + [h, k])
    ensures FollowAll(calls, was, before + [h, k], s, t)
         == Follow(calls, Follow(calls, FollowAll(calls, was, before, s, t), h, s, t), k, s, t)
  {
    var one, two := before + [h], before + [h, k];
    assert one[..|before|] == before && two[..|before| + 1] == one;
    assert two[|before| + 1] == k && one[|before|] == h;
  }

  lemma {:induction false} FollowMoreCalls(calls: seq<TypeChange>, more: seq<TypeChange>, was: bool, schedule: seq<Half>, s: nat, t: nat)
    requires Halves(calls, schedule)
    ensures Halves(calls + more, schedule) && FollowAll(calls + more, was, schedule, s, t) == FollowAll(calls, was, schedule, s, t)
  {
    if schedule != [] { FollowMoreCalls(calls, more, was, schedule[..|schedule| - 1], s, t); }
  }

  /** One after the other, the calls leave an assertion as their changes say, in both maps. */
  lemma {:induction false} SerialFollows(calls: seq<TypeChange>, was: bool, s: nat, t: nat)
    ensures var x := FollowAll(calls, was, Serial(calls), s, t);
      x.onTypes == x.onSubjects == Asserted(was, calls, s, t)
  {
    if calls != [] {
      var n := |calls| - 1;
      var before, c := calls[..n], calls[n];
      SerialFollows(before, was, s, t);
      assert calls == before + [c];
      FollowMoreCalls(before, [c], was, Serial(before), s, t);
      FollowTwo(calls, was, Serial(before), FirstHalf(c, n), SecondHalf(c, n), s, t);
    }
  }

  /** Calls that do not overlap keep the maps in agreement. */
  lemma SerialAgrees(calls: seq<TypeChange>, a: Sets, b: Sets)
    requires Transposed(a, b)
    ensures var st := Run(calls, Shared(a, b, map[]), Serial(calls)); Transposed(st.types, st.subjects)
  {
    SchedulesExact(calls, a, b, Serial(calls));
    forall s: nat, t: nat
      ensures var x := FollowAll(calls, Has(a, t, s), Serial(calls), s, t); x.onTypes == x.onSubjects
    {
      SerialFollows(calls, Has(a, t, s), s, t);
    }
  }

  // ----- two calls at the same time

  /** The six ways in which two calls can interleave. */
  function Interleavings(p: TypeChange, q: TypeChange): set<seq<Half>> {
    var p1, p2, q1, q2 := FirstHalf(p, 0), SecondHalf(p, 0), FirstHalf(q, 1), SecondHalf(q, 1);
    {[p1, p2, q1, q2], [p1, q1, p2, q2], [p1, q1, q2, p2], [q1, p1, p2, q2], [q1, p1, q2, p2], [q1, q2, p1, p2]}
  }

  /** How many halves run before h. */
  function Position(schedule: seq<Half>, h: Half): nat {
    if schedule == [] || schedule[0] == h then 0 else 1 + Position(schedule[1..], h)
  }

  predicate Before(schedule: seq<Half>, h: Half, k: Half) {
    Position(schedule, h) < Position(schedule, k)
  }

  /** The two calls meet the two maps in opposite orders. */
  predicate Crossed(schedule: seq<Half>) {
    Before(schedule, OnTypeMap(0), OnTypeMap(1)) != Before(schedule, OnSubjectMap(0), OnSubjectMap(1))
  }

  /** c takes away the assertion that s is a t; a removal of the subject only if it was there before. */
  predicate TakesAway(c: TypeChange, was: bool, s: nat, t: nat) {
    c == RemoveTypeOf(s, t) || c == ClearTypes || (c == RemoveTypesOf(s) && was)
  }

  /** One of the two adds an assertion that the other takes away. */
  predicate Conflict(p: TypeChange, q: TypeChange, was: bool, s: nat, t: nat) {
    (p == AddTypeOf(s, t) && TakesAway(q, was, s, t)) || (q == AddTypeOf(s, t) && TakesAway(p, was, s, t))
  }

  lemma FollowFour(calls: seq<TypeChange>, was: bool, h: Half, i: Half, j: Half, k: Half, s: nat, t: nat)
    requires {h.call, i.call, j.call, k.call} <= {0, 1} && |calls| == 2
    ensures Halves(calls, [h, i, j, k])
    ensures var x := Follow(calls, Follow(calls, Seen(was, was, {}), h, s, t), i, s, t);
      FollowAll(calls, was, [h, i, j, k], s, t) == Follow(calls, Follow(calls, x, j, s, t), k, s, t)
  {
    assert h.call in {0, 1} && i.call in {0, 1} && j.call in {0, 1} && k.call in {0, 1};
    var none: seq<Half> := [];
    assert none + [h, i] == [h, i] && [h, i] + [j, k] == [h, i, j, k];
    FollowTwo(calls, was, none, h, i, s, t);
    FollowTwo(calls, was, [h, i], j, k, s, t);
  }

  lemma PositionOfFour(h: Half, i: Half, j: Half, k: Half, x: Half)
    ensures Position([h, i, j, k], x) == if x == h then 0 else if x == i then 1 else if x == j then 2 else if x == k then 3 else 4
  {
    assert [h, i, j, k][1..] == [i, j, k] && [i, j, k][1..] == [j, k] && [j, k][1..] == [k] && [k][1..] == [];
    assert Position([k], x) == (if x == k then 0 else 1 + Position([], x));
    assert Position([j, k], x) == (if x == j then 0 else 1 + Position([k], x));
    assert Position([i, j, k], x) == (if x == i then 0 else 1 + Position([j, k], x));
  }

  lemma FourCrossed(h: Half, i: Half, j: Half, k: Half)
    requires h != i && h != j && h != k && i != j && i != k && j != k
    requires {h, i, j, k} == {OnTypeMap(0), OnTypeMap(1), OnSubjectMap(0), OnSubjectMap(1)}
    ensures Crossed([h, i, j, k]) <==>
      (if h.OnTypeMap? then h.call else if i.OnTypeMap? then i.call else j.call)
      != (if h.OnSubjectMap? then h.call else if i.OnSubjectMap? then i.call else j.call)
  {
    assert h in {h, i, j, k} && i in {h, i, j, k} && j in {h, i, j, k} && k in {h, i, j, k};
    PositionOfFour(h, i, j, k, OnTypeMap(0));
    PositionOfFour(h, i, j, k, OnTypeMap(1));
    PositionOfFour(h, i, j, k, OnSubjectMap(0));
    PositionOfFour(h, i, j, k, OnSubjectMap(1));
  }

  /** What a call means for one assertion. */
  datatype Kind = Adds | Clears | Empties | Ignores

  function KindOf(c: TypeChange, s: nat, t: nat): Kind {
    match c
    case AddTypeOf(s', t') => if s' == s && t' == t then Adds else Ignores
    case RemoveTypeOf(s', t') => if s' == s && t' == t then Clears else Ignores
    case RemoveTypesOf(s') => if s' == s then Empties else Ignores
    case ClearTypes => Clears
  }

  function FollowKind(k: Kind, x: Seen, h: Half): Seen {
    match k
    case Adds => if h.OnTypeMap? then x.(onTypes := true) else x.(onSubjects := true)
    case Clears => if h.OnTypeMap? then x.(onTypes := false) else x.(onSubjects := false)
    case Empties =>
      if h.OnTypeMap? then x.(onTypes := x.onTypes && h.call !in x.finders)
      else Seen(x.onTypes, false, if x.onSubjects then x.finders + {h.call} else x.finders - {h.call})
    case Ignores => x
  }

  lemma FollowIsKind(calls: seq<TypeChange>, x: Seen, h: Half, s: nat, t: nat)
    requires h.call < |calls|
    ensures Follow(calls, x, h, s, t) == FollowKind(KindOf(calls[h.call], s, t), x, h)
  {
  }

  function FollowEither(kp: Kind, kq: Kind, x: Seen, h: Half): Seen {
    FollowKind(if h.call == 0 then kp else kq, x, h)
  }

  function FourKinds(kp: Kind, kq: Kind, was: bool, h: Half, i: Half, j: Half, k: Half): Seen {
    FollowEither(kp, kq, FollowEither(kp, kq, FollowEither(kp, kq, FollowEither(kp, kq, Seen(was, was, {}), h), i), j), k)
  }

  /** The order of the halves of a call of this kind; others may take the locks either way. */
  predicate Fits(k: Kind, first: Half, second: Half, call: nat) {
    && {first, second} == {OnTypeMap(call), OnSubjectMap(call)}
    && (k == Empties ==> first == OnSubjectMap(call)) && (k == Adds || k == Clears ==> first == OnTypeMap(call))
  }

  predicate KindConflict(kp: Kind, kq: Kind, was: bool) {
    (kp == Adds && (kq == Clears || (kq == Empties && was))) || (kq == Adds && (kp == Clears || (kp == Empties && was)))
  }

  lemma FourKindsAgree(kp: Kind, kq: Kind, was: bool, h: Half, i: Half, j: Half, k: Half, p1: Half, p2: Half, q1: Half, q2: Half)
    requires Fits(kp, p1, p2, 0) && Fits(kq, q1, q2, 1)
    requires [h, i, j, k] in {[p1, p2, q1, q2], [p1, q1, p2, q2], [p1, q1, q2, p2], [q1, p1, p2, q2], [q1, p1, q2, p2], [q1, q2, p1, p2]}
    ensures var x := FourKinds(kp, kq, was, h, i, j, k);
      x.onTypes == x.onSubjects <==> !(Crossed([h, i, j, k]) && KindConflict(kp, kq, was))
  {
    assert p1 in {p1, p2} && p2 in {p1, p2} && q1 in {q1, q2} && q2 in {q1, q2};
    var schedule := [h, i, j, k];
    assert h == schedule[0] && i == schedule[1] && j == schedule[2] && k == schedule[3];
    FourCrossed(h, i, j, k);
  }

  lemma TwoCallsAreKinds(p: TypeChange, q: TypeChange, was: bool, h: Half, i: Half, j: Half, k: Half, s: nat, t: nat)
    requires {h.call, i.call, j.call, k.call} <= {0, 1}
    ensures Halves([p, q], [h, i, j, k])
    ensures FollowAll([p, q], was, [h, i, j, k], s, t) == FourKinds(KindOf(p, s, t), KindOf(q, s, t), was, h, i, j, k)
  {
    var calls := [p, q];
    assert h.call in {h.call, i.call, j.call, k.call} && i.call in {h.call, i.call, j.call, k.call};
    assert j.call in {h.call, i.call, j.call, k.call} && k.call in {h.call, i.call, j.call, k.call};
    FollowFour(calls, was, h, i, j, k, s, t);
    var x0 := Seen(was, was, {});
    FollowIsKind(calls, x0, h, s, t);
    var x1 := Follow(calls, x0, h, s, t);
    FollowIsKind(calls, x1, i, s, t);
    var x2 := Follow(calls, x1, i, s, t);
    FollowIsKind(calls, x2, j, s, t);
    FollowIsKind(calls, Follow(calls, x2, j, s, t), k, s, t);
  }

  lemma CallFits(c: TypeChange, call: nat, s: nat, t: nat)
    ensures Fits(KindOf(c, s, t), FirstHalf(c, call), SecondHalf(c, call), call)
  {
  }

  lemma ConflictIsKind(p: TypeChange, q: TypeChange, was: bool, s: nat, t: nat)
    ensures Conflict(p, q, was, s, t) <==> KindConflict(KindOf(p, s, t), KindOf(q, s, t), was)
  {
  }

  lemma InterleavingHalves(p: TypeChange, q: TypeChange, schedule: seq<Half>)
    requires schedule in Interleavings(p, q)
    ensures |schedule| == 4 && forall n :: 0 <= n < 4 ==> schedule[n].call in {0, 1}
  {
  }

  /** Followed alone, an assertion comes out alike unless the calls cross and one adds what the other takes away. */
  lemma TwoCallsFollow(p: TypeChange, q: TypeChange, was: bool, schedule: seq<Half>, s: nat, t: nat)
    requires schedule in Interleavings(p, q)
    ensures Halves([p, q], schedule)
    ensures var x := FollowAll([p, q], was, schedule, s, t);
      x.onTypes == x.onSubjects <==> !(Crossed(schedule) && Conflict(p, q, was, s, t))
  {
    InterleavingHalves(p, q, schedule);
    var h, i, j, k := schedule[0], schedule[1], schedule[2], schedule[3];
    assert schedule == [h, i, j, k];
    TwoCallsAreKinds(p, q, was, h, i, j, k, s, t);
    CallFits(p, 0, s, t);
    CallFits(q, 1, s, t);
    ConflictIsKind(p, q, was, s, t);
    FourKindsAgree(KindOf(p, s, t), KindOf(q, s, t), was, h, i, j, k,
                   FirstHalf(p, 0), SecondHalf(p, 0), FirstHalf(q, 1), SecondHalf(q, 1));
  }

  /** Any two calls at the same time, in any interleaving their locks allow: the maps agree afterwards if
      and only if the calls do not cross, or neither adds an assertion that the other takes away. A
      removal of a subject takes away only what was there before both. */
  lemma TwoCallsExact(p: TypeChange, q: TypeChange, a: Sets, b: Sets, schedule: seq<Half>)
    requires Transposed(a, b) && schedule in Interleavings(p, q)
    ensures Halves([p, q], schedule)
    ensures var st := Run([p, q], Shared(a, b, map[]), schedule);
      Transposed(st.types, st.subjects)
      <==> !Crossed(schedule) || forall s: nat, t: nat :: !Conflict(p, q, Has(a, t, s), s, t)
  {
    forall s: nat, t: nat
      ensures Halves([p, q], schedule)
      ensures var x := FollowAll([p, q], Has(a, t, s), schedule, s, t);
        x.onTypes == x.onSubjects <==> !(Crossed(schedule) && Conflict(p, q, Has(a, t, s), s, t))
    {
      TwoCallsFollow(p, q, Has(a, t, s), schedule, s, t);
    }
    InterleavingHalves(p, q, schedule);
    SchedulesExact([p, q], a, b, schedule);
  }

  /** While a removal of s is between its halves, adding a new type t to s does no harm; adding one that
      s had leaves it in one map only. */
  lemma AddDuringRemoval(s: nat, t: nat, a: Sets, b: Sets)
    requires Transposed(a, b)
    ensures var schedule := [OnSubjectMap(0), OnTypeMap(1), OnSubjectMap(1), OnTypeMap(0)];
      Halves([RemoveTypesOf(s), AddTypeOf(s, t)], schedule)
      && var st := Run([RemoveTypesOf(s), AddTypeOf(s, t)], Shared(a, b, map[]), schedule);
         Transposed(st.types, st.subjects) <==> !Has(a, t, s)
  {
    var p, q := RemoveTypesOf(s), AddTypeOf(s, t);
    var schedule := [OnSubjectMap(0), OnTypeMap(1), OnSubjectMap(1), OnTypeMap(0)];
    assert schedule in Interleavings(p, q);
    TwoCallsExact(p, q, a, b, schedule);
    FourCrossed(OnSubjectMap(0), OnTypeMap(1), OnSubjectMap(1), OnTypeMap(0));
    assert Conflict(p, q, Has(a, t, s), s, t) <==> Has(a, t, s);
  }
}
