/** The query plan cache: an LRU cache keyed by the hash of the normalized query
    (storage/src/cache.rs). */
module QueryPlanCache {
  import opened Common
  import L = LruCache

  // ----- normalization

  /** The length of the word s starts with. */
  function WordLength(s: string): (n: nat)
    ensures n <= |s| && (forall i :: 0 <= i < n ==> !IsWhitespace(s[i])) && (n < |s| ==> IsWhitespace(s[n]))
  {
    if s == "" || IsWhitespace(s[0]) then 0 else 1 + WordLength(s[1..])
  }

  /** split_whitespace: the maximal runs of other characters. */
  function Words(s: string): seq<string>
    decreases |s|
  {
    if s == "" then []
    else if IsWhitespace(s[0]) then Words(s[1..])
    else [s[..WordLength(s)]] + Words(s[WordLength(s)..])
  }

  function Spaced(words: seq<string>): string {
    if words == [] then "" else if |words| == 1 then words[0] else words[0] + " " + Spaced(words[1..])
  }

  function Normalize(query: string): string {
    Spaced(Words(query))
  }

  predicate IsWord(w: string) {
    w != "" && forall i :: 0 <= i < |w| ==> !IsWhitespace(w[i])
  }

  lemma {:induction false} WordsAreWords(s: string)
    ensures forall w :: w in Words(s) ==> IsWord(w)
    decreases |s|
  {
    if s != "" {
      WordsAreWords(s[if IsWhitespace(s[0]) then 1 else WordLength(s)..]);
    }
  }

  lemma {:induction false} WordThen(w: string, rest: string)
    requires forall i :: 0 <= i < |w| ==> !IsWhitespace(w[i])
    requires rest == "" || IsWhitespace(rest[0])
    ensures WordLength(w + rest) == |w|
  {
    if w == "" {
      assert w + rest == rest;
    } else {
      assert (w + rest)[1..] == w[1..] + rest;
      WordThen(w[1..], rest);
    }
  }

  lemma {:induction false} WordsOfSpaced(words: seq<string>)
    requires forall w :: w in words ==> IsWord(w)
    ensures Words(Spaced(words)) == words
  {
    if words != [] {
      var w, text := words[0], Spaced(words);
      assert w in words && w != "";
      if |words| == 1 {
        WordThen(w, "");
        assert w + "" == w && text[|w|..] == "";
      } else {
        var rest := " " + Spaced(words[1..]);
        WordThen(w, rest);
        assert text == w + rest && text[..|w|] == w && text[|w|..] == rest;
        WordsOfSpaced(words[1..]);
        assert rest[1..] == Spaced(words[1..]);
      }
    }
  }

  /** Normalizing twice is normalizing once; two queries share a text exactly when they have the
      same words. */
  lemma NormalizeIdempotent(a: string, b: string)
    ensures Normalize(Normalize(a)) == Normalize(a)
    ensures Normalize(a) == Normalize(b) <==> Words(a) == Words(b)
  {
    WordsAreWords(a);
    WordsAreWords(b);
    WordsOfSpaced(Words(a));
    WordsOfSpaced(Words(b));
  }

  lemma WordsStep(s: string)
    requires s != ""
    ensures Words(s) == if IsWhitespace(s[0]) then Words(s[1..]) else [s[..WordLength(s)]] + Words(s[WordLength(s)..])
  {
  }

  /** A word followed by whitespace is read off first. */
  lemma WordFirst(w: string, after: string)
    requires IsWord(w) && after != "" && IsWhitespace(after[0])
    ensures Words(w + after) == [w] + Words(after)
  {
    WordThen(w, after);
    WordsStep(w + after);
    assert (w + after)[..|w|] == w && (w + after)[|w|..] == after;
  }

  lemma {:induction false} WordsAroundSpace(a: string, rest: string)
    requires rest != "" && IsWhitespace(rest[0])
    ensures Words(a + rest) == Words(a) + Words(rest[1..])
    decreases |a|
  {
    if a == "" {
      assert a + rest == rest;
    } else if IsWhitespace(a[0]) {
      assert (a + rest)[1..] == a[1..] + rest;
      WordsAroundSpace(a[1..], rest);
    } else {
      var n := WordLength(a);
      WordsAroundSpace(a[n..], rest);
      WordThenRest(a[..n], a[n..], rest);
      assert a == a[..n] + a[n..];
    }
  }

  lemma WordThenRest(w: string, a: string, rest: string)
    requires IsWord(w) && (a == "" || IsWhitespace(a[0])) && rest != "" && IsWhitespace(rest[0])
    ensures Words(w + a + rest) == [w] + Words(a + rest) && Words(w + a) == [w] + Words(a)
  {
    assert w + a + rest == w + (a + rest);
    WordFirst(w, a + rest);
    if a == "" {
      WordThen(w, "");
      assert w + a == w && w[..|w|] == w && w[|w|..] == "";
      WordsStep(w);
    } else {
      WordFirst(w, a);
    }
  }

  /** Whitespace is collapsed everywhere, string literals included: two queries that differ only
      in the number of spaces inside a literal share one cache slot. */
  lemma SpacesInLiteralsConflated(a: string, b: string)
    ensures Normalize(a + "  " + b) == Normalize(a + " " + b)
  {
    assert a + "  " + b == a + ("  " + b) && a + " " + b == a + (" " + b);
    WordsAroundSpace(a, "  " + b);
    WordsAroundSpace(a, " " + b);
    assert ("  " + b)[1..] == " " + b && (" " + b)[1..] == b;
  }

  // ----- the cache

  datatype Plan = Plan(query: string, statements: seq<string>, cost: real, hits: nat)

  datatype Call =
    | GetPlan(query: string)
    | InsertPlan(query: string, statements: seq<string>, cost: real)
    | Invalidate(query: string)
    | ClearPlans
    | EvictPlans

  datatype TimedCall = TimedCall(call: Call, now: nat)

  function NewPlan(query: string, statements: seq<string>, cost: real): Plan {
    Plan(Normalize(query), statements, cost, 0)
  }

  /** What each call does to the LRU cache below, for any hash function. */
  function Lowered(call: Call, hash: string -> nat): L.Op<nat, Plan> {
    match call
    case GetPlan(q) => L.Get(hash(Normalize(q)))
    case InsertPlan(q, statements, cost) => L.Insert(hash(Normalize(q)), NewPlan(q, statements, cost))
    case Invalidate(q) => L.Remove(hash(Normalize(q)))
    case ClearPlans => L.Clear
    case EvictPlans => L.EvictExpired
  }

  function LoweredAll(calls: seq<TimedCall>, hash: string -> nat): (ops: seq<L.Timestamped<nat, Plan>>)
    ensures |ops| == |calls|
  {
    if calls == [] then []
    else LoweredAll(calls[..|calls| - 1], hash)
         + [L.At(Lowered(calls[|calls| - 1].call, hash), calls[|calls| - 1].now)]
  }

  ghost function PlansAfter(calls: seq<TimedCall>, hash: string -> nat, capacity: nat, ttl: Option<nat>): map<nat, L.Entry<Plan>> {
    L.RunOps(LoweredAll(calls, hash), capacity, ttl)
  }

  function Found(entries: map<nat, L.Entry<Plan>>, query: string, hash: string -> nat, now: nat, ttl: Option<nat>): Option<Plan> {
    var hit := L.Lookup(entries, hash(Normalize(query)), now, ttl);
    if hit.Some? && hit.value.query == Normalize(query) then hit else None
  }

  /** The plain meaning: the latest plan inserted for each normalized text, not invalidated or cleared since. */
  function Latest(calls: seq<TimedCall>): map<string, Plan> {
    if calls == [] then map[]
    else
      var before := Latest(calls[..|calls| - 1]);
      match calls[|calls| - 1].call
      case InsertPlan(q, statements, cost) => before[Normalize(q) := NewPlan(q, statements, cost)]
      case Invalidate(q) => before - {Normalize(q)}
      case ClearPlans => map[]
      case _ => before
  }

  /** Every cached plan sits under its own hash and is the latest for its text. */
  ghost predicate Agrees(entries: map<nat, L.Entry<Plan>>, latest: map<string, Plan>, hash: string -> nat) {
    forall h :: h in entries ==>
      var plan := entries[h].value;
      hash(plan.query) == h && plan.query in latest && latest[plan.query] == plan
  }

  lemma {:induction false} PlansAgree(calls: seq<TimedCall>, hash: string -> nat, capacity: nat, ttl: Option<nat>)
    ensures Agrees(PlansAfter(calls, hash, capacity, ttl), Latest(calls), hash)
  {
    if calls != [] {
      var before, last := calls[..|calls| - 1], calls[|calls| - 1];
      PlansAgree(before, hash, capacity, ttl);
      var ops := LoweredAll(calls, hash);
      assert ops[..|ops| - 1] == LoweredAll(before, hash);
      AgreesAfter(PlansAfter(before, hash, capacity, ttl), Latest(before), last, hash, capacity, ttl, Latest(calls));
    }
  }

  lemma AgreesAfter(entries: map<nat, L.Entry<Plan>>, latest: map<string, Plan>, c: TimedCall, hash: string -> nat,
                    capacity: nat, ttl: Option<nat>, next: map<string, Plan>)
    requires Agrees(entries, latest, hash)
    requires next ==
      if c.call.InsertPlan? then latest[Normalize(c.call.query) := NewPlan(c.call.query, c.call.statements, c.call.cost)]
      else if c.call.Invalidate? then latest - {Normalize(c.call.query)}
      else if c.call.ClearPlans? then map[] else latest
    ensures Agrees(L.After(entries, Lowered(c.call, hash), c.now, capacity, ttl), next, hash)
  {
  }

  /** Over every run and every hash function, collisions, evictions and expiries included, a plan
      that get returns is the one most recently inserted for the same normalized text. */
  lemma {:induction false} PlanIsLatest(calls: seq<TimedCall>, hash: string -> nat, capacity: nat, ttl: Option<nat>, query: string, now: nat)
    ensures var plan := Found(PlansAfter(calls, hash, capacity, ttl), query, hash, now, ttl);
      plan.Some? ==> Normalize(query) in Latest(calls) && plan.value == Latest(calls)[Normalize(query)]
  {
    PlansAgree(calls, hash, capacity, ttl);
  }

  /** The normalized texts a run names. */
  function Texts(calls: seq<TimedCall>): set<string> {
    if calls == [] then {}
    else
      var last := calls[|calls| - 1].call;
      Texts(calls[..|calls| - 1]) + if last.ClearPlans? || last.EvictPlans? then {} else {Normalize(last.query)}
  }

  ghost predicate CollisionFree(hash: string -> nat, texts: set<string>) {
    forall a, b :: a in texts && b in texts && hash(a) == hash(b) ==> a == b
  }

  function Hashes(hash: string -> nat, texts: set<string>): set<nat> {
    set t | t in texts :: hash(t)
  }

  lemma {:induction false} HashesSize(hash: string -> nat, texts: set<string>)
    ensures |Hashes(hash, texts)| <= |texts|
    decreases |texts|
  {
    if texts != {} {
      var t :| t in texts;
      HashesSize(hash, texts - {t});
      assert Hashes(hash, texts) == Hashes(hash, texts - {t}) + {hash(t)};
    }
  }

  lemma {:induction false} PlainIsLatest(calls: seq<TimedCall>, hash: string -> nat, texts: set<string>)
    requires Texts(calls) <= texts && CollisionFree(hash, texts)
    ensures Latest(calls).Keys <= Texts(calls)
    ensures L.Plain(LoweredAll(calls, hash)).Keys == Hashes(hash, Latest(calls).Keys)
  {
    if calls != [] {
      var before := calls[..|calls| - 1];
      PlainIsLatest(before, hash, texts);
      var ops := LoweredAll(calls, hash);
      assert ops[..|ops| - 1] == LoweredAll(before, hash);
    }
  }

  lemma {:induction false} LoweredPrefix(calls: seq<TimedCall>, hash: string -> nat, i: nat)
    requires i <= |calls|
    ensures |LoweredAll(calls, hash)| == |calls| && LoweredAll(calls, hash)[..i] == LoweredAll(calls[..i], hash)
    ensures Texts(calls[..i]) <= Texts(calls)
  {
    if i < |calls| {
      LoweredPrefix(calls[..|calls| - 1], hash, i);
      assert calls[..|calls| - 1][..i] == calls[..i];
    } else {
      assert calls[..i] == calls;
      if calls != [] { LoweredPrefix(calls[..|calls| - 1], hash, |calls| - 1); }
    }
  }

  lemma LatestFits(calls: seq<TimedCall>, hash: string -> nat, i: nat)
    requires i <= |calls| && CollisionFree(hash, Texts(calls))
    ensures |L.Plain(LoweredAll(calls, hash)[..i])| <= |Texts(calls)|
  {
    LoweredPrefix(calls, hash, i);
    PlainIsLatest(calls[..i], hash, Texts(calls));
    var plain, latest := L.Plain(LoweredAll(calls, hash)[..i]), Latest(calls[..i]);
    HashesSize(hash, latest.Keys);
    SubsetSize(latest.Keys, Texts(calls));
    assert |plain| == |plain.Keys|;
  }

  lemma {:induction false} SubsetSize<T>(a: set<T>, b: set<T>)
    requires a <= b
    ensures |a| <= |b|
  {
    if a != {} {
      var x :| x in a;
      SubsetSize(a - {x}, b - {x});
    }
  }

  /** Without collisions, with room for every text and no time to live, the cache answers exactly
      as the plain map does: nothing is lost. */
  lemma ExactWhenRoomy(calls: seq<TimedCall>, hash: string -> nat, capacity: nat, query: string, now: nat)
    requires CollisionFree(hash, Texts(calls) + {Normalize(query)}) && |Texts(calls)| <= capacity
    ensures Found(PlansAfter(calls, hash, capacity, None), query, hash, now, None)
      == if Normalize(query) in Latest(calls) then Some(Latest(calls)[Normalize(query)]) else None
  {
    var ops, text := LoweredAll(calls, hash), Normalize(query);
    LoweredPrefix(calls, hash, |calls|);
    PlansRoomy(calls, hash, capacity);
    L.RoomyCacheIsPlain(ops, capacity);
    PlainIsLatest(calls, hash, Texts(calls));
    PlansAgree(calls, hash, capacity, None);
    var entries := PlansAfter(calls, hash, capacity, None);
    assert entries.Keys == Hashes(hash, Latest(calls).Keys);
    if text in Latest(calls) {
      assert hash(text) in entries;
      assert entries[hash(text)].value.query in Texts(calls);
    }
  }

  // ----- with a time to live

  predicate Replaces(call: Call, text: string) {
    call.ClearPlans? || ((call.Invalidate? || call.InsertPlan?) && Normalize(call.query) == text)
  }

  /** The i-th call inserted a plan for the text, and no later call has replaced or dropped it. */
  ghost predicate LastPlan(calls: seq<TimedCall>, i: nat, text: string) {
    && i < |calls| && calls[i].call.InsertPlan? && Normalize(calls[i].call.query) == text
    && forall j :: i < j < |calls| ==> !Replaces(calls[j].call, text)
  }

  lemma {:induction false} LoweredAt(calls: seq<TimedCall>, hash: string -> nat, i: nat)
    requires i < |calls|
    ensures LoweredAll(calls, hash)[i] == L.At(Lowered(calls[i].call, hash), calls[i].now)
    decreases |calls|
  {
    if i < |calls| - 1 { LoweredAt(calls[..|calls| - 1], hash, i); }
  }

  lemma {:induction false} TextIsNamed(calls: seq<TimedCall>, i: nat)
    requires i < |calls| && !calls[i].call.ClearPlans? && !calls[i].call.EvictPlans?
    ensures Normalize(calls[i].call.query) in Texts(calls)
    decreases |calls|
  {
    if i < |calls| - 1 { TextIsNamed(calls[..|calls| - 1], i); }
  }

  /** Without collisions the calls below touch the key of a text exactly when the calls above touch the text. */
  lemma {:induction false} SameCall(calls: seq<TimedCall>, hash: string -> nat, text: string, j: nat)
    requires j < |calls| && CollisionFree(hash, Texts(calls) + {text})
    ensures var c, op := calls[j].call, LoweredAll(calls, hash)[j].op;
      && (Replaces(c, text) <==> L.Overwrites(op, hash(text)))
      && (c.InsertPlan? && Normalize(c.query) == text <==> op.Insert? && op.key == hash(text))
      && (c.InsertPlan? ==> op.Insert? && op.value == NewPlan(c.query, c.statements, c.cost))
    ensures LoweredAll(calls, hash)[j].now == calls[j].now
  {
    LoweredAt(calls, hash, j);
    if !calls[j].call.ClearPlans? && !calls[j].call.EvictPlans? { TextIsNamed(calls, j); }
  }

  lemma SameLast(calls: seq<TimedCall>, hash: string -> nat, text: string, i: nat)
    requires CollisionFree(hash, Texts(calls) + {text})
    ensures LastPlan(calls, i, text) <==> L.LastInsert(LoweredAll(calls, hash), i, hash(text))
  {
    forall j | 0 <= j < |calls| ensures Replaces(calls[j].call, text) <==> L.Overwrites(LoweredAll(calls, hash)[j].op, hash(text)) {
      SameCall(calls, hash, text, j);
    }
    if i < |calls| { SameCall(calls, hash, text, i); }
  }

  lemma PlansRoomy(calls: seq<TimedCall>, hash: string -> nat, capacity: nat)
    requires CollisionFree(hash, Texts(calls)) && |Texts(calls)| <= capacity
    ensures L.Roomy(LoweredAll(calls, hash), capacity)
  {
    forall i | 0 <= i <= |calls| ensures |L.Plain(LoweredAll(calls, hash)[..i])| <= capacity {
      LatestFits(calls, hash, i);
    }
  }

  /** Without collisions and with room for every text, a get returns the plan last inserted for its text if it is no
      older than the time to live, and nothing if it is older or there is none. */
  lemma {:induction false} ExactWithin(calls: seq<TimedCall>, hash: string -> nat, capacity: nat, ttl: Option<nat>, query: string, now: nat)
    requires CollisionFree(hash, Texts(calls) + {Normalize(query)}) && |Texts(calls)| <= capacity
    requires forall j :: 0 <= j < |calls| ==> calls[j].now <= now
    ensures var got := Found(PlansAfter(calls, hash, capacity, ttl), query, hash, now, ttl);
      && (forall i: nat :: LastPlan(calls, i, Normalize(query)) ==>
            var c := calls[i];
            got == if L.Within(now - c.now, ttl) then Some(Plan(Normalize(query), c.call.statements, c.call.cost, 0)) else None)
      && ((forall i: nat :: !LastPlan(calls, i, Normalize(query))) ==> got == None)
  {
    var ops, text := LoweredAll(calls, hash), Normalize(query);
    var entries := PlansAfter(calls, hash, capacity, ttl);
    PlansRoomy(calls, hash, capacity);
    forall j | 0 <= j < |ops| ensures ops[j].now <= now { LoweredAt(calls, hash, j); }
    L.RoomyHitExact(ops, capacity, ttl, hash(text), now);
    forall i: nat ensures LastPlan(calls, i, text) <==> L.LastInsert(ops, i, hash(text)) {
      SameLast(calls, hash, text, i);
    }
    if L.Lookup(entries, hash(text), now, ttl).Some? {
      var i := L.HitIsFresh(ops, capacity, ttl, hash(text), now);
      SameCall(calls, hash, text, i);
      forall k: nat | LastPlan(calls, k, text) ensures k == i { L.LastInsertUnique(ops, k, i, hash(text)); }
    } else {
      forall i: nat | LastPlan(calls, i, text) ensures !L.Within(now - calls[i].now, ttl) { SameCall(calls, hash, text, i); }
    }
  }

  // ----- the class

  class PlanCache {
    const cache: L.Cache<nat, Plan>
    const hash: string -> nat
    ghost var latest: map<string, Plan>

    ghost predicate Valid()
      reads this, cache
    {
      cache.Valid() && Agrees(cache.entries, latest, hash)
    }

    constructor (capacity: nat, ttl: Option<nat>, hash: string -> nat)
      ensures Valid() && fresh(cache) && latest == map[] && cache.entries == map[] && cache.clock == 0
    {
      this.hash, latest := hash, map[];
      cache := new L.Cache(capacity, ttl);
    }

    method Get(query: string, now: nat) returns (r: Option<Plan>)
      requires Valid() && cache.clock < now
      modifies this, cache
      ensures Valid() && cache.clock == now && latest == old(latest)
      ensures r == Found(old(cache.entries), query, hash, now, cache.ttl)
      ensures r.Some? ==> Normalize(query) in latest && r.value == latest[Normalize(query)]
    {
      var normalized := Normalize(query);
      r := cache.Get(hash(normalized), now);
      if r.Some? && r.value.query != normalized { r := None; }
    }

    method Insert(query: string, statements: seq<string>, cost: real, now: nat)
      requires Valid() && cache.clock < now
      modifies this, cache
      ensures Valid() && cache.clock == now
      ensures latest == old(latest)[Normalize(query) := NewPlan(query, statements, cost)]
      ensures hash(Normalize(query)) in cache.entries
      ensures cache.entries[hash(Normalize(query))].value == NewPlan(query, statements, cost)
    {
      var plan := NewPlan(query, statements, cost);
      cache.Insert(hash(plan.query), plan, now);
      latest := latest[plan.query := plan];
    }

    method InvalidatePlan(query: string, now: nat)
      requires Valid() && cache.clock < now
      modifies this, cache
      ensures Valid() && cache.clock == now
      ensures latest == old(latest) - {Normalize(query)}
      ensures cache.entries == old(cache.entries) - {hash(Normalize(query))}
    {
      var removed := cache.Remove(hash(Normalize(query)), now);
      latest := latest - {Normalize(query)};
    }

    method Clear(now: nat)
      requires Valid() && cache.clock < now
      modifies this, cache
      ensures Valid() && cache.clock == now && latest == map[] && cache.entries == map[]
    {
      cache.Clear(now);
      latest := map[];
    }
  }
}
