/** The LRU cache with an optional time to live (storage/src/cache.rs). Every operation carries
    the time at which it runs; the clock never shows one time twice. */
module LruCache {
  import opened Common

  datatype Entry<V> = Entry(value: V, lastAccess: nat, created: nat)

  datatype Op<K, V> = Get(key: K) | Insert(key: K, value: V) | Remove(key: K) | Clear | EvictExpired

  predicate Expired<V>(e: Entry<V>, ttl: Option<nat>, now: nat) {
    ttl.Some? && now - e.created > ttl.value
  }

  ghost predicate IsOldest<K, V>(entries: map<K, Entry<V>>, k: K) {
    k in entries && forall j :: j in entries ==> entries[k].lastAccess <= entries[j].lastAccess
  }

  lemma {:induction false} OldestExists<K, V>(entries: map<K, Entry<V>>)
    requires entries != map[]
    ensures exists k :: IsOldest(entries, k)
    decreases |entries|
  {
    var k :| k in entries;
    var rest := entries - {k};
    if rest == map[] {
      assert forall j :: j in entries ==> j == k by {
        assert forall j :: j in entries && j != k ==> j in rest;
      }
      assert IsOldest(entries, k);
    } else {
      OldestExists(rest);
      var r :| IsOldest(rest, r);
      assert forall j :: j in entries ==> j == k || j in rest;
      assert IsOldest(entries, if entries[k].lastAccess < entries[r].lastAccess then k else r);
    }
  }

  ghost function Oldest<K, V>(entries: map<K, Entry<V>>): (k: K)
    requires entries != map[]
    ensures IsOldest(entries, k)
  {
    OldestExists(entries);
    var k :| k in entries && IsOldest(entries, k);
    k
  }

  ghost function Evicted<K, V>(entries: map<K, Entry<V>>): map<K, Entry<V>> {
    if entries == map[] then entries else entries - {Oldest(entries)}
  }

  function Live<K, V>(entries: map<K, Entry<V>>, now: nat, ttl: Option<nat>): map<K, Entry<V>> {
    map k | k in entries && !Expired(entries[k], ttl, now) :: entries[k]
  }

  ghost function After<K, V>(entries: map<K, Entry<V>>, op: Op<K, V>, now: nat, capacity: nat, ttl: Option<nat>)
    : map<K, Entry<V>>
  {
    match op
    case Get(k) =>
      if k !in entries then entries
      else if Expired(entries[k], ttl, now) then entries - {k}
      else entries[k := entries[k].(lastAccess := now)]
    case Insert(k, v) =>
      (if |entries| >= capacity && k !in entries then Evicted(entries) else entries)[k := Entry(v, now, now)]
    case Remove(k) => entries - {k}
    case Clear => map[]
    case EvictExpired => Live(entries, now, ttl)
  }

  function Lookup<K, V>(entries: map<K, Entry<V>>, k: K, now: nat, ttl: Option<nat>): Option<V> {
    if k in entries && !Expired(entries[k], ttl, now) then Some(entries[k].value) else None
  }

  /** Access times are distinct and none is later than now. */
  ghost predicate Timed<K, V>(entries: map<K, Entry<V>>, now: nat) {
    && (forall j, k :: j in entries && k in entries && j != k ==> entries[j].lastAccess != entries[k].lastAccess)
    && (forall k :: k in entries ==> entries[k].created <= entries[k].lastAccess <= now)
  }

  lemma AfterTimed<K, V>(entries: map<K, Entry<V>>, op: Op<K, V>, before: nat, now: nat, capacity: nat, ttl: Option<nat>)
    requires Timed(entries, before) && before < now
    ensures Timed(After(entries, op, now, capacity, ttl), now)
  {
  }

  function Max(a: nat, b: nat): nat { if a < b then b else a }

  lemma RemoveSize<K, V>(entries: map<K, V>, k: K)
    ensures |entries - {k}| == if k in entries then |entries| - 1 else |entries|
  {
    var rest := entries - {k};
    if k in entries {
      assert rest[k := entries[k]] == entries;
    } else {
      assert rest == entries;
    }
  }

  lemma {:induction false} SubmapSize<K, V, W>(a: map<K, V>, b: map<K, W>)
    requires forall k :: k in a ==> k in b
    ensures |a| <= |b|
    decreases |a|
  {
    if a != map[] {
      var k :| k in a;
      RemoveSize(a, k);
      RemoveSize(b, k);
      SubmapSize(a - {k}, b - {k});
    }
  }

  /** The cache never outgrows its capacity, except that it always keeps room for one entry. */
  lemma AfterSize<K, V>(entries: map<K, Entry<V>>, op: Op<K, V>, now: nat, capacity: nat, ttl: Option<nat>)
    requires |entries| <= Max(1, capacity)
    ensures |After(entries, op, now, capacity, ttl)| <= Max(1, capacity)
  {
    match op
    case Insert(k, v) =>
      if |entries| >= capacity && k !in entries && entries != map[] {
        RemoveSize(entries, Oldest(entries));
      }
    case EvictExpired =>
      SubmapSize(After(entries, op, now, capacity, ttl), entries);
    case _ =>
      SubmapSize(After(entries, op, now, capacity, ttl), entries);
  }

  // ----- two caches of different capacities

  /** The small cache is part of the large one, and they differ by no more than their capacities. */
  ghost predicate Included<K, V>(small: map<K, Entry<V>>, large: map<K, Entry<V>>, k: nat, m: nat) {
    && (forall x :: x in small ==> x in large && large[x] == small[x])
    && |large| - |small| <= Max(1, m) - Max(1, k)
    && |large| <= Max(1, m) && |small| <= Max(1, k)
  }

  lemma WithoutBoth<K, V>(small: map<K, Entry<V>>, large: map<K, Entry<V>>, x: K, k: nat, m: nat)
    requires Included(small, large, k, m)
    ensures Included(small - {x}, large - {x}, k, m)
  {
    RemoveSize(small, x);
    RemoveSize(large, x);
  }

  lemma GetIncluded<K, V>(small: map<K, Entry<V>>, large: map<K, Entry<V>>, x: K, now: nat, k: nat, m: nat, ttl: Option<nat>)
    requires Included(small, large, k, m)
    ensures Included(After(small, Get(x), now, k, ttl), After(large, Get(x), now, m, ttl), k, m)
  {
    WithoutBoth(small, large, x, k, m);
  }

  lemma LiveWithout<K, V>(entries: map<K, Entry<V>>, x: K, now: nat, ttl: Option<nat>)
    requires x in entries ==> Expired(entries[x], ttl, now)
    ensures Live(entries - {x}, now, ttl) == Live(entries, now, ttl)
  {
  }

  lemma NothingExpired<K, V>(entries: map<K, Entry<V>>, now: nat, ttl: Option<nat>)
    requires forall x :: x in entries ==> !Expired(entries[x], ttl, now)
    ensures Live(entries, now, ttl) == entries
  {
  }

  lemma {:induction false} ExpiredIncluded<K, V>(small: map<K, Entry<V>>, large: map<K, Entry<V>>, now: nat, k: nat, m: nat, ttl: Option<nat>)
    requires Included(small, large, k, m)
    ensures Included(Live(small, now, ttl), Live(large, now, ttl), k, m)
    decreases |large|
  {
    if x :| x in large && Expired(large[x], ttl, now) {
      WithoutBoth(small, large, x, k, m);
      RemoveSize(large, x);
      LiveWithout(small, x, now, ttl);
      LiveWithout(large, x, now, ttl);
      ExpiredIncluded(small - {x}, large - {x}, now, k, m, ttl);
    } else {
      NothingExpired(small, now, ttl);
      NothingExpired(large, now, ttl);
    }
  }

  /** When the large cache must evict and its victim is in the small one, it is the small one's victim too. */
  lemma SameVictim<K, V>(small: map<K, Entry<V>>, large: map<K, Entry<V>>, k: nat, m: nat, before: nat)
    requires Included(small, large, k, m) && Timed(large, before) && k <= m
    requires |large| >= m && large != map[] && Oldest(large) in small
    ensures |small| >= k && small != map[] && Oldest(small) == Oldest(large)
  {
  }

  ghost function Room<K, V>(entries: map<K, Entry<V>>, x: K, capacity: nat): map<K, Entry<V>> {
    if |entries| >= capacity && x !in entries then Evicted(entries) else entries
  }

  lemma RoomIncluded<K, V>(small: map<K, Entry<V>>, large: map<K, Entry<V>>, x: K, k: nat, m: nat, before: nat)
    requires Included(small, large, k, m) && Timed(large, before) && k <= m
    ensures forall y :: y in Room(small, x, k) && y != x ==> y in Room(large, x, m) && Room(large, x, m)[y] == Room(small, x, k)[y]
  {
    if |large| >= m && large != map[] && Oldest(large) in small {
      SameVictim(small, large, k, m, before);
    }
  }

  lemma InsertSize<K, V>(entries: map<K, Entry<V>>, x: K, v: V, now: nat, capacity: nat, ttl: Option<nat>)
    ensures |After(entries, Insert(x, v), now, capacity, ttl)|
         == if x in entries || (|entries| >= capacity && entries != map[]) then |entries| else |entries| + 1
  {
    var room := Room(entries, x, capacity);
    if |entries| >= capacity && x !in entries && entries != map[] {
      RemoveSize(entries, Oldest(entries));
    }
    var after := room[x := Entry(v, now, now)];
    assert after.Keys == room.Keys + {x};
    assert |after| == |after.Keys| && |room| == |room.Keys|;
  }

  lemma InsertIncluded<K, V>(small: map<K, Entry<V>>, large: map<K, Entry<V>>, x: K, v: V, before: nat, now: nat,
                                         k: nat, m: nat, ttl: Option<nat>)
    requires Included(small, large, k, m) && Timed(large, before) && k <= m
    ensures Included(After(small, Insert(x, v), now, k, ttl), After(large, Insert(x, v), now, m, ttl), k, m)
  {
    RoomIncluded(small, large, x, k, m, before);
    InsertSize(small, x, v, now, k, ttl);
    InsertSize(large, x, v, now, m, ttl);
    SubmapSize(small, large);
    assert small == map[] ==> |small| == 0;
    assert large == map[] ==> |large| == 0;
  }

  lemma AfterIncluded<K, V>(small: map<K, Entry<V>>, large: map<K, Entry<V>>, op: Op<K, V>, before: nat, now: nat,
                                        k: nat, m: nat, ttl: Option<nat>)
    requires Included(small, large, k, m) && Timed(large, before) && k <= m
    ensures Included(After(small, op, now, k, ttl), After(large, op, now, m, ttl), k, m)
  {
    match op
    case Get(x) => GetIncluded(small, large, x, now, k, m, ttl);
    case Insert(x, v) => InsertIncluded(small, large, x, v, before, now, k, m, ttl);
    case Remove(x) => WithoutBoth(small, large, x, k, m);
    case Clear =>
    case EvictExpired => ExpiredIncluded(small, large, now, k, m, ttl);
  }

  // ----- runs

  datatype Timestamped<K, V> = At(op: Op<K, V>, now: nat)

  ghost predicate StrictClock<K, V>(ops: seq<Timestamped<K, V>>) {
    forall i, j :: 0 <= i < j < |ops| ==> ops[i].now < ops[j].now
  }

  ghost function RunOps<K, V>(ops: seq<Timestamped<K, V>>, capacity: nat, ttl: Option<nat>): map<K, Entry<V>> {
    if ops == [] then map[]
    else After(RunOps(ops[..|ops| - 1], capacity, ttl), ops[|ops| - 1].op, ops[|ops| - 1].now, capacity, ttl)
  }

  lemma {:induction false} RunTimed<K, V>(ops: seq<Timestamped<K, V>>, capacity: nat, ttl: Option<nat>)
    requires StrictClock(ops)
    ensures Timed(RunOps(ops, capacity, ttl), if ops == [] then 0 else ops[|ops| - 1].now)
  {
    if |ops| == 1 {
      assert RunOps(ops[..0], capacity, ttl) == map[];
      AfterTimedFirst(ops[0].op, ops[0].now, capacity, ttl);
    } else if |ops| > 1 {
      var before, last := ops[..|ops| - 1], ops[|ops| - 1];
      RunTimed(before, capacity, ttl);
      AfterTimed(RunOps(before, capacity, ttl), last.op, before[|before| - 1].now, last.now, capacity, ttl);
    }
  }

  lemma AfterTimedFirst<K, V>(op: Op<K, V>, now: nat, capacity: nat, ttl: Option<nat>)
    ensures Timed(After(map[], op, now, capacity, ttl), now)
  {
  }

  /** LRU inclusion over every run: whatever a small cache holds, a larger one holds alike. */
  lemma {:induction false} Inclusion<K, V>(ops: seq<Timestamped<K, V>>, k: nat, m: nat, ttl: Option<nat>)
    requires StrictClock(ops) && k <= m
    ensures Included(RunOps(ops, k, ttl), RunOps(ops, m, ttl), k, m)
  {
    if ops != [] {
      var before, last := ops[..|ops| - 1], ops[|ops| - 1];
      Inclusion(before, k, m, ttl);
      RunTimed(before, m, ttl);
      AfterIncluded(RunOps(before, k, ttl), RunOps(before, m, ttl), last.op,
                    if before == [] then 0 else before[|before| - 1].now, last.now, k, m, ttl);
    }
  }

  /** So every hit in the small cache is the same hit in the large one. */
  lemma HitsAreKept<K, V>(ops: seq<Timestamped<K, V>>, k: nat, m: nat, ttl: Option<nat>, x: K, now: nat)
    requires StrictClock(ops) && k <= m
    ensures var hit := Lookup(RunOps(ops, k, ttl), x, now, ttl);
      hit.Some? ==> Lookup(RunOps(ops, m, ttl), x, now, ttl) == hit
    ensures |RunOps(ops, k, ttl)| <= Max(1, k)
  {
    Inclusion(ops, k, m, ttl);
  }

  // ----- against a plain map

  /** The same calls on a map that never evicts and never expires. */
  function Plain<K, V>(ops: seq<Timestamped<K, V>>): map<K, V> {
    if ops == [] then map[]
    else
      var before := Plain(ops[..|ops| - 1]);
      match ops[|ops| - 1].op
      case Insert(k, v) => before[k := v]
      case Remove(k) => before - {k}
      case Clear => map[]
      case _ => before
  }

  /** What the cache holds, the plain map holds. */
  lemma CacheWithinPlain<K, V>(ops: seq<Timestamped<K, V>>, capacity: nat, ttl: Option<nat>)
    ensures forall k :: k in RunOps(ops, capacity, ttl) ==> k in Plain(ops) && Plain(ops)[k] == RunOps(ops, capacity, ttl)[k].value
  {
    forall k | k in RunOps(ops, capacity, ttl)
      ensures k in Plain(ops) && Plain(ops)[k] == RunOps(ops, capacity, ttl)[k].value
    {
      var i := EntryIsLastInsert(ops, capacity, ttl, k);
      InPlain(ops, i, k);
    }
  }

  // ----- how old a hit can be, from the calls alone

  /** The call takes x away or writes it anew. */
  predicate Overwrites<K(==), V(==)>(op: Op<K, V>, x: K) {
    op.Clear? || (op.Remove? && op.key == x) || (op.Insert? && op.key == x)
  }

  /** The i-th call inserted x, and no later call has touched its value. */
  ghost predicate LastInsert<K, V>(ops: seq<Timestamped<K, V>>, i: nat, x: K) {
    && i < |ops| && ops[i].op.Insert? && ops[i].op.key == x
    && forall j :: i < j < |ops| ==> !Overwrites(ops[j].op, x)
  }

  /** Not longer ago than the time to live, if there is one. */
  predicate Within(age: int, ttl: Option<nat>) {
    ttl.Some? ==> age <= ttl.value
  }

  ghost predicate FreshlyInserted<K, V>(ops: seq<Timestamped<K, V>>, x: K, now: nat, ttl: Option<nat>) {
    exists i: nat :: LastInsert(ops, i, x) && Within(now - ops[i].now, ttl)
  }

  lemma LastInsertUnique<K, V>(ops: seq<Timestamped<K, V>>, i: nat, j: nat, x: K)
    requires LastInsert(ops, i, x) && LastInsert(ops, j, x)
    ensures i == j
  {
  }

  lemma LastInsertSnoc<K, V>(ops: seq<Timestamped<K, V>>, i: nat, x: K)
    requires ops != []
    ensures i < |ops| - 1 ==> (LastInsert(ops, i, x) <==> LastInsert(ops[..|ops| - 1], i, x) && !Overwrites(ops[|ops| - 1].op, x))
    ensures i == |ops| - 1 ==> (LastInsert(ops, i, x) <==> ops[i].op.Insert? && ops[i].op.key == x)
  {
    var before := ops[..|ops| - 1];
    assert forall j :: 0 <= j < |before| ==> before[j] == ops[j];
  }

  /** An entry is what the last insertion of its key made of it. */
  lemma {:induction false} EntryIsLastInsert<K, V>(ops: seq<Timestamped<K, V>>, capacity: nat, ttl: Option<nat>, x: K)
    returns (i: nat)
    requires x in RunOps(ops, capacity, ttl)
    ensures LastInsert(ops, i, x)
    ensures var e := RunOps(ops, capacity, ttl)[x]; e.value == ops[i].op.value && e.created == ops[i].now
  {
    var n := |ops| - 1;
    var op := ops[n].op;
    if op.Insert? && op.key == x {
      i := n;
    } else {
      i := EntryIsLastInsert(ops[..n], capacity, ttl, x);
      LastInsertSnoc(ops, i, x);
    }
  }

  /** Whatever the capacity, a hit is the value of the key's last insertion, made no longer ago than the time to live. */
  lemma HitIsFresh<K, V>(ops: seq<Timestamped<K, V>>, capacity: nat, ttl: Option<nat>, x: K, now: nat) returns (i: nat)
    requires Lookup(RunOps(ops, capacity, ttl), x, now, ttl).Some?
    ensures LastInsert(ops, i, x) && Within(now - ops[i].now, ttl)
    ensures Lookup(RunOps(ops, capacity, ttl), x, now, ttl) == Some(ops[i].op.value)
  {
    i := EntryIsLastInsert(ops, capacity, ttl, x);
  }

  /** Evicting takes exactly the entries that are older than the time to live. */
  lemma EvictExpiredExact<K, V>(ops: seq<Timestamped<K, V>>, capacity: nat, ttl: Option<nat>, x: K, now: nat)
    ensures var before, after := RunOps(ops, capacity, ttl), RunOps(ops + [At(EvictExpired, now)], capacity, ttl);
      && (x in after <==> x in before && FreshlyInserted(ops, x, now, ttl))
      && (x in after ==> after[x] == before[x])
  {
    assert (ops + [At(EvictExpired, now)])[..|ops|] == ops;
    if x in RunOps(ops, capacity, ttl) {
      var i := EntryIsLastInsert(ops, capacity, ttl, x);
      forall j: nat | LastInsert(ops, j, x) ensures j == i {
        LastInsertUnique(ops, i, j, x);
      }
    }
  }

  // ----- which key goes

  predicate Uses<K(==), V>(op: Op<K, V>, x: K) {
    (op.Get? && op.key == x) || (op.Insert? && op.key == x)
  }

  /** The i-th call is the last that got or inserted x. */
  ghost predicate LastUse<K, V>(ops: seq<Timestamped<K, V>>, i: nat, x: K) {
    i < |ops| && Uses(ops[i].op, x) && forall j :: i < j < |ops| ==> !Uses(ops[j].op, x)
  }

  lemma LastUseSnoc<K, V>(ops: seq<Timestamped<K, V>>, i: nat, x: K)
    requires ops != [] && LastUse(ops[..|ops| - 1], i, x) && !Uses(ops[|ops| - 1].op, x)
    ensures LastUse(ops, i, x)
  {
    var before := ops[..|ops| - 1];
    assert forall j :: 0 <= j < |before| ==> before[j] == ops[j];
  }

  lemma StepAccess<K, V>(entries: map<K, Entry<V>>, op: Op<K, V>, now: nat, capacity: nat, ttl: Option<nat>, x: K)
    requires x in After(entries, op, now, capacity, ttl)
    ensures Uses(op, x) ==> After(entries, op, now, capacity, ttl)[x].lastAccess == now
    ensures !Uses(op, x) ==> x in entries && After(entries, op, now, capacity, ttl)[x] == entries[x]
  {
  }

  /** An entry was last accessed when its key was last got or inserted. */
  lemma {:induction false} AccessIsLastUse<K, V>(ops: seq<Timestamped<K, V>>, capacity: nat, ttl: Option<nat>, x: K) returns (i: nat)
    requires x in RunOps(ops, capacity, ttl)
    ensures LastUse(ops, i, x) && RunOps(ops, capacity, ttl)[x].lastAccess == ops[i].now
  {
    var n := |ops| - 1;
    RunSnoc(ops, capacity, ttl);
    StepAccess(RunOps(ops[..n], capacity, ttl), ops[n].op, ops[n].now, capacity, ttl, x);
    if Uses(ops[n].op, x) {
      i := n;
    } else {
      i := AccessIsLastUse(ops[..n], capacity, ttl, x);
      LastUseSnoc(ops, i, x);
    }
  }

  lemma LastUseUnique<K, V>(ops: seq<Timestamped<K, V>>, i: nat, j: nat, x: K)
    requires LastUse(ops, i, x) && LastUse(ops, j, x)
    ensures i == j
  {
  }

  /** Over every run, a new key in a full cache takes the place of the key whose last get or insertion is the longest ago. */
  lemma LeastRecentlyUsedGoes<K, V>(ops: seq<Timestamped<K, V>>, capacity: nat, ttl: Option<nat>, x: K, v: V, now: nat) returns (victim: K)
    requires StrictClock(ops) && RunOps(ops, capacity, ttl) != map[]
    requires x !in RunOps(ops, capacity, ttl) && |RunOps(ops, capacity, ttl)| >= capacity
    ensures var before := RunOps(ops, capacity, ttl);
      && victim in before
      && RunOps(ops + [At(Insert(x, v), now)], capacity, ttl).Keys == before.Keys - {victim} + {x}
      && forall k, i: nat, j: nat :: k in before && k != victim && LastUse(ops, i, victim) && LastUse(ops, j, k) ==> i < j
  {
    var before := RunOps(ops, capacity, ttl);
    victim := Oldest(before);
    assert (ops + [At(Insert(x, v), now)])[..|ops|] == ops;
    RunTimed(ops, capacity, ttl);
    var a := AccessIsLastUse(ops, capacity, ttl, victim);
    forall k, i: nat, j: nat | k in before && k != victim && LastUse(ops, i, victim) && LastUse(ops, j, k) ensures i < j {
      LastUseUnique(ops, a, i, victim);
      var b := AccessIsLastUse(ops, capacity, ttl, k);
      LastUseUnique(ops, b, j, k);
    }
  }

  lemma RunSnoc<K, V>(ops: seq<Timestamped<K, V>>, capacity: nat, ttl: Option<nat>)
    requires ops != []
    ensures RunOps(ops, capacity, ttl)
      == After(RunOps(ops[..|ops| - 1], capacity, ttl), ops[|ops| - 1].op, ops[|ops| - 1].now, capacity, ttl)
  {
  }

  // ----- with room for all keys

  /** The calls never name more keys at once than the cache has room for. */
  ghost predicate Roomy<K, V>(ops: seq<Timestamped<K, V>>, capacity: nat) {
    forall i :: 0 <= i <= |ops| ==> |Plain(ops[..i])| <= capacity
  }

  lemma RoomyBefore<K, V>(ops: seq<Timestamped<K, V>>, capacity: nat)
    requires Roomy(ops, capacity) && ops != []
    ensures Roomy(ops[..|ops| - 1], capacity) && |Plain(ops)| <= capacity
  {
    var before := ops[..|ops| - 1];
    assert forall i :: 0 <= i <= |before| ==> before[..i] == ops[..i];
    assert ops[..|ops|] == ops;
  }

  /** A new key then evicts nothing. */
  lemma NothingEvicted<K, V>(ops: seq<Timestamped<K, V>>, capacity: nat, ttl: Option<nat>)
    requires Roomy(ops, capacity) && ops != [] && ops[|ops| - 1].op.Insert?
    ensures var entries, x := RunOps(ops[..|ops| - 1], capacity, ttl), ops[|ops| - 1].op.key;
      x in entries || |entries| < capacity
  {
    var before, x := ops[..|ops| - 1], ops[|ops| - 1].op.key;
    RoomyBefore(ops, capacity);
    var entries, plain := RunOps(before, capacity, ttl), Plain(before);
    if x !in entries {
      CacheWithinPlain(before, capacity, ttl);
      SubmapSize(entries, plain - {x});
      RemoveSize(plain, x);
      assert x !in plain ==> |plain[x := ops[|ops| - 1].op.value]| == |plain| + 1;
    }
  }

  lemma EntryKept<K, V>(entries: map<K, Entry<V>>, op: Op<K, V>, x: K, now: nat, capacity: nat, ttl: Option<nat>)
    requires x in entries && !Overwrites(op, x) && Within(now - entries[x].created, ttl)
    requires op.Insert? ==> op.key in entries || |entries| < capacity
    ensures x in After(entries, op, now, capacity, ttl) && After(entries, op, now, capacity, ttl)[x].created == entries[x].created
  {
  }

  lemma InsertedIsThere<K, V>(entries: map<K, Entry<V>>, op: Op<K, V>, now: nat, capacity: nat, ttl: Option<nat>)
    requires op.Insert?
    ensures op.key in After(entries, op, now, capacity, ttl) && After(entries, op, now, capacity, ttl)[op.key].created == now
  {
  }

  ghost predicate NotAfter<K, V>(ops: seq<Timestamped<K, V>>, now: nat) {
    forall j :: 0 <= j < |ops| ==> ops[j].now <= now
  }

  /** The entry of x was made at that time. */
  ghost predicate KeptSince<K, V>(entries: map<K, Entry<V>>, x: K, created: nat) {
    x in entries && entries[x].created == created
  }

  lemma StepKept<K, V>(ops: seq<Timestamped<K, V>>, capacity: nat, ttl: Option<nat>, x: K, created: nat)
    requires Roomy(ops, capacity) && ops != [] && !Overwrites(ops[|ops| - 1].op, x)
    requires KeptSince(RunOps(ops[..|ops| - 1], capacity, ttl), x, created) && Within(ops[|ops| - 1].now - created, ttl)
    ensures KeptSince(RunOps(ops, capacity, ttl), x, created)
  {
    var n := |ops| - 1;
    RunSnoc(ops, capacity, ttl);
    if ops[n].op.Insert? { NothingEvicted(ops, capacity, ttl); }
    EntryKept(RunOps(ops[..n], capacity, ttl), ops[n].op, x, ops[n].now, capacity, ttl);
  }

  /** An entry within its time to live is there. */
  lemma {:induction false} FreshIsKept<K, V>(ops: seq<Timestamped<K, V>>, capacity: nat, ttl: Option<nat>, i: nat, x: K, now: nat)
    requires Roomy(ops, capacity) && LastInsert(ops, i, x) && Within(now - ops[i].now, ttl) && NotAfter(ops, now)
    ensures KeptSince(RunOps(ops, capacity, ttl), x, ops[i].now)
    decreases |ops|
  {
    var n := |ops| - 1;
    LastInsertSnoc(ops, i, x);
    if i == n {
      RunSnoc(ops, capacity, ttl);
      InsertedIsThere(RunOps(ops[..n], capacity, ttl), ops[n].op, ops[n].now, capacity, ttl);
    } else {
      RoomyBefore(ops, capacity);
      assert ops[..n][i] == ops[i] && NotAfter(ops[..n], now);
      FreshIsKept(ops[..n], capacity, ttl, i, x, now);
      StepKept(ops, capacity, ttl, x, ops[i].now);
    }
  }

  /** With room for all keys, a get hits if and only if the key was last inserted no longer ago than the time to live,
      and not removed or cleared since. */
  lemma RoomyHitExact<K, V>(ops: seq<Timestamped<K, V>>, capacity: nat, ttl: Option<nat>, x: K, now: nat)
    requires Roomy(ops, capacity) && NotAfter(ops, now)
    ensures Lookup(RunOps(ops, capacity, ttl), x, now, ttl).Some?
      <==> FreshlyInserted(ops, x, now, ttl)
  {
    if Lookup(RunOps(ops, capacity, ttl), x, now, ttl).Some? {
      var i := HitIsFresh(ops, capacity, ttl, x, now);
    }
    if FreshlyInserted(ops, x, now, ttl) {
      var i: nat :| LastInsert(ops, i, x) && Within(now - ops[i].now, ttl);
      FreshIsKept(ops, capacity, ttl, i, x, now);
    }
  }

  lemma {:induction false} InPlain<K, V>(ops: seq<Timestamped<K, V>>, i: nat, x: K)
    requires LastInsert(ops, i, x)
    ensures x in Plain(ops) && Plain(ops)[x] == ops[i].op.value
    decreases |ops|
  {
    if i < |ops| - 1 {
      LastInsertSnoc(ops, i, x);
      InPlain(ops[..|ops| - 1], i, x);
    }
  }

  lemma {:induction false} PlainIsInserted<K, V>(ops: seq<Timestamped<K, V>>, x: K) returns (i: nat)
    requires x in Plain(ops)
    ensures LastInsert(ops, i, x)
  {
    var n := |ops| - 1;
    if ops[n].op.Insert? && ops[n].op.key == x {
      i := n;
    } else {
      i := PlainIsInserted(ops[..n], x);
      LastInsertSnoc(ops, i, x);
    }
  }

  /** With room for all keys and no time to live, the cache is the plain map. */
  lemma RoomyCacheIsPlain<K, V>(ops: seq<Timestamped<K, V>>, capacity: nat)
    requires Roomy(ops, capacity)
    ensures RunOps(ops, capacity, None).Keys == Plain(ops).Keys
  {
    CacheWithinPlain(ops, capacity, None);
    var now := LatestTime(ops);
    forall x | x in Plain(ops) ensures x in RunOps(ops, capacity, None) {
      var i := PlainIsInserted(ops, x);
      FreshIsKept(ops, capacity, None, i, x, now);
    }
  }

  lemma {:induction false} LatestTime<K, V>(ops: seq<Timestamped<K, V>>) returns (now: nat)
    ensures NotAfter(ops, now)
  {
    now := 0;
    if ops != [] {
      now := LatestTime(ops[..|ops| - 1]);
      now := Max(now, ops[|ops| - 1].now);
    }
  }

  // ----- the cache itself

  class Cache<K(==), V> {
    const capacity: nat
    const ttl: Option<nat>
    var entries: map<K, Entry<V>>
    ghost var clock: nat

    ghost predicate Valid()
      reads this
    {
      Timed(entries, clock)
    }

    constructor (capacity: nat, ttl: Option<nat>)
      ensures Valid() && this.capacity == capacity && this.ttl == ttl && entries == map[] && clock == 0
    {
      this.capacity, this.ttl, entries, clock := capacity, ttl, map[], 0;
    }

    method Get(key: K, now: nat) returns (r: Option<V>)
      requires Valid() && clock < now
      modifies this
      ensures Valid() && clock == now
      ensures entries == After(old(entries), Op.Get(key), now, capacity, ttl)
      ensures r == Lookup(old(entries), key, now, ttl)
    {
      AfterTimed(entries, Op.Get(key), clock, now, capacity, ttl);
      clock := now;
      if key !in entries { return None; }
      var entry := entries[key];
      if ttl.Some? {
        if now - entry.created > ttl.value {
          entries := entries - {key};
          return None;
        }
      }
      entries := entries[key := entry.(lastAccess := now)];
      r := Some(entry.value);
    }

    method Insert(key: K, value: V, now: nat)
      requires Valid() && clock < now
      modifies this
      ensures Valid() && clock == now
      ensures entries == After(old(entries), Op.Insert(key, value), now, capacity, ttl)
    {
      AfterTimed(entries, Op.Insert(key, value), clock, now, capacity, ttl);
      if |entries| >= capacity && key !in entries {
        EvictLru();
      }
      clock := now;
      entries := entries[key := Entry(value, now, now)];
    }

    /** The scan meets the keys in any order; with distinct access times the victim is the same. */
    method EvictLru()
      requires Valid()
      modifies this`entries
      ensures entries == Evicted(old(entries))
    {
      if entries == map[] { return; }
      var victim :| victim in entries;
      var pending := entries.Keys - {victim};
      while pending != {}
        invariant victim in entries && pending <= entries.Keys
        invariant forall k :: k in entries && k !in pending ==> entries[victim].lastAccess <= entries[k].lastAccess
      {
        var k :| k in pending;
        pending := pending - {k};
        if entries[k].lastAccess < entries[victim].lastAccess { victim := k; }
      }
      assert IsOldest(entries, victim) && victim == Oldest(entries);
      entries := entries - {victim};
    }

    method Remove(key: K, now: nat) returns (r: Option<V>)
      requires Valid() && clock < now
      modifies this
      ensures Valid() && clock == now
      ensures entries == After(old(entries), Op.Remove(key), now, capacity, ttl)
      ensures r == if key in old(entries) then Some(old(entries)[key].value) else None
    {
      r := if key in entries then Some(entries[key].value) else None;
      entries, clock := entries - {key}, now;
    }

    method Clear(now: nat)
      requires Valid() && clock < now
      modifies this
      ensures Valid() && clock == now
      ensures entries == After(old(entries), Op.Clear, now, capacity, ttl)
    {
      entries, clock := map[], now;
    }

    method EvictExpired(now: nat)
      requires Valid() && clock < now
      modifies this
      ensures Valid() && clock == now
      ensures entries == After(old(entries), Op.EvictExpired, now, capacity, ttl)
    {
      AfterTimed(entries, Op.EvictExpired, clock, now, capacity, ttl);
      clock := now;
      if ttl.Some? {
        entries := map k | k in entries && now - entries[k].created <= ttl.value :: entries[k];
      } else {
        assert After(entries, Op.EvictExpired, now, capacity, ttl) == entries;
      }
    }
  }
}
