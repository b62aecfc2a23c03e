/** get_or_insert and get_iri by any number of threads, as interleaved steps over two
    read-write locks and one atomic counter (storage/src/dictionary.rs). */
module DictionaryProtocol {
  import opened Common
  import opened Dictionary

  type Thread = nat

  datatype Lock = Lock(readers: set<Thread>, writer: Option<Thread>)

  predicate CanRead(l: Lock) { l.writer.None? }

  predicate CanWrite(l: Lock) { l.writer.None? && l.readers == {} }

  /** Where a thread stands between two of its steps. */
  datatype Phase =
    | Idle
    // get_or_insert: the fast path under the read lock
    | Asked(iri: string)
    | Probing(iri: string)
    | Found(iri: string, id: nat)
    | Missed(iri: string)
    // get_or_insert: the slow path under both write locks
    | WantForward(iri: string)
    | HasForward(iri: string)
    | HasBoth(iri: string)
    | Rechecked(iri: string)
    | Numbered(iri: string, id: nat)
    | Half(iri: string, id: nat)
    | Done(iri: string, id: nat)
    | Leaving(iri: string, id: nat)
    // get_iri
    | WantReverse(id: nat)
    | Looking(id: nat)
    | Answered(id: nat, answer: Option<string>)

  /** returned and answers record what calls have given back so far. */
  datatype State = State(forward: map<string, nat>, reverse: map<nat, string>, next: nat,
                         forwardLock: Lock, reverseLock: Lock, threads: map<Thread, Phase>,
                         returned: set<(string, nat)>, answers: set<(nat, Option<string>)>)

  predicate ReadsForward(p: Phase) { p.Probing? || p.Found? || p.Missed? }

  predicate WritesForward(p: Phase) {
    p.HasForward? || p.HasBoth? || p.Rechecked? || p.Numbered? || p.Half? || p.Done? || p.Leaving?
  }

  predicate WritesReverse(p: Phase) {
    p.HasBoth? || p.Rechecked? || p.Numbered? || p.Half? || p.Done?
  }

  predicate ReadsReverse(p: Phase) { p.Looking? || p.Answered? }

  // ----- steps

  /** A thread that has a call in progress can move: only a lock can stop it. */
  predicate Enabled(s: State, t: Thread) {
    t in s.threads &&
    match s.threads[t]
    case Idle => false
    case Asked(_) => CanRead(s.forwardLock)
    case WantForward(_) => CanWrite(s.forwardLock)
    case HasForward(_) => CanWrite(s.reverseLock)
    case WantReverse(_) => CanRead(s.reverseLock)
    case _ => true
  }

  function Moved(s: State, t: Thread, p: Phase): State {
    s.(threads := s.threads[t := p])
  }

  function Step(s: State, t: Thread): State
    requires Enabled(s, t)
  {
    var f, r := s.forwardLock, s.reverseLock;
    match s.threads[t]
    case Asked(iri) =>
      Moved(s, t, Probing(iri)).(forwardLock := f.(readers := f.readers + {t}))
    case Probing(iri) =>
      Moved(s, t, if iri in s.forward then Found(iri, s.forward[iri]) else Missed(iri))
    case Found(iri, id) =>
      Moved(s, t, Idle).(forwardLock := f.(readers := f.readers - {t}), returned := s.returned + {(iri, id)})
    case Missed(iri) =>
      Moved(s, t, WantForward(iri)).(forwardLock := f.(readers := f.readers - {t}))
    case WantForward(iri) =>
      Moved(s, t, HasForward(iri)).(forwardLock := f.(writer := Some(t)))
    case HasForward(iri) =>
      Moved(s, t, HasBoth(iri)).(reverseLock := r.(writer := Some(t)))
    case HasBoth(iri) =>
      Moved(s, t, if iri in s.forward then Done(iri, s.forward[iri]) else Rechecked(iri))
    case Rechecked(iri) =>
      Moved(s, t, Numbered(iri, s.next)).(next := s.next + 1)
    case Numbered(iri, id) =>
      Moved(s, t, Half(iri, id)).(forward := s.forward[iri := id])
    case Half(iri, id) =>
      Moved(s, t, Done(iri, id)).(reverse := s.reverse[id := iri])
    case Done(iri, id) =>
      Moved(s, t, Leaving(iri, id)).(reverseLock := r.(writer := None))
    case Leaving(iri, id) =>
      Moved(s, t, Idle).(forwardLock := f.(writer := None), returned := s.returned + {(iri, id)})
    case WantReverse(id) =>
      Moved(s, t, Looking(id)).(reverseLock := r.(readers := r.readers + {t}))
    case Looking(id) =>
      Moved(s, t, Answered(id, if id in s.reverse then Some(s.reverse[id]) else None))
    case Answered(id, answer) =>
      Moved(s, t, Idle).(reverseLock := r.(readers := r.readers - {t}), answers := s.answers + {(id, answer)})
  }

  /** An idle thread makes a new call. */
  predicate Calls(s: State, s': State, t: Thread, p: Phase) {
    t in s.threads && s.threads[t].Idle? && (p.Asked? || p.WantReverse?) && s' == Moved(s, t, p)
  }

  ghost predicate Next(s: State, s': State) {
    || (exists t, p :: Calls(s, s', t, p))
    || (exists t :: Enabled(s, t) && s' == Step(s, t))
  }

  /** A new dictionary and any number of threads. */
  ghost predicate Init(s: State) {
    && s.forward == map[] && s.reverse == map[] && s.next == 1
    && s.forwardLock == Lock({}, None) && s.reverseLock == Lock({}, None)
    && (forall t :: t in s.threads ==> s.threads[t].Idle?)
    && s.returned == {} && s.answers == {}
  }

  /** A run: any finite sequence of steps, in any interleaving. */
  ghost predicate Run(run: seq<State>) {
    run != [] && Init(run[0]) && forall i :: 0 <= i < |run| - 1 ==> Next(run[i], run[i + 1])
  }

  // ----- the invariant

  /** The lock records exactly the threads that hold it, and a writer holds it alone. */
  ghost predicate ForwardMatches(l: Lock, threads: map<Thread, Phase>) {
    && (forall t :: t in threads ==> (WritesForward(threads[t]) <==> l.writer == Some(t)))
    && (forall t :: t in threads ==> (ReadsForward(threads[t]) <==> t in l.readers))
    && l.readers <= threads.Keys
    && (l.writer.Some? ==> l.writer.value in threads && l.readers == {})
  }

  ghost predicate ReverseMatches(l: Lock, threads: map<Thread, Phase>) {
    && (forall t :: t in threads ==> (WritesReverse(threads[t]) <==> l.writer == Some(t)))
    && (forall t :: t in threads ==> (ReadsReverse(threads[t]) <==> t in l.readers))
    && l.readers <= threads.Keys
    && (l.writer.Some? ==> l.writer.value in threads && l.readers == {})
  }

  ghost predicate LocksMatch(s: State) {
    ForwardMatches(s.forwardLock, s.threads) && ReverseMatches(s.reverseLock, s.threads)
  }

  ghost predicate Known(s: State, iri: string, id: nat) {
    iri in s.forward && s.forward[iri] == id && id in s.reverse && s.reverse[id] == iri
  }

  /** What a thread knows about the maps where it stands. */
  ghost predicate Knows(s: State, p: Phase) {
    match p
    case Rechecked(iri) => iri !in s.forward
    case Found(iri, id) => Known(s, iri, id)
    case Done(iri, id) => Known(s, iri, id)
    case Leaving(iri, id) => Known(s, iri, id)
    case Answered(id, answer) => answer.Some? ==> Known(s, answer.value, id)
    case _ => true
  }

  /** The phase of the thread that may be changing the maps. */
  function Writer(s: State): Phase {
    if s.forwardLock.writer.Some? && s.forwardLock.writer.value in s.threads
    then s.threads[s.forwardLock.writer.value] else Idle
  }

  /** The maps are dense, except that the writer may be part of the way through one insertion. */
  ghost predicate MapsMatch(s: State) {
    match Writer(s)
    case Numbered(iri, id) =>
      id + 1 == s.next && iri !in s.forward && Dense(s.forward, s.reverse, id)
    case Half(iri, id) =>
      id + 1 == s.next && iri in s.forward && s.forward[iri] == id && Dense(s.forward - {iri}, s.reverse, id)
    case _ => Dense(s.forward, s.reverse, s.next)
  }

  /** Everything a call has given back still holds. */
  ghost predicate HistoryHolds(s: State) {
    && (forall r :: r in s.returned ==> Known(s, r.0, r.1))
    && (forall a :: a in s.answers && a.1.Some? ==> Known(s, a.1.value, a.0))
  }

  ghost predicate AllKnow(s: State) {
    forall t :: t in s.threads ==> Knows(s, s.threads[t])
  }

  ghost predicate Invariant(s: State) {
    LocksMatch(s) && MapsMatch(s) && AllKnow(s) && HistoryHolds(s)
  }

  lemma InitInvariant(s: State)
    requires Init(s)
    ensures Invariant(s)
  {
  }

  /** The maps only grow. */
  predicate Grows(s: State, s': State) {
    && (forall iri :: iri in s.forward ==> iri in s'.forward && s'.forward[iri] == s.forward[iri])
    && (forall id :: id in s.reverse ==> id in s'.reverse && s'.reverse[id] == s.reverse[id])
  }

  /** One thread changing phase, and the lock changing with it. */
  lemma ForwardMoves(l: Lock, threads: map<Thread, Phase>, t: Thread, q: Phase, l': Lock)
    requires ForwardMatches(l, threads) && t in threads
    requires l'.writer == if WritesForward(q) then Some(t) else if WritesForward(threads[t]) then None else l.writer
    requires l'.readers == if ReadsForward(q) then l.readers + {t} else l.readers - {t}
    requires WritesForward(q) ==> WritesForward(threads[t]) || CanWrite(l)
    requires ReadsForward(q) ==> CanRead(l)
    ensures ForwardMatches(l', threads[t := q])
  {
  }

  lemma ReverseMoves(l: Lock, threads: map<Thread, Phase>, t: Thread, q: Phase, l': Lock)
    requires ReverseMatches(l, threads) && t in threads
    requires l'.writer == if WritesReverse(q) then Some(t) else if WritesReverse(threads[t]) then None else l.writer
    requires l'.readers == if ReadsReverse(q) then l.readers + {t} else l.readers - {t}
    requires WritesReverse(q) ==> WritesReverse(threads[t]) || CanWrite(l)
    requires ReadsReverse(q) ==> CanRead(l)
    ensures ReverseMatches(l', threads[t := q])
  {
  }

  lemma StepForwardLock(s: State, t: Thread)
    requires ForwardMatches(s.forwardLock, s.threads) && Enabled(s, t)
    ensures ForwardMatches(Step(s, t).forwardLock, Step(s, t).threads)
  {
    ForwardMoves(s.forwardLock, s.threads, t, Step(s, t).threads[t], Step(s, t).forwardLock);
  }

  lemma StepReverseLock(s: State, t: Thread)
    requires ReverseMatches(s.reverseLock, s.threads) && Enabled(s, t)
    ensures ReverseMatches(Step(s, t).reverseLock, Step(s, t).threads)
  {
    ReverseMoves(s.reverseLock, s.threads, t, Step(s, t).threads[t], Step(s, t).reverseLock);
  }

  lemma StepLocks(s: State, t: Thread)
    requires LocksMatch(s) && Enabled(s, t)
    ensures LocksMatch(Step(s, t))
  {
    StepForwardLock(s, t);
    StepReverseLock(s, t);
  }

  lemma WriterIs(s: State, t: Thread)
    requires LocksMatch(s) && t in s.threads
    ensures WritesForward(s.threads[t]) ==> Writer(s) == s.threads[t]
    ensures ReadsForward(s.threads[t]) ==> Writer(s) == Idle
  {
  }

  /** Steps that leave the maps alone leave the writer's insertion alone. */
  lemma OtherWriter(s: State, t: Thread)
    requires LocksMatch(s) && Enabled(s, t) && !WritesForward(s.threads[t]) && !s.threads[t].WantForward?
    ensures Writer(Step(s, t)) == Writer(s)
  {
  }

  lemma StepMaps(s: State, t: Thread)
    requires Invariant(s) && Enabled(s, t)
    ensures MapsMatch(Step(s, t))
  {
    var s', p := Step(s, t), s.threads[t];
    WriterIs(s, t);
    if p.Half? {
      var f := s.forward - {p.iri};
      InsertKeepsDense(f, s.reverse, p.id, p.iri);
      assert s'.forward == f[p.iri := p.id];
    } else if p.Numbered? {
      assert s'.forward - {p.iri} == s.forward;
    } else if !WritesForward(p) && !p.WantForward? {
      OtherWriter(s, t);
    }
  }

  lemma StepGrows(s: State, t: Thread)
    requires Invariant(s) && Enabled(s, t)
    ensures Grows(s, Step(s, t))
  {
    WriterIs(s, t);
  }

  /** The thread that moves knows what its new phase says ... */
  lemma MoverKnows(s: State, t: Thread)
    requires Invariant(s) && Enabled(s, t)
    ensures Knows(Step(s, t), Step(s, t).threads[t])
  {
    WriterIs(s, t);
    StepGrows(s, t);
    assert Knows(s, s.threads[t]) && MapsMatch(s);
  }

  /** ... and the others still know what theirs says: while a thread stands between its recheck and
      its insertion, nobody else writes. */
  lemma OthersKnow(s: State, t: Thread, u: Thread)
    requires Invariant(s) && Enabled(s, t) && u in s.threads && u != t
    ensures Knows(Step(s, t), s.threads[u])
  {
    StepGrows(s, t);
    assert Knows(s, s.threads[u]);
    if s.threads[u].Rechecked? {
      WriterIs(s, t);
      WriterIs(s, u);
    }
  }

  lemma StepKnows(s: State, t: Thread, u: Thread)
    requires Invariant(s) && Enabled(s, t) && u in s.threads
    ensures Knows(Step(s, t), Step(s, t).threads[u])
  {
    if u == t {
      MoverKnows(s, t);
    } else {
      OthersKnow(s, t, u);
    }
  }

  lemma StepHistory(s: State, t: Thread)
    requires Invariant(s) && Enabled(s, t)
    ensures HistoryHolds(Step(s, t))
  {
    StepGrows(s, t);
    assert Knows(s, s.threads[t]);
  }

  lemma StepInvariant(s: State, t: Thread)
    requires Invariant(s) && Enabled(s, t)
    ensures Invariant(Step(s, t))
  {
    StepLocks(s, t);
    StepMaps(s, t);
    StepHistory(s, t);
    forall u | u in Step(s, t).threads ensures Knows(Step(s, t), Step(s, t).threads[u]) {
      StepKnows(s, t, u);
    }
  }

  lemma CallLocks(s: State, s': State, t: Thread, p: Phase)
    requires LocksMatch(s) && Calls(s, s', t, p)
    ensures LocksMatch(s') && Writer(s') == Writer(s)
  {
  }

  lemma CallInvariant(s: State, s': State, t: Thread, p: Phase)
    requires Invariant(s) && Calls(s, s', t, p)
    ensures Invariant(s')
  {
    CallLocks(s, s', t, p);
    assert s'.forward == s.forward && s'.reverse == s.reverse && s'.next == s.next;
    forall u | u in s'.threads ensures Knows(s', s'.threads[u]) {
      assert u != t ==> Knows(s, s.threads[u]);
    }
  }

  lemma NextInvariant(s: State, s': State)
    requires Invariant(s) && Next(s, s')
    ensures Invariant(s') && Grows(s, s')
  {
    if t, p :| Calls(s, s', t, p) {
      CallInvariant(s, s', t, p);
    } else {
      var t :| Enabled(s, t) && s' == Step(s, t);
      StepInvariant(s, t);
      StepGrows(s, t);
    }
  }

  lemma {:induction false} RunInvariant(run: seq<State>, i: nat)
    requires Run(run) && i < |run|
    ensures Invariant(run[i])
  {
    if i == 0 {
      InitInvariant(run[0]);
    } else {
      RunInvariant(run, i - 1);
      assert Next(run[i - 1], run[i - 1 + 1]);
      NextInvariant(run[i - 1], run[i]);
    }
  }

  /** From one state on, pairs stay and returned results are not forgotten. */
  ghost predicate Keeps(s: State, s': State) {
    Grows(s, s') && s.returned <= s'.returned
  }

  lemma KeepsTrans(a: State, b: State, c: State)
    requires Keeps(a, b) && Keeps(b, c)
    ensures Keeps(a, c)
  {
  }

  lemma NextKeeps(s: State, s': State)
    requires Invariant(s) && Next(s, s')
    ensures Keeps(s, s')
  {
    NextInvariant(s, s');
    NextReturned(s, s');
  }

  lemma StepReturned(s: State, t: Thread)
    requires Enabled(s, t)
    ensures s.returned <= Step(s, t).returned
  {
  }

  lemma NextReturned(s: State, s': State)
    requires Next(s, s')
    ensures s.returned <= s'.returned
  {
    if !(exists t, p :: Calls(s, s', t, p)) {
      var t :| Enabled(s, t) && s' == Step(s, t);
      StepReturned(s, t);
    }
  }

  lemma RunStep(run: seq<State>, i: nat)
    requires Run(run) && i + 1 < |run|
    ensures Keeps(run[i], run[i + 1])
  {
    RunInvariant(run, i);
    assert Next(run[i], run[i + 1]);
    NextKeeps(run[i], run[i + 1]);
  }

  lemma {:induction false} RunGrows(run: seq<State>, i: nat, j: nat)
    requires Run(run) && i <= j < |run|
    ensures Keeps(run[i], run[j])
    decreases j - i
  {
    if i < j {
      RunGrows(run, i, j - 1);
      RunStep(run, j - 1);
      KeepsTrans(run[i], run[j - 1], run[j]);
    }
  }

  // ----- what every interleaving keeps

  /** Whenever no writer is inside its section, the maps are exact inverses with ids 1 .. next-1. */
  lemma QuietStatesAreDense(run: seq<State>, i: nat)
    requires Run(run) && i < |run| && run[i].forwardLock.writer == None
    ensures Dense(run[i].forward, run[i].reverse, run[i].next)
  {
    RunInvariant(run, i);
  }

  /** All calls that ever return for one IRI return one id, and no two IRIs share an id. */
  lemma OneIdPerIri(run: seq<State>, i: nat, j: nat, a: (string, nat), b: (string, nat))
    requires Run(run) && i < |run| && j < |run| && a in run[i].returned && b in run[j].returned
    ensures a.0 == b.0 <==> a.1 == b.1
  {
    var last := |run| - 1;
    RunGrows(run, i, last);
    RunGrows(run, j, last);
    RunInvariant(run, last);
    assert Known(run[last], a.0, a.1) && Known(run[last], b.0, b.1);
  }

  /** A returned id gives its IRI back in every later state: the maps hold the pair, and every
      lookup made from then on answers it. */
  lemma ReturnedIdsStay(run: seq<State>, i: nat, j: nat, r: (string, nat), t: Thread)
    requires Run(run) && i <= j < |run| && r in run[i].returned
    ensures Known(run[j], r.0, r.1)
    ensures Enabled(run[j], t) && run[j].threads[t] == Looking(r.1)
      ==> Step(run[j], t).threads[t] == Answered(r.1, Some(r.0))
  {
    RunGrows(run, i, j);
    RunInvariant(run, j);
    assert r in run[j].returned;
  }

  /** A lookup never invents an IRI: what it answers is what some insertion numbered. */
  lemma AnswersAreRight(run: seq<State>, i: nat, j: nat, a: (nat, Option<string>), r: (string, nat))
    requires Run(run) && i < |run| && j < |run| && a in run[i].answers && a.1.Some? && r in run[j].returned
    ensures a.0 == r.1 <==> a.1.value == r.0
  {
    var last := |run| - 1;
    RunInvariant(run, i);
    RunGrows(run, i, last);
    RunGrows(run, j, last);
    RunInvariant(run, last);
    assert Known(run[i], a.1.value, a.0) && Known(run[last], r.0, r.1);
    assert Known(run[last], a.1.value, a.0);
  }

  /** Taking the locks in one order rules out deadlock: while any call is in progress, some thread can move. */
  lemma NoDeadlock(run: seq<State>, i: nat, t: Thread)
    requires Run(run) && i < |run| && t in run[i].threads && !run[i].threads[t].Idle?
    ensures exists u :: Enabled(run[i], u)
  {
    var s := run[i];
    RunInvariant(run, i);
    if s.reverseLock.writer.Some? {
      assert Enabled(s, s.reverseLock.writer.value);
    } else if s.reverseLock.readers != {} {
      var u :| u in s.reverseLock.readers;
      assert Enabled(s, u);
    } else if s.forwardLock.writer.Some? {
      assert Enabled(s, s.forwardLock.writer.value);
    } else if s.forwardLock.readers != {} {
      var u :| u in s.forwardLock.readers;
      assert Enabled(s, u);
    } else {
      assert Enabled(s, t);
    }
  }
}
