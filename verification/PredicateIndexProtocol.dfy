/** The predicate index used by many threads (storage/src/index.rs). Edges, counts and total sit behind
    three locks, and a call takes one after the other, so calls may interleave between them. A removal
    goes on to the counts only if it took an edge away. */
module PredicateIndexProtocol {
  import opened Indexes

  /** The index, and the calls between their locks: those with an edge put or taken that is not yet
      counted, by predicate, and those counted but not yet in the total. */
  datatype Shared = Shared(index: Predicates, puts: multiset<nat>, takes: multiset<nat>, ups: nat, downs: nat)

  /** What a thread does under one lock. */
  datatype Move =
    | PutEdge(p: nat, e: Edge)
    | TakeEdge(p: nat, e: Edge)
    | CountUp(p: nat)
    | CountDown(p: nat)
    | TotalUp
    | TotalDown

  const START := Shared(NO_PREDICATES, multiset{}, multiset{}, 0, 0)

  /** Some thread has come far enough to do this. */
  predicate Enabled(st: Shared, m: Move) {
    match m
    case PutEdge(_, _) => true
    case TakeEdge(_, _) => true
    case CountUp(p) => p in st.puts
    case CountDown(p) => p in st.takes
    case TotalUp => st.ups > 0
    case TotalDown => st.downs > 0
  }

  function EdgesWithout(edges: map<nat, set<Edge>>, p: nat, e: Edge): map<nat, set<Edge>>
    requires p in edges
  {
    if edges[p] - {e} == {} then edges - {p} else edges[p := edges[p] - {e}]
  }

  function CountsDown(counts: map<nat, nat>, p: nat): map<nat, nat> {
    if p !in counts then counts
    else if SaturatingDec(counts[p]) == 0 then counts - {p}
    else counts[p := SaturatingDec(counts[p])]
  }

  function Step(st: Shared, m: Move): Shared
    requires Enabled(st, m)
  {
    var i := st.index;
    match m
    case PutEdge(p, e) => st.(index := i.(edges := i.edges[p := EdgesAt(i, p) + {e}]), puts := st.puts + multiset{p})
    case TakeEdge(p, e) =>
      if e !in EdgesAt(i, p) then st
      else st.(index := i.(edges := EdgesWithout(i.edges, p, e)), takes := st.takes + multiset{p})
    case CountUp(p) =>
      st.(index := i.(counts := i.counts[p := CountAt(i, p) + 1]), puts := st.puts - multiset{p}, ups := st.ups + 1)
    case CountDown(p) =>
      st.(index := i.(counts := CountsDown(i.counts, p)), takes := st.takes - multiset{p}, downs := st.downs + 1)
    case TotalUp => st.(index := i.(total := i.total + 1), ups := st.ups - 1)
    case TotalDown => st.(index := i.(total := SaturatingDec(i.total)), downs := st.downs - 1)
  }

  /** The moves can be made in this order, from an empty index. */
  predicate Possible(moves: seq<Move>)
    decreases |moves|, 0
  {
    moves == [] || (Possible(moves[..|moves| - 1]) && Enabled(Run(moves[..|moves| - 1]), moves[|moves| - 1]))
  }

  function Run(moves: seq<Move>): Shared
    requires Possible(moves)
    decreases |moves|, 1
  {
    if moves == [] then START else Step(Run(moves[..|moves| - 1]), moves[|moves| - 1])
  }

  /** No call is under way. */
  predicate Quiet(st: Shared) {
    st.puts == multiset{} && st.takes == multiset{} && st.ups == 0 && st.downs == 0
  }

  // ----- what the moves would do one call at a time

  /** The calls in the order in which they had the edges. */
  function InTurn(moves: seq<Move>): seq<Change> {
    if moves == [] then []
    else
      var before, m := InTurn(moves[..|moves| - 1]), moves[|moves| - 1];
      if m.PutEdge? then before + [Add(m.p, m.e)] else if m.TakeEdge? then before + [Remove(m.p, m.e)] else before
  }

  /** How often a removal came to count p down and found no count. */
  function Missed(moves: seq<Move>, p: nat): nat
    requires Possible(moves)
  {
    if moves == [] then 0
    else
      var before, m := moves[..|moves| - 1], moves[|moves| - 1];
      Missed(before, p) + if m == CountDown(p) && p !in Run(before).index.counts then 1 else 0
  }

  /** How often a removal found the total at zero. */
  function MissedTotals(moves: seq<Move>): nat
    requires Possible(moves)
  {
    if moves == [] then 0
    else
      var before, m := moves[..|moves| - 1], moves[|moves| - 1];
      MissedTotals(before) + if m.TotalDown? && Run(before).index.total == 0 then 1 else 0
  }

  lemma RunChangesSnoc(cs: seq<Change>, c: Change)
    ensures RunChanges(cs + [c]) == After(RunChanges(cs), c)
  {
    assert (cs + [c])[..|cs|] == cs;
  }

  /** Against the index of the calls in turn: the same edges; counts and total differ by the calls under
      way and by what was missed. */
  ghost predicate Tracks(st: Shared, i: Predicates, p: nat, missed: nat, missedTotals: nat) {
    && st.index.edges == i.edges && Balanced(i)
    && (forall q :: q in st.index.counts ==> st.index.counts[q] > 0)
    && CountAt(st.index, p) + st.puts[p] == CountAt(i, p) + missed + st.takes[p]
    && st.index.total + st.ups + |st.puts| == i.total + missedTotals + st.downs + |st.takes|
  }

  lemma EdgeMoveTracks(st: Shared, i: Predicates, p: nat, missed: nat, missedTotals: nat, m: Move)
    requires Tracks(st, i, p, missed, missedTotals) && (m.PutEdge? || m.TakeEdge?)
    ensures Tracks(Step(st, m), After(i, if m.PutEdge? then Add(m.p, m.e) else Remove(m.p, m.e)), p, missed, missedTotals)
  {
    if m.PutEdge? {
      AddBalanced(i, m.p, m.e);
    } else {
      RemoveBalanced(i, m.p, m.e);
    }
  }

  lemma CountMoveTracks(st: Shared, i: Predicates, p: nat, missed: nat, missedTotals: nat, m: Move)
    requires Tracks(st, i, p, missed, missedTotals) && Enabled(st, m) && (m.CountUp? || m.CountDown?)
    ensures Tracks(Step(st, m), i, p, missed + (if m == CountDown(p) && p !in st.index.counts then 1 else 0), missedTotals)
  {
  }

  lemma TotalMoveTracks(st: Shared, i: Predicates, p: nat, missed: nat, missedTotals: nat, m: Move)
    requires Tracks(st, i, p, missed, missedTotals) && Enabled(st, m) && (m.TotalUp? || m.TotalDown?)
    ensures Tracks(Step(st, m), i, p, missed, missedTotals + (if m.TotalDown? && st.index.total == 0 then 1 else 0))
  {
  }

  /** In every interleaving, at every moment. */
  lemma {:induction false} RunTracks(moves: seq<Move>, p: nat)
    requires Possible(moves)
    ensures Tracks(Run(moves), RunChanges(InTurn(moves)), p, Missed(moves, p), MissedTotals(moves))
  {
    if moves == [] {
      RunBalanced([]);
    } else {
      var before, m := moves[..|moves| - 1], moves[|moves| - 1];
      RunTracks(before, p);
      var st, cs := Run(before), InTurn(before);
      match m
      case PutEdge(q, e) =>
        EdgeMoveTracks(st, RunChanges(cs), p, Missed(before, p), MissedTotals(before), m);
        RunChangesSnoc(cs, Add(q, e));
      case TakeEdge(q, e) =>
        EdgeMoveTracks(st, RunChanges(cs), p, Missed(before, p), MissedTotals(before), m);
        RunChangesSnoc(cs, Remove(q, e));
      case CountUp(_) => CountMoveTracks(st, RunChanges(cs), p, Missed(before, p), MissedTotals(before), m);
      case CountDown(_) => CountMoveTracks(st, RunChanges(cs), p, Missed(before, p), MissedTotals(before), m);
      case TotalUp => TotalMoveTracks(st, RunChanges(cs), p, Missed(before, p), MissedTotals(before), m);
      case TotalDown => TotalMoveTracks(st, RunChanges(cs), p, Missed(before, p), MissedTotals(before), m);
    }
  }

  // ----- when all calls have finished

  lemma SameCounts(a: map<nat, nat>, b: map<nat, nat>, i: Predicates, j: Predicates)
    requires i.counts == a && j.counts == b && forall p :: CountAt(i, p) == CountAt(j, p)
    requires (forall p :: p in a ==> a[p] > 0) && forall p :: p in b ==> b[p] > 0
    ensures a == b
  {
    forall p ensures p in a <==> p in b {
      assert CountAt(i, p) == CountAt(j, p);
    }
    forall p | p in a ensures a[p] == b[p] {
      assert CountAt(i, p) == CountAt(j, p);
    }
  }

  /** However the calls interleaved, once they have finished the index has the edges of the calls in turn;
      each count is too high by the decrements it missed, and so is the total. */
  lemma QuietCounts(moves: seq<Move>, p: nat)
    requires Possible(moves) && Quiet(Run(moves))
    ensures var i, turn := Run(moves).index, RunChanges(InTurn(moves));
      && i.edges == turn.edges && i.total == turn.total + MissedTotals(moves)
      && CountAt(i, p) == CountAt(turn, p) + Missed(moves, p)
      && CountAt(i, p) == |EdgesAt(i, p)| + ReAdded(InTurn(moves), p) + Missed(moves, p)
  {
    RunTracks(moves, p);
    CountsDriftByReAdding(InTurn(moves), p);
  }

  /** No decrement came before its increment: every one found a count, and a total, to lower. */
  ghost predicate NothingMissed(moves: seq<Move>)
    requires Possible(moves)
  {
    MissedTotals(moves) == 0 && forall p: nat :: Missed(moves, p) == 0
  }

  lemma InTurnIfNothingMissed(moves: seq<Move>)
    requires Possible(moves) && Quiet(Run(moves)) && NothingMissed(moves)
    ensures Run(moves).index == RunChanges(InTurn(moves))
  {
    var i, turn := Run(moves).index, RunChanges(InTurn(moves));
    forall p: nat ensures CountAt(i, p) == CountAt(turn, p) {
      QuietCounts(moves, p);
    }
    QuietCounts(moves, 0);
    RunTracks(moves, 0);
    SameCounts(i.counts, turn.counts, i, turn);
  }

  /** So the interleaving does no harm if and only if nothing was missed. */
  lemma InterleavingExact(moves: seq<Move>)
    requires Possible(moves) && Quiet(Run(moves))
    ensures Run(moves).index == RunChanges(InTurn(moves)) <==> NothingMissed(moves)
  {
    if NothingMissed(moves) {
      InTurnIfNothingMissed(moves);
    } else {
      QuietCounts(moves, 0);
      if p: nat :| Missed(moves, p) != 0 { QuietCounts(moves, p); }
    }
  }

  /** An edge put and taken away again, with the removal first at the count: the count stays at one
      although the edge is gone. */
  lemma RemovalOvertakes(p: nat, e: Edge)
    ensures var moves := [PutEdge(p, e), TakeEdge(p, e), CountDown(p), TotalDown, CountUp(p), TotalUp];
      Possible(moves) && Quiet(Run(moves)) && EdgesAt(Run(moves).index, p) == {} && CountAt(Run(moves).index, p) == 1
  {
    var none: seq<Move> := [];
    var m := [PutEdge(p, e), TakeEdge(p, e), CountDown(p), TotalDown, CountUp(p), TotalUp];
    RunSnoc(none, m[0]);
    RunSnoc(none + [m[0]], m[1]);
    RunSnoc(none + [m[0]] + [m[1]], m[2]);
    RunSnoc(none + [m[0]] + [m[1]] + [m[2]], m[3]);
    RunSnoc(none + [m[0]] + [m[1]] + [m[2]] + [m[3]], m[4]);
    RunSnoc(none + [m[0]] + [m[1]] + [m[2]] + [m[3]] + [m[4]], m[5]);
    assert none + [m[0]] + [m[1]] + [m[2]] + [m[3]] + [m[4]] + [m[5]] == m;
  }

  lemma RunSnoc(moves: seq<Move>, m: Move)
    requires Possible(moves) && Enabled(Run(moves), m)
    ensures Possible(moves + [m]) && Run(moves + [m]) == Step(Run(moves), m)
  {
    assert (moves + [m])[..|moves|] == moves;
  }
}
