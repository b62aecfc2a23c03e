/** Made-up names. A basic graph pattern is answered rightly over all data exactly when none of the
    names made up for it is one of its variables, or when it asks for what is never an edge. */
module TranslatorNames {
  import opened Common
  import opened Rdf
  import opened Schema
  import opened PropertyGraph
  import opened CypherGenerator
  import opened CypherQuery
  import opened S = Sparql
  import opened Translator
  import opened BgpSolutions
  import opened TranslatorJoins
  import opened TranslatorTheorem
  import opened TranslatorResults

  ghost predicate RightOnAllData(p: Pattern, c: nat) {
    forall d, ts, data :: Serves(d, ts, data) ==> Right(p, c, d, data, Vars(p))
  }

  // ----- what every row found for a list of paths looks like

  ghost predicate Traverses(r: CRow, p: Path, e: Edge) {
    && {p.source, p.rel, p.target} <= r.Keys
    && r[p.source] == NodeVal(e.source) && r[p.rel] == RelVal(e) && r[p.target] == NodeVal(e.target)
    && (p.pred.Some? ==> ReadCypherString(p.pred.value) == Some(e.pred))
  }

  lemma {:induction false} PartTraverses(p: Part, r: CRow, edges: seq<Edge>, r': CRow)
    requires p.PathPart? && r' in MatchPart(p, r, edges)
    ensures exists e :: e in edges && Traverses(r', p.path, e)
  {
    if r' in ToSeq(MatchPath(p.path, edges[0], r)) {
      assert Traverses(r', p.path, edges[0]);
    } else {
      PartTraverses(p, r, edges[1..], r');
    }
  }

  lemma {:induction false} RowTraverses(parts: seq<Part>, r: CRow, edges: seq<Edge>, r': CRow, i: nat)
    requires PathsOnly(parts) && i < |parts| && r' in MatchAll(parts, r, edges)
    ensures exists e :: e in edges && Traverses(r', parts[i].path, e)
    decreases |parts|
  {
    var rows, rest := MatchPart(parts[0], r, edges), parts[1..];
    MatchEachMember(rest, rows, edges, r');
    var r1 :| r1 in rows && r' in MatchAll(rest, r1, edges);
    if i == 0 {
      PartTraverses(parts[0], r, edges, r1);
      var e :| e in edges && Traverses(r1, parts[0].path, e);
      MatchAllExtends(rest, r1, edges);
      assert Traverses(r', parts[0].path, e);
    } else {
      RowTraverses(rest, r1, edges, r', i - 1);
    }
  }

  // ----- the pieces of a compiled basic graph pattern

  /** The i-th triple pattern was compiled with the counter at n. */
  ghost predicate PieceOf(out: Compiled, tp: TriplePattern, i: nat, n: nat) {
    && i < |out.parts| && out.parts[i] == CompileTriple(tp, n).parts[0]
    && forall cond :: cond in CompileTriple(tp, n).conds ==> cond in out.conds
  }

  lemma PieceThen(first: Compiled, rest: Compiled, tp: TriplePattern, i: nat, n: nat)
    requires |first.parts| == 1 && PieceOf(rest, tp, i, n)
    ensures PieceOf(Then(first, rest), tp, i + 1, n)
  {
  }

  lemma {:induction false} Piece(tps: seq<TriplePattern>, c: nat, i: nat) returns (n: nat)
    requires i < |tps|
    ensures PieceOf(CompileBgp(tps, c), tps[i], i, n)
  {
    var first := CompileTriple(tps[0], c);
    if i == 0 {
      n := c;
    } else {
      n := Piece(tps[1..], first.next, i - 1);
      PieceThen(first, CompileBgp(tps[1..], first.next), tps[i], i - 1, n);
    }
  }

  lemma {:induction false} MadeByPiece(tps: seq<TriplePattern>, c: nat, x: string) returns (i: nat, n: nat)
    requires x in MadeByBgp(tps, c)
    ensures i < |tps| && PieceOf(CompileBgp(tps, c), tps[i], i, n) && x in MadeByTriple(tps[i], n)
  {
    var first := CompileTriple(tps[0], c);
    if x in MadeByTriple(tps[0], c) {
      i, n := 0, c;
    } else {
      i, n := MadeByPiece(tps[1..], first.next, x);
      PieceThen(first, CompileBgp(tps[1..], first.next), tps[i + 1], i, n);
      i := i + 1;
    }
  }

  /** A row the query finds goes along an edge for every path and meets every condition. */
  lemma FoundRow(tps: seq<TriplePattern>, c: nat, d: Listing, row: CRow, vars: set<string>) returns (r: CRow)
    requires tps != [] && forall i :: 0 <= i < |tps| ==> PlainPattern(tps[i])
    requires row in BranchRows(BranchOf(Compile(Bgp(tps), c)), vars, d)
    ensures |CompileBgp(tps, c).parts| == |tps| && PathsOnly(CompileBgp(tps, c).parts)
    ensures row == ReturnRow(r, vars)
    ensures forall i :: 0 <= i < |tps| ==>
      exists e :: e in d.edges && Traverses(r, CompileBgp(tps, c).parts[i].path, e)
    ensures forall cond :: cond in CompileBgp(tps, c).conds ==> CondTrue(cond, r, d)
  {
    var out := CompileBgp(tps, c);
    RunJoinTree(Bgp(tps), c, d);
    BgpParts(tps, c);
    var rows := MatchAll(out.parts, map[], d.edges);
    r := ReturnedRow(Where(out.conds, rows, d), vars, row);
    KeptRow(out.conds, rows, d, r);
    forall i | 0 <= i < |tps| ensures exists e :: e in d.edges && Traverses(r, out.parts[i].path, e) {
      RowTraverses(out.parts, map[], d.edges, r, i);
    }
  }

  lemma {:induction false} ReturnedRow(rows: seq<CRow>, vars: set<string>, row: CRow) returns (r: CRow)
    requires row in ReturnAll(rows, vars)
    ensures r in rows && row == ReturnRow(r, vars)
  {
    if row == ReturnRow(rows[0], vars) {
      r := rows[0];
    } else {
      r := ReturnedRow(rows[1..], vars, row);
    }
  }

  lemma {:induction false} KeptRow(cs: seq<Cond>, rows: seq<CRow>, d: Listing, r: CRow)
    requires r in Where(cs, rows, d)
    ensures r in rows && AllTrue(cs, r, d)
  {
    if r in Where(cs, rows[1..], d) { KeptRow(cs, rows[1..], d, r); }
  }

  lemma {:induction false} SolutionIsWanted(ms: seq<Row>, vars: set<string>, m: Row)
    requires m in ms && m.Keys <= vars
    ensures Encode(m) in EncodeAll(ProjectAll(ms, vars))
  {
    var first: Row := map v | v in ms[0] && v in vars :: ms[0][v];
    var all := ProjectAll(ms, vars);
    assert all[0] == first && all[1..] == ProjectAll(ms[1..], vars);
    if m == ms[0] {
      assert first == m;
    } else {
      SolutionIsWanted(ms[1..], vars, m);
    }
  }

  // ----- a name that is also a variable: the pattern itself is data it is answered wrongly on

  const FROZEN: Subject := Blank("x")

  function FrozenTerm(t: TermPattern): Subject
    requires PlainPatternTerm(t)
  {
    if t.Var? then FROZEN else t.term
  }

  /** The triple pattern with one blank node for all its variables. */
  function Frozen(tp: TriplePattern): Triple
    requires PlainPattern(tp)
  {
    Triple(FrozenTerm(tp.subj), tp.pred.iri, FrozenTerm(tp.obj))
  }

  function FrozenAll(tps: seq<TriplePattern>): seq<Triple>
    requires forall i :: 0 <= i < |tps| ==> PlainPattern(tps[i])
  {
    seq(|tps|, i requires 0 <= i < |tps| => Frozen(tps[i]))
  }

  /** Asks for a type by name: such triples are stored as labels, never as edges. */
  predicate AsksForLabel(tp: TriplePattern) {
    tp.pred == PredIri(RDF_TYPE) && tp.obj.Fixed? && tp.obj.term.Iri?
  }

  lemma FrozenIsEdgeTriple(tp: TriplePattern)
    requires PlainPattern(tp) && !AsksForLabel(tp)
    ensures IsEdgeTriple(Frozen(tp)) && PlainTriple(Frozen(tp))
  {
  }

  lemma FrozenServed(tps: seq<TriplePattern>) returns (d: Listing, ts: seq<Triple>, data: seq<Triple>)
    requires forall i :: 0 <= i < |tps| ==> PlainPattern(tps[i]) && !AsksForLabel(tps[i])
    ensures Serves(d, ts, data) && ts == FrozenAll(tps)
  {
    ts := FrozenAll(tps);
    forall t | t in ts ensures IsEdgeTriple(t) && PlainTriple(t) {
      var i :| 0 <= i < |ts| && ts[i] == t;
      FrozenIsEdgeTriple(tps[i]);
    }
    var g := InsertOneByOne(EMPTY, ts);
    var edges := Enumerate(g.edges);
    var nodes := Enumerate(g.nodes.Keys);
    data := Enumerate(Elements(ts));
    d := Listing(g, edges, nodes);
    InsertedServes(d, ts, data);
  }

  function FrozenRow(vars: set<string>): Row {
    map v | v in vars :: FROZEN
  }

  lemma FrozenSolves(tps: seq<TriplePattern>, data: seq<Triple>)
    requires forall i :: 0 <= i < |tps| ==> PlainPattern(tps[i])
    requires forall t :: t in FrozenAll(tps) ==> t in data
    ensures FrozenRow(BgpVars(tps)) in EvalBgp(tps, data)
  {
    var m := FrozenRow(BgpVars(tps));
    BgpVarsCover(tps);
    forall tp | tp in tps ensures Satisfied(tp, data, m) {
      var i :| 0 <= i < |tps| && tps[i] == tp;
      assert FrozenAll(tps)[i] == Frozen(tp);
      assert Matches(tp, m, Frozen(tp));
    }
    EvalBgpMember(tps, data, m);
  }

  /** At a made-up name a found row has a constant or a relationship. */
  lemma ClashingPiece(tp: TriplePattern, n: nat, x: string, r: CRow, e: Edge, d: Listing)
    requires PlainPattern(tp) && x in MadeByTriple(tp, n) && Traverses(r, CompileTriple(tp, n).parts[0].path, e)
    requires forall cond :: cond in CompileTriple(tp, n).conds ==> CondTrue(cond, r, d)
    ensures x in r && r[x] != NodeVal(KeyOf(FROZEN))
  {
    var one, s := CompileTriple(tp, n), TermToCypher(tp.subj, n);
    if x == one.parts[0].path.rel {
    } else if x in MadeByTerm(tp.subj, n) {
      assert one.conds[0] == s.cond.value;
      ConstantElsewhere(tp.subj, n, r, d);
      FrozenKey();
    } else {
      assert one.conds[|one.conds| - 1] == TermToCypher(tp.obj, s.next).cond.value;
      ConstantElsewhere(tp.obj, s.next, r, d);
      FrozenKey();
    }
  }

  lemma FrozenKey()
    ensures StartsBlank(KeyOf(FROZEN).uri)
  {
    KeyOfPlain(FROZEN);
  }

  /** No row of the query sends a variable that is also a made-up name to the blank node. */
  lemma ClashingRow(tps: seq<TriplePattern>, c: nat, d: Listing, x: string, row: CRow)
    requires tps != [] && forall i :: 0 <= i < |tps| ==> PlainPattern(tps[i])
    requires x in MadeByBgp(tps, c) && x in BgpVars(tps)
    requires row in BranchRows(BranchOf(Compile(Bgp(tps), c)), BgpVars(tps), d)
    ensures x in row ==> row[x] != NodeVal(KeyOf(FROZEN))
  {
    var r := FoundRow(tps, c, d, row, BgpVars(tps));
    var i, n := MadeByPiece(tps, c, x);
    var e :| e in d.edges && Traverses(r, CompileBgp(tps, c).parts[i].path, e);
    ClashingPiece(tps[i], n, x, r, e, d);
  }

  /** The condition of a constant does not hold at a blank node. */
  lemma ConstantElsewhere(t: TermPattern, n: nat, r: CRow, d: Listing)
    requires PlainPatternTerm(t) && t.Fixed?
    requires CondTrue(TermToCypher(t, n).cond.value, r, d)
    ensures var v := TermToCypher(t, n).v; v in r && r[v].NodeVal? && !StartsBlank(r[v].key.uri)
  {
    EscapeRoundTripExact(t.term.iri);
  }

  lemma ClashIsWrong(tps: seq<TriplePattern>, c: nat, x: string)
    requires tps != [] && forall i :: 0 <= i < |tps| ==> PlainPattern(tps[i]) && !AsksForLabel(tps[i])
    requires x in MadeByBgp(tps, c) && x in BgpVars(tps)
    ensures !RightOnAllData(Bgp(tps), c)
  {
    var p, vars := Bgp(tps), BgpVars(tps);
    var d, ts, data := FrozenServed(tps);
    forall t | t in ts ensures t in data {
      assert t in Elements(ts) && t in Elements(data);
    }
    FrozenSolves(tps, data);
    var m := FrozenRow(vars);
    var got, want := BranchRows(BranchOf(Compile(p, c)), vars, d), EncodeAll(ProjectAll(Eval(p, data), vars));
    SolutionIsWanted(Eval(p, data), vars, m);
    assert Encode(m) !in got by {
      if Encode(m) in got { ClashingRow(tps, c, d, x, Encode(m)); }
    }
    assert Encode(m) in multiset(want) && Encode(m) !in multiset(got);
    assert !Right(p, c, d, data, Vars(p));
  }

  // ----- a pattern that asks for a label finds nothing on either side

  lemma NoSolution(tps: seq<TriplePattern>, data: seq<Triple>, i: nat)
    requires i < |tps| && AsksForLabel(tps[i]) && forall t :: t in data ==> IsEdgeTriple(t)
    ensures EvalBgp(tps, data) == []
  {
    forall m ensures m !in EvalBgp(tps, data) {
      EvalBgpMember(tps, data, m);
      assert tps[i] in tps;
    }
    Inhabited(EvalBgp(tps, data));
  }

  /** An edge with the predicate rdf:type ends at a blank node. */
  lemma TypeEdge(e: Edge, ts: seq<Triple>, pred: string)
    requires QueryData(ts) && e in EdgesOf(ts) && e.pred == pred == RDF_TYPE
    ensures StartsBlank(e.target.uri)
  {
    var t :| t in ts && IsEdgeTriple(t) && EdgeOf(t) == e;
    assert t.pred == pred;
    KeyOfPlain(t.obj);
  }

  lemma LabelPiece(tp: TriplePattern, n: nat, r: CRow, e: Edge, d: Listing)
    requires PlainPattern(tp) && AsksForLabel(tp) && Traverses(r, CompileTriple(tp, n).parts[0].path, e)
    requires forall cond :: cond in CompileTriple(tp, n).conds ==> CondTrue(cond, r, d)
    ensures e.pred == tp.pred.iri && !StartsBlank(e.target.uri)
  {
    var one, next := CompileTriple(tp, n), TermToCypher(tp.subj, n).next;
    EscapeRoundTripExact(tp.pred.iri);
    assert one.conds[|one.conds| - 1] == TermToCypher(tp.obj, next).cond.value;
    ConstantElsewhere(tp.obj, next, r, d);
  }

  lemma NoRow(tps: seq<TriplePattern>, c: nat, d: Listing, ts: seq<Triple>, data: seq<Triple>, i: nat, row: CRow)
    requires Serves(d, ts, data) && forall j :: 0 <= j < |tps| ==> PlainPattern(tps[j])
    requires i < |tps| && AsksForLabel(tps[i])
    ensures row !in BranchRows(BranchOf(Compile(Bgp(tps), c)), BgpVars(tps), d)
  {
    if row in BranchRows(BranchOf(Compile(Bgp(tps), c)), BgpVars(tps), d) {
      var r := FoundRow(tps, c, d, row, BgpVars(tps));
      var n := Piece(tps, c, i);
      var e :| e in d.edges && Traverses(r, CompileBgp(tps, c).parts[i].path, e);
      LabelPiece(tps[i], n, r, e, d);
      assert e in Elements(d.edges);
      TypeEdge(e, ts, e.pred);
      assert false;
    }
  }

  lemma LabelIsRight(tps: seq<TriplePattern>, c: nat, i: nat)
    requires i < |tps| && AsksForLabel(tps[i]) && forall j :: 0 <= j < |tps| ==> PlainPattern(tps[j])
    ensures RightOnAllData(Bgp(tps), c)
  {
    var p, vars := Bgp(tps), BgpVars(tps);
    forall d, ts, data | Serves(d, ts, data) ensures Right(p, c, d, data, Vars(p)) {
      forall t | t in data ensures IsEdgeTriple(t) {
        assert t in Elements(data) && t in Elements(ts);
      }
      NoSolution(tps, data, i);
      var got := BranchRows(BranchOf(Compile(p, c)), vars, d);
      forall row ensures row !in got {
        NoRow(tps, c, d, ts, data, i, row);
      }
      Inhabited(got);
    }
  }

  /** The translation of a basic graph pattern is right over all data if and only if no name made up
      for it is one of its variables, or it asks for a label and so never has a solution. */
  lemma NamesExact(tps: seq<TriplePattern>, c: nat)
    requires tps != [] && forall i :: 0 <= i < |tps| ==> PlainPattern(tps[i])
    ensures RightOnAllData(Bgp(tps), c)
      <==> MadeByBgp(tps, c) !! BgpVars(tps) || exists i :: 0 <= i < |tps| && AsksForLabel(tps[i])
  {
    if i :| 0 <= i < |tps| && AsksForLabel(tps[i]) {
      LabelIsRight(tps, c, i);
    } else if x :| x in MadeByBgp(tps, c) && x in BgpVars(tps) {
      ClashIsWrong(tps, c, x);
    } else {
      forall d, ts, data | Serves(d, ts, data) ensures Right(Bgp(tps), c, d, data, Vars(Bgp(tps))) {
        BranchCorrect(Bgp(tps), c, d, ts, data, Vars(Bgp(tps)));
      }
    }
  }

  /** <x> pred ?n_0 is answered wrongly on some data when the counter starts at 0, where the constant
      is called n_0 too, and rightly on all data when it starts at 1. */
  lemma GeneratedNameClash(x: string, pred: string)
    requires PlainTerm(Iri(x)) && Clean(pred)
    ensures var p := Bgp([TriplePattern(Fixed(Iri(x)), PredIri(pred), Var("n_0"))]);
      !RightOnAllData(p, 0) && RightOnAllData(p, 1)
  {
    var tp := TriplePattern(Fixed(Iri(x)), PredIri(pred), Var("n_0"));
    assert Decimal(0) == "0" && Decimal(1) == "1";
    assert Fresh("n", 0) == "n_0" && Fresh("n", 1) == "n_1";
    assert Fresh("r", 2)[0] == 'r';
    OneMade(tp, 0);
    OneMade(tp, 1);
    assert [tp][0].obj.Var?;
    NamesExact([tp], 0);
    NamesExact([tp], 1);
  }

  lemma OneMade(tp: TriplePattern, c: nat)
    ensures MadeByBgp([tp], c) == MadeByTriple(tp, c) && BgpVars([tp]) == TripleVars(tp)
  {
    var tps := [tp];
    assert tps[1..] == [] && tps[0] == tp;
    assert MadeByBgp(tps, c) == MadeByTriple(tp, c) + MadeByBgp(tps[1..], CompileTriple(tp, c).next);
    assert BgpVars(tps) == TripleVars(tp) + BgpVars(tps[1..]);
  }
}
