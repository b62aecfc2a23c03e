/** Basic graph patterns by definition (section 18.3 of SPARQL 1.1): a solution maps exactly the
    variables of the pattern and sends every triple pattern into the data. Evaluation by joins
    finds each solution exactly once, whatever the order of the patterns. */
module BgpSolutions {
  import opened Common
  import opened Rdf
  import opened Sparql

  function TermAt(p: TermPattern, m: Row): Term
    requires TermVars(p) <= m.Keys
  {
    match p
    case Var(v) => m[v]
    case Fixed(t) => if t.Blank? then m["_:" + t.id] else t
  }

  predicate Matches(tp: TriplePattern, m: Row, t: Triple)
    requires TripleVars(tp) <= m.Keys
  {
    && TermAt(tp.subj, m) == t.subj
    && (if tp.pred.PredVar? then m[tp.pred.name] == Iri(t.pred) else tp.pred.iri == t.pred)
    && TermAt(tp.obj, m) == t.obj
  }

  ghost predicate Satisfied(tp: TriplePattern, data: seq<Triple>, m: Row) {
    TripleVars(tp) <= m.Keys && exists t :: t in data && Matches(tp, m, t)
  }

  ghost predicate Solves(tps: seq<TriplePattern>, data: seq<Triple>, m: Row) {
    m.Keys == BgpVars(tps) && forall tp :: tp in tps ==> Satisfied(tp, data, m)
  }

  function Restrict(m: Row, vars: set<string>): Row {
    map v | v in m && v in vars :: m[v]
  }

  ghost predicate Binds(rows: seq<Row>, vars: set<string>) {
    forall m :: m in rows ==> m.Keys == vars
  }

  /** m extends the row o holds. */
  ghost predicate Within(o: Option<Row>, m: Row) {
    o.Some? && o.value.Keys <= m.Keys && forall v :: v in o.value ==> o.value[v] == m[v]
  }

  lemma BindTermWithin(p: TermPattern, t: Term, m: Row)
    requires TermVars(p) <= m.Keys
    ensures Within(BindTerm(p, t), m) <==> TermAt(p, m) == t
    ensures BindTerm(p, t).Some? ==> BindTerm(p, t).value.Keys == TermVars(p)
  {
  }

  lemma BothWithin(a: Option<Row>, b: Option<Row>, m: Row)
    ensures Within(Both(a, b), m) <==> Within(a, m) && Within(b, m)
    ensures Both(a, b).Some? ==> Both(a, b).value.Keys == a.value.Keys + b.value.Keys
  {
    if Both(a, b).Some? && Within(Both(a, b), m) {
      var ab := a.value + b.value;
      assert forall v :: v in a.value ==> v in ab && ab[v] == a.value[v];
      assert forall v :: v in b.value ==> v in ab && ab[v] == b.value[v];
    }
  }

  lemma BindTripleIff(tp: TriplePattern, t: Triple, m: Row)
    ensures BindTriple(tp, t) == Some(m) <==> m.Keys == TripleVars(tp) && Matches(tp, m, t)
  {
    var s, p, o := BindTerm(tp.subj, t.subj), BindPredicate(tp.pred, t.pred), BindTerm(tp.obj, t.obj);
    BothWithin(s, p, m);
    BothWithin(Both(s, p), o, m);
    if TripleVars(tp) <= m.Keys {
      BindTermWithin(tp.subj, t.subj, m);
      BindTermWithin(tp.obj, t.obj, m);
      assert Within(p, m) <==> if tp.pred.PredVar? then m[tp.pred.name] == Iri(t.pred) else tp.pred.iri == t.pred;
    }
    if BindTriple(tp, t).Some? && m.Keys == TripleVars(tp) && Within(BindTriple(tp, t), m) {
      assert BindTriple(tp, t).value == m;
    }
  }

  lemma {:induction false} EvalTripleMember(tp: TriplePattern, data: seq<Triple>, m: Row)
    ensures m in EvalTriple(tp, data) <==> m.Keys == TripleVars(tp) && Satisfied(tp, data, m)
  {
    if data != [] {
      EvalTripleMember(tp, data[1..], m);
      BindTripleIff(tp, data[0], m);
      assert data == [data[0]] + data[1..];
    }
  }

  lemma {:induction false} EvalTripleNoDup(tp: TriplePattern, data: seq<Triple>)
    requires NoDup(data)
    ensures NoDup(EvalTriple(tp, data))
  {
    if data != [] {
      EvalTripleNoDup(tp, data[1..]);
      var b := BindTriple(tp, data[0]);
      if b.Some? {
        BindTripleIff(tp, data[0], b.value);
        EvalTripleMember(tp, data[1..], b.value);
        assert forall t :: t in data[1..] ==> t != data[0];
      }
    }
  }

  lemma {:induction false} JoinRowMember(a: Row, rows: seq<Row>, vars: set<string>, m: Row)
    requires Binds(rows, vars)
    ensures m in JoinRow(a, rows) <==>
      m.Keys == a.Keys + vars && Restrict(m, a.Keys) == a && Restrict(m, vars) in rows
  {
    if rows != [] {
      var b := rows[0];
      assert b in rows;
      assert Binds(rows[1..], vars);
      JoinRowMember(a, rows[1..], vars, m);
      if Compatible(a, b) {
        assert Restrict(a + b, a.Keys) == a && Restrict(a + b, vars) == b;
      }
      if m.Keys == a.Keys + vars && Restrict(m, a.Keys) == a && Restrict(m, vars) == b {
        assert forall v :: v in b ==> b[v] == m[v];
        assert forall v :: v in a ==> a[v] == m[v];
        assert a + b == m;
      }
    }
  }

  lemma {:induction false} JoinRowNoDup(a: Row, rows: seq<Row>, vars: set<string>)
    requires Binds(rows, vars) && NoDup(rows)
    ensures NoDup(JoinRow(a, rows))
  {
    if rows != [] {
      var b := rows[0];
      assert b in rows;
      JoinRowNoDup(a, rows[1..], vars);
      if Compatible(a, b) {
        assert Restrict(a + b, vars) == b;
        JoinRowMember(a, rows[1..], vars, a + b);
        assert b !in rows[1..];
      }
    }
  }

  lemma {:induction false} JoinRowsMember(a: seq<Row>, va: set<string>, b: seq<Row>, vb: set<string>, m: Row)
    requires Binds(a, va) && Binds(b, vb)
    ensures m in JoinRows(a, b) <==>
      m.Keys == va + vb && Restrict(m, va) in a && Restrict(m, vb) in b
  {
    if a != [] {
      assert a[0] in a;
      JoinRowMember(a[0], b, vb, m);
      JoinRowsMember(a[1..], va, b, vb, m);
    }
  }

  lemma {:induction false} JoinRowsNoDup(a: seq<Row>, va: set<string>, b: seq<Row>, vb: set<string>)
    requires Binds(a, va) && Binds(b, vb) && NoDup(a) && NoDup(b)
    ensures NoDup(JoinRows(a, b))
  {
    if a != [] {
      assert a[0] in a;
      JoinRowsNoDup(a[1..], va, b, vb);
      JoinRowNoDup(a[0], b, vb);
      forall m | m in JoinRow(a[0], b) ensures m !in JoinRows(a[1..], b) {
        JoinRowMember(a[0], b, vb, m);
        JoinRowsMember(a[1..], va, b, vb, m);
      }
      NoDupConcat(JoinRow(a[0], b), JoinRows(a[1..], b));
    }
  }

  lemma RestrictSatisfied(tp: TriplePattern, data: seq<Triple>, m: Row, vars: set<string>)
    requires TripleVars(tp) <= vars <= m.Keys
    ensures Satisfied(tp, data, Restrict(m, vars)) <==> Satisfied(tp, data, m)
  {
    assert forall t :: Matches(tp, Restrict(m, vars), t) <==> Matches(tp, m, t);
  }

  lemma {:induction false} BgpVarsCover(tps: seq<TriplePattern>)
    ensures forall tp :: tp in tps ==> TripleVars(tp) <= BgpVars(tps)
  {
    if tps != [] {
      BgpVarsCover(tps[1..]);
      assert tps == [tps[0]] + tps[1..];
    }
  }

  /** A solution satisfies the first pattern, and solves the others on their variables. */
  lemma SolvesCons(tps: seq<TriplePattern>, data: seq<Triple>, m: Row)
    requires tps != [] && m.Keys == BgpVars(tps)
    ensures Solves(tps, data, m) <==>
      Satisfied(tps[0], data, m) && Solves(tps[1..], data, Restrict(m, BgpVars(tps[1..])))
  {
    var rest := tps[1..];
    var r := Restrict(m, BgpVars(rest));
    BgpVarsCover(rest);
    assert tps == [tps[0]] + rest;
    forall q | q in rest ensures Satisfied(q, data, r) <==> Satisfied(q, data, m) {
      RestrictSatisfied(q, data, m, BgpVars(rest));
    }
  }

  lemma EvalTripleBinds(tp: TriplePattern, data: seq<Triple>)
    ensures Binds(EvalTriple(tp, data), TripleVars(tp))
  {
    forall r | r in EvalTriple(tp, data) ensures r.Keys == TripleVars(tp) {
      EvalTripleMember(tp, data, r);
    }
  }

  lemma {:induction false} EvalBgpMember(tps: seq<TriplePattern>, data: seq<Triple>, m: Row)
    ensures m in EvalBgp(tps, data) <==> Solves(tps, data, m)
  {
    if tps != [] {
      var tp, rest := tps[0], tps[1..];
      EvalBgpBinds(rest, data);
      EvalTripleBinds(tp, data);
      JoinRowsMember(EvalTriple(tp, data), TripleVars(tp), EvalBgp(rest, data), BgpVars(rest), m);
      if m.Keys == BgpVars(tps) {
        EvalTripleMember(tp, data, Restrict(m, TripleVars(tp)));
        EvalBgpMember(rest, data, Restrict(m, BgpVars(rest)));
        RestrictSatisfied(tp, data, m, TripleVars(tp));
        SolvesCons(tps, data, m);
      }
    }
  }

  lemma {:induction false} EvalBgpBinds(tps: seq<TriplePattern>, data: seq<Triple>)
    ensures Binds(EvalBgp(tps, data), BgpVars(tps))
  {
    if tps != [] {
      var tp, rest := tps[0], tps[1..];
      EvalBgpBinds(rest, data);
      EvalTripleBinds(tp, data);
      forall m | m in EvalBgp(tps, data) ensures m.Keys == BgpVars(tps) {
        JoinRowsMember(EvalTriple(tp, data), TripleVars(tp), EvalBgp(rest, data), BgpVars(rest), m);
      }
    }
  }

  lemma {:induction false} EvalBgpNoDup(tps: seq<TriplePattern>, data: seq<Triple>)
    requires NoDup(data)
    ensures NoDup(EvalBgp(tps, data))
  {
    if tps != [] {
      var tp, rest := tps[0], tps[1..];
      EvalTripleNoDup(tp, data);
      EvalBgpNoDup(rest, data);
      EvalBgpBinds(rest, data);
      EvalTripleBinds(tp, data);
      JoinRowsNoDup(EvalTriple(tp, data), TripleVars(tp), EvalBgp(rest, data), BgpVars(rest));
    }
  }

  /** Evaluation by joins is the definition: every solution once, nothing else. */
  lemma BgpCounts(tps: seq<TriplePattern>, data: seq<Triple>, m: Row)
    requires NoDup(data)
    ensures multiset(EvalBgp(tps, data))[m] == if Solves(tps, data, m) then 1 else 0
  {
    EvalBgpMember(tps, data, m);
    EvalBgpNoDup(tps, data);
    NoDupCount(EvalBgp(tps, data), m);
  }

  lemma {:induction false} BgpVarsAreUnion(tps: seq<TriplePattern>, v: string)
    ensures v in BgpVars(tps) <==> exists tp :: tp in tps && v in TripleVars(tp)
  {
    if tps != [] {
      BgpVarsAreUnion(tps[1..], v);
      assert tps == [tps[0]] + tps[1..];
    }
  }

  /** Joining the same triple patterns in another order, or with some repeated, gives the same bag. */
  lemma BgpOrderIrrelevant(tps: seq<TriplePattern>, tps': seq<TriplePattern>, data: seq<Triple>)
    requires NoDup(data)
    requires forall tp :: tp in tps <==> tp in tps'
    ensures multiset(EvalBgp(tps, data)) == multiset(EvalBgp(tps', data))
  {
    forall v ensures v in BgpVars(tps) <==> v in BgpVars(tps') {
      BgpVarsAreUnion(tps, v);
      BgpVarsAreUnion(tps', v);
    }
    assert BgpVars(tps) == BgpVars(tps');
    EvalBgpNoDup(tps, data);
    EvalBgpNoDup(tps', data);
    forall m ensures m in EvalBgp(tps, data) <==> m in EvalBgp(tps', data) {
      EvalBgpMember(tps, data, m);
      EvalBgpMember(tps', data, m);
    }
    NoDupSameElements(EvalBgp(tps, data), EvalBgp(tps', data));
  }
}
