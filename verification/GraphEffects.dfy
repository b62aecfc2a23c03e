/** When two lists of graph effects can change places, and when one adds nothing. */
module GraphEffects {
  import opened PropertyGraph

  /** The one case where order matters: two values for one property of one node. */
  predicate Clash(x: Op, y: Op) {
    x.PutProp? && y.PutProp? && x.key == y.key && x.name == y.name && x.value != y.value
  }

  ghost predicate Commuting(a: seq<Op>, b: seq<Op>) {
    forall i, j :: 0 <= i < |a| && 0 <= j < |b| ==> !Clash(a[i], b[j])
  }

  /** A written value comes from one of the effects. */
  lemma {:induction false} WriteSource(ops: seq<Op>, k: NodeKey, name: string)
    requires name in WritesTo(ops, k)
    ensures exists i :: 0 <= i < |ops| && ops[i] == PutProp(k, name, WritesTo(ops, k)[name])
  {
    var before, last := ops[..|ops| - 1], ops[|ops| - 1];
    if last.PutProp? && last.key == k && last.name == name {
      assert ops[|ops| - 1] == PutProp(k, name, WritesTo(ops, k)[name]);
    } else {
      WriteSource(before, k, name);
      var i :| 0 <= i < |before| && before[i] == PutProp(k, name, WritesTo(before, k)[name]);
      assert ops[i] == before[i];
    }
  }

  lemma SwapWrites(a: seq<Op>, b: seq<Op>, k: NodeKey)
    requires Commuting(a, b)
    ensures WritesTo(a + b, k) == WritesTo(b + a, k)
  {
    WritesConcat(a, b, k);
    WritesConcat(b, a, k);
    forall n | n in WritesTo(a, k) && n in WritesTo(b, k) ensures WritesTo(a, k)[n] == WritesTo(b, k)[n] {
      WriteSource(a, k, n);
      WriteSource(b, k, n);
      var i :| 0 <= i < |a| && a[i] == PutProp(k, n, WritesTo(a, k)[n]);
      var j :| 0 <= j < |b| && b[j] == PutProp(k, n, WritesTo(b, k)[n]);
      assert !Clash(a[i], b[j]);
    }
  }

  lemma Swap(a: seq<Op>, b: seq<Op>)
    requires Commuting(a, b)
    ensures SameEffect(a + b, b + a)
  {
    TouchedConcat(a, b);
    TouchedConcat(b, a);
    forall k ensures LabelsAt(a + b, k) == LabelsAt(b + a, k) && WritesTo(a + b, k) == WritesTo(b + a, k) {
      LabelsConcat(a, b, k);
      LabelsConcat(b, a, k);
      SwapWrites(a, b, k);
    }
  }

  /** Repeating an effect that clashes with nothing changes nothing. */
  lemma AbsorbOne(a: seq<Op>, x: Op)
    requires x in a && Commuting(a, [x])
    ensures SameEffect(a + [x], a)
  {
    var i :| 0 <= i < |a| && a[i] == x;
    TouchedConcat(a, [x]);
    assert [x][0] == x;
    assert Touched([x]) <= Touched(a) && Links([x]) <= Links(a);
    forall k ensures LabelsAt(a + [x], k) == LabelsAt(a, k) && WritesTo(a + [x], k) == WritesTo(a, k) {
      LabelsConcat(a, [x], k);
      assert LabelsAt([x], k) <= LabelsAt(a, k);
      AbsorbWrite(a, x, i, k);
    }
  }

  lemma {:induction false} WriteStays(a: seq<Op>, i: nat, k: NodeKey, name: string)
    requires i < |a| && a[i].PutProp? && a[i].key == k && a[i].name == name
    ensures name in WritesTo(a, k)
  {
    if i < |a| - 1 { WriteStays(a[..|a| - 1], i, k, name); }
  }

  lemma AbsorbWrite(a: seq<Op>, x: Op, i: nat, k: NodeKey)
    requires i < |a| && a[i] == x && Commuting(a, [x])
    ensures WritesTo(a + [x], k) == WritesTo(a, k)
  {
    assert (a + [x])[..|a|] == a;
    if x.PutProp? && x.key == k {
      WriteStays(a, i, k, x.name);
      WriteSource(a, k, x.name);
      var j :| 0 <= j < |a| && a[j] == PutProp(k, x.name, WritesTo(a, k)[x.name]);
      assert [x][0] == x && !Clash(a[j], [x][0]);
    }
  }

  lemma SameEffectTrans(a: seq<Op>, b: seq<Op>, c: seq<Op>)
    requires SameEffect(a, b) && SameEffect(b, c)
    ensures SameEffect(a, c)
  {
  }

  lemma SameEffectThen(a: seq<Op>, b: seq<Op>, c: seq<Op>)
    requires SameEffect(a, b)
    ensures SameEffect(a + c, b + c) && SameEffect(c + a, c + b)
  {
    SameEffectConcat(a, b, c, c);
    SameEffectConcat(c, c, a, b);
  }

  /** An effect moves past what it commutes with. */
  lemma MoveBack(a: seq<Op>, x: seq<Op>, b: seq<Op>)
    requires Commuting(x, b)
    ensures SameEffect(a + x + b, a + b + x)
  {
    Swap(x, b);
    SameEffectThen(x + b, b + x, a);
    assert a + x + b == a + (x + b) && a + b + x == a + (b + x);
  }
}
