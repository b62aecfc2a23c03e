/** The IRI dictionary used by one thread (storage/src/dictionary.rs). */
module Dictionary {
  import opened Common

  /** Two maps undo each other. */
  ghost predicate Inverse(forward: map<string, nat>, reverse: map<nat, string>) {
    && (forall s :: s in forward ==> forward[s] in reverse && reverse[forward[s]] == s)
    && (forall i :: i in reverse ==> reverse[i] in forward && forward[reverse[i]] == i)
  }

  /** Inverse maps over exactly the ids handed out so far; 0 is never one of them. */
  ghost predicate Dense(forward: map<string, nat>, reverse: map<nat, string>, next: nat) {
    Inverse(forward, reverse) && next >= 1 && forall i :: i in reverse <==> 1 <= i < next
  }

  lemma InsertKeepsDense(forward: map<string, nat>, reverse: map<nat, string>, next: nat, iri: string)
    requires Dense(forward, reverse, next) && iri !in forward
    ensures Dense(forward[iri := next], reverse[next := iri], next + 1)
  {
  }

  // ----- import

  type Pair = (nat, string)

  function ImportForward(forward: map<string, nat>, entries: seq<Pair>): map<string, nat> {
    if entries == [] then forward
    else ImportForward(forward, entries[..|entries| - 1])[entries[|entries| - 1].1 := entries[|entries| - 1].0]
  }

  function ImportReverse(reverse: map<nat, string>, entries: seq<Pair>): map<nat, string> {
    if entries == [] then reverse
    else ImportReverse(reverse, entries[..|entries| - 1])[entries[|entries| - 1].0 := entries[|entries| - 1].1]
  }

  function ImportNext(next: nat, entries: seq<Pair>): nat {
    if entries == [] then next
    else
      var before, id := ImportNext(next, entries[..|entries| - 1]), entries[|entries| - 1].0;
      if id >= before then id + 1 else before
  }

  /** As an export lists them: no id twice, no IRI twice. */
  ghost predicate OneToOne(entries: seq<Pair>) {
    forall i, j :: 0 <= i < j < |entries| ==> entries[i].0 != entries[j].0 && entries[i].1 != entries[j].1
  }

  ghost function Ids(entries: seq<Pair>): set<nat> {
    set e | e in entries :: e.0
  }

  ghost function Iris(entries: seq<Pair>): set<string> {
    set e | e in entries :: e.1
  }

  lemma {:induction false} ImportedForward(forward: map<string, nat>, entries: seq<Pair>)
    requires OneToOne(entries)
    ensures ImportForward(forward, entries).Keys == forward.Keys + Iris(entries)
    ensures forall s :: s in forward && s !in Iris(entries) ==> ImportForward(forward, entries)[s] == forward[s]
    ensures forall e :: e in entries ==> ImportForward(forward, entries)[e.1] == e.0
  {
    if entries != [] {
      var before, last := entries[..|entries| - 1], entries[|entries| - 1];
      ImportedForward(forward, before);
      SplitLast(entries);
      assert Iris(entries) == Iris(before) + {last.1};
    }
  }

  lemma {:induction false} ImportedReverse(reverse: map<nat, string>, entries: seq<Pair>)
    requires OneToOne(entries)
    ensures ImportReverse(reverse, entries).Keys == reverse.Keys + Ids(entries)
    ensures forall i :: i in reverse && i !in Ids(entries) ==> ImportReverse(reverse, entries)[i] == reverse[i]
    ensures forall e :: e in entries ==> ImportReverse(reverse, entries)[e.0] == e.1
  {
    if entries != [] {
      var before, last := entries[..|entries| - 1], entries[|entries| - 1];
      ImportedReverse(reverse, before);
      SplitLast(entries);
      assert Ids(entries) == Ids(before) + {last.0};
    }
  }

  /** Each known pair is either left alone or overwritten on both sides. */
  ghost predicate BothOrNeither(forward: map<string, nat>, entries: seq<Pair>) {
    forall s :: s in forward ==> (s in Iris(entries) <==> forward[s] in Ids(entries))
  }

  /** Overwriting keeps the maps inverse exactly when no known pair is overwritten on one side only. */
  lemma ImportExact(forward: map<string, nat>, reverse: map<nat, string>, entries: seq<Pair>)
    requires Inverse(forward, reverse) && OneToOne(entries)
    ensures Inverse(ImportForward(forward, entries), ImportReverse(reverse, entries)) <==> BothOrNeither(forward, entries)
  {
    ImportedForward(forward, entries);
    ImportedReverse(reverse, entries);
    var f, r := ImportForward(forward, entries), ImportReverse(reverse, entries);
    if BothOrNeither(forward, entries) {
      forall s | s in f ensures f[s] in r && r[f[s]] == s {
        if s in Iris(entries) {
          var e :| e in entries && e.1 == s;
        }
      }
      forall i | i in r ensures r[i] in f && f[r[i]] == i {
        if i in Ids(entries) {
          var e :| e in entries && e.0 == i;
        }
      }
    } else {
      var s :| s in forward && !(s in Iris(entries) <==> forward[s] in Ids(entries));
      if s in Iris(entries) {
        var e :| e in entries && e.1 == s;
        assert r[forward[s]] == s && f[s] == e.0 != forward[s];
      } else {
        var e :| e in entries && e.0 == forward[s];
        assert f[s] == forward[s] && r[forward[s]] == e.1 != s;
      }
    }
  }

  lemma {:induction false} NextAboveAll(next: nat, entries: seq<Pair>)
    ensures ImportNext(next, entries) >= next
    ensures forall e :: e in entries ==> e.0 < ImportNext(next, entries)
    ensures ImportNext(next, entries) == next || exists e :: e in entries && ImportNext(next, entries) == e.0 + 1
  {
    if entries != [] {
      NextAboveAll(next, entries[..|entries| - 1]);
      SplitLast(entries);
    }
  }

  /** entries lists reverse, in any order. */
  ghost predicate Exports(reverse: map<nat, string>, entries: seq<Pair>) {
    && (forall e :: e in entries <==> e.0 in reverse && reverse[e.0] == e.1)
    && (forall i, j :: 0 <= i < j < |entries| ==> entries[i].0 != entries[j].0)
  }

  lemma ExportsOneToOne(forward: map<string, nat>, reverse: map<nat, string>, entries: seq<Pair>)
    requires Inverse(forward, reverse) && Exports(reverse, entries)
    ensures OneToOne(entries)
    ensures Ids(entries) == reverse.Keys && Iris(entries) == forward.Keys
  {
    forall i, j | 0 <= i < j < |entries| ensures entries[i].1 != entries[j].1 {
      assert entries[i] in entries && entries[j] in entries;
    }
    forall i | i in reverse ensures i in Ids(entries) {
      assert (i, reverse[i]) in entries;
    }
    forall s | s in forward ensures s in Iris(entries) {
      assert (forward[s], s) in entries;
    }
  }

  lemma ExportedForward(forward: map<string, nat>, reverse: map<nat, string>, entries: seq<Pair>)
    requires Inverse(forward, reverse) && Exports(reverse, entries)
    ensures ImportForward(map[], entries) == forward
  {
    ExportsOneToOne(forward, reverse, entries);
    ImportedForward(map[], entries);
    var f := ImportForward(map[], entries);
    assert f.Keys == forward.Keys;
    forall s | s in forward ensures f[s] == forward[s] {
      assert (forward[s], s) in entries;
    }
  }

  lemma ExportedReverse(forward: map<string, nat>, reverse: map<nat, string>, entries: seq<Pair>)
    requires Inverse(forward, reverse) && Exports(reverse, entries)
    ensures ImportReverse(map[], entries) == reverse
  {
    ExportsOneToOne(forward, reverse, entries);
    ImportedReverse(map[], entries);
    var r := ImportReverse(map[], entries);
    assert r.Keys == reverse.Keys;
    forall i | i in reverse ensures r[i] == reverse[i] {
      assert (i, reverse[i]) in entries;
    }
  }

  /** An export of a dense dictionary, imported into a new one, rebuilds it. */
  lemma ExportImport(forward: map<string, nat>, reverse: map<nat, string>, next: nat, entries: seq<Pair>)
    requires Dense(forward, reverse, next) && Exports(reverse, entries)
    ensures ImportForward(map[], entries) == forward && ImportReverse(map[], entries) == reverse
    ensures ImportNext(1, entries) == next
  {
    ExportedForward(forward, reverse, entries);
    ExportedReverse(forward, reverse, entries);
    NextAboveAll(1, entries);
    if next > 1 {
      assert (next - 1, reverse[next - 1]) in entries;
    }
  }

  // ----- the dictionary

  class IriDictionary {
    var iriToId: map<string, nat>
    var idToIri: map<nat, string>
    var nextId: nat

    ghost predicate Consistent()
      reads this
    {
      Inverse(iriToId, idToIri) && forall i :: i in idToIri ==> i < nextId
    }

    ghost predicate Tight()
      reads this
    {
      Dense(iriToId, idToIri, nextId)
    }

    constructor ()
      ensures Tight() && iriToId == map[] && idToIri == map[] && nextId == 1
    {
      iriToId, idToIri, nextId := map[], map[], 1;
    }

    /** With one thread the second check under the write locks always repeats the first. */
    method GetOrInsert(iri: string) returns (id: nat)
      modifies this
      ensures iri in old(iriToId) ==>
        id == old(iriToId)[iri] && iriToId == old(iriToId) && idToIri == old(idToIri) && nextId == old(nextId)
      ensures iri !in old(iriToId) ==>
        id == old(nextId) && iriToId == old(iriToId)[iri := id] && idToIri == old(idToIri)[id := iri] && nextId == id + 1
      ensures old(Consistent()) ==> Consistent() && id in idToIri && idToIri[id] == iri
      ensures old(Tight()) ==> Tight() && id != 0
    {
      if iri in iriToId {
        return iriToId[iri];
      }
      id := nextId;
      nextId := nextId + 1;
      iriToId := iriToId[iri := id];
      idToIri := idToIri[id := iri];
    }

    method GetIri(id: nat) returns (r: Option<string>)
      ensures r == if id in idToIri then Some(idToIri[id]) else None
    {
      r := if id in idToIri then Some(idToIri[id]) else None;
    }

    method Export() returns (entries: seq<Pair>)
      ensures Exports(idToIri, entries)
    {
      entries := [];
      var pending := idToIri.Keys;
      while pending != {}
        invariant pending <= idToIri.Keys
        invariant forall e :: e in entries <==> e.0 in idToIri && e.0 !in pending && idToIri[e.0] == e.1
        invariant forall i, j :: 0 <= i < j < |entries| ==> entries[i].0 != entries[j].0
      {
        var id :| id in pending;
        pending := pending - {id};
        assert forall i :: 0 <= i < |entries| ==> entries[i] in entries;
        entries := entries + [(id, idToIri[id])];
      }
    }

    method Import(entries: seq<Pair>)
      modifies this
      ensures iriToId == ImportForward(old(iriToId), entries)
      ensures idToIri == ImportReverse(old(idToIri), entries)
      ensures nextId == ImportNext(old(nextId), entries)
    {
      var max := nextId;
      for n := 0 to |entries|
        invariant iriToId == ImportForward(old(iriToId), entries[..n])
        invariant idToIri == ImportReverse(old(idToIri), entries[..n])
        invariant max == ImportNext(old(nextId), entries[..n])
      {
        assert entries[..n + 1][..n] == entries[..n];
        var id, iri := entries[n].0, entries[n].1;
        iriToId := iriToId[iri := id];
        idToIri := idToIri[id := iri];
        if id >= max { max := id + 1; }
      }
      assert entries[..|entries|] == entries;
      nextId := max;
    }

    method Clear()
      modifies this
      ensures iriToId == map[] && idToIri == map[] && nextId == 1 && Tight()
    {
      nextId := 1;
      iriToId, idToIri := map[], map[];
    }
  }

  /** A dictionary copied through an export answers every lookup alike and goes on numbering alike. */
  method Copy(d: IriDictionary) returns (c: IriDictionary)
    requires d.Tight()
    ensures fresh(c) && c.Tight()
    ensures c.iriToId == d.iriToId && c.idToIri == d.idToIri && c.nextId == d.nextId
  {
    var entries := d.Export();
    c := new IriDictionary();
    c.Import(entries);
    ExportImport(d.iriToId, d.idToIri, d.nextId, entries);
  }
}
