/** The prefix registry and prefixed names (parser/src/rdf/namespace.rs). */
module Namespaces {
  import opened Common
  import opened Rdf

  // ----- prefixed names

  datatype PrefixedName = PrefixedName(prefix: string, localName: string) {
    function Display(): string {
      prefix + ":" + localName
    }
  }

  /** The index of the first colon, or the length. */
  function FirstColon(s: string): (n: nat)
    ensures n <= |s| && (forall i :: 0 <= i < n ==> s[i] != ':') && (n < |s| ==> s[n] == ':')
  {
    if s == "" || s[0] == ':' then 0 else 1 + FirstColon(s[1..])
  }

  function Parse(s: string): Option<PrefixedName> {
    if ':' in s then
      ColonFound(s);
      Some(PrefixedName(s[..FirstColon(s)], s[FirstColon(s) + 1..]))
    else None
  }

  lemma ColonFound(s: string)
    ensures ':' in s <==> FirstColon(s) < |s|
  {
  }

  /** Parsing then printing gives the text back. */
  lemma ParseThenDisplay(s: string)
    ensures Parse(s).Some? <==> ':' in s
    ensures Parse(s).Some? ==> Parse(s).value.Display() == s
  {
    ColonFound(s);
  }

  lemma {:induction false} ColonAfter(prefix: string, rest: string)
    ensures FirstColon(prefix + ":" + rest) <= |prefix|
    ensures FirstColon(prefix + ":" + rest) == |prefix| <==> ':' !in prefix
  {
    var text := prefix + ":" + rest;
    if prefix == "" {
      assert text[0] == ':';
    } else {
      assert text[0] == prefix[0] && text[1..] == prefix[1..] + ":" + rest;
      ColonAfter(prefix[1..], rest);
    }
  }

  /** Printing then parsing gives the name back exactly when its prefix has no colon. */
  lemma DisplayThenParse(n: PrefixedName)
    ensures Parse(n.Display()) == Some(n) <==> ':' !in n.prefix
  {
    var text := n.Display();
    assert text[|n.prefix|] == ':';
    ColonFound(text);
    ColonAfter(n.prefix, n.localName);
    if ':' !in n.prefix {
      assert text[..|n.prefix|] == n.prefix && text[|n.prefix| + 1..] == n.localName;
    }
  }

  // ----- the registry as two maps

  datatype Maps = Maps(prefixToNs: map<string, string>, nsToPrefix: map<string, string>)

  function Added(m: Maps, prefix: string, ns: string): Maps {
    var rest := if prefix in m.prefixToNs then m.nsToPrefix - {m.prefixToNs[prefix]} else m.nsToPrefix;
    Maps(m.prefixToNs[prefix := ns], rest[ns := prefix])
  }

  function Removed(m: Maps, prefix: string): Maps {
    if prefix in m.prefixToNs then Maps(m.prefixToNs - {prefix}, m.nsToPrefix - {m.prefixToNs[prefix]}) else m
  }

  function MergedIn(m: Maps, entries: seq<(string, string)>): Maps {
    if entries == [] then m
    else Added(MergedIn(m, entries[..|entries| - 1]), entries[|entries| - 1].0, entries[|entries| - 1].1)
  }

  /** entries lists a prefix map, in any order. */
  ghost predicate Lists(entries: seq<(string, string)>, prefixes: map<string, string>) {
    && (forall e :: e in entries <==> e.0 in prefixes && prefixes[e.0] == e.1)
    && (forall i, j :: 0 <= i < j < |entries| ==> entries[i].0 != entries[j].0)
  }

  /** Every namespace-to-prefix entry is backed by the matching prefix. */
  ghost predicate Backed(m: Maps) {
    forall ns :: ns in m.nsToPrefix ==>
      m.nsToPrefix[ns] in m.prefixToNs && m.prefixToNs[m.nsToPrefix[ns]] == ns
  }

  lemma AddedBacked(m: Maps, prefix: string, ns: string)
    requires Backed(m)
    ensures Backed(Added(m, prefix, ns))
  {
  }

  lemma RemovedBacked(m: Maps, prefix: string)
    requires Backed(m)
    ensures Backed(Removed(m, prefix))
  {
  }

  lemma {:induction false} MergedBacked(m: Maps, entries: seq<(string, string)>)
    requires Backed(m)
    ensures Backed(MergedIn(m, entries))
  {
    if entries != [] {
      MergedBacked(m, entries[..|entries| - 1]);
      AddedBacked(MergedIn(m, entries[..|entries| - 1]), entries[|entries| - 1].0, entries[|entries| - 1].1);
    }
  }

  lemma {:induction false} MergedSnoc(m: Maps, entries: seq<(string, string)>)
    requires entries != []
    ensures MergedIn(m, entries).prefixToNs
      == MergedIn(m, entries[..|entries| - 1]).prefixToNs[entries[|entries| - 1].0 := entries[|entries| - 1].1]
  {
  }

  /** Some entry is for the prefix. */
  ghost predicate Names(entries: seq<(string, string)>, p: string) {
    exists e :: e in entries && e.0 == p
  }

  lemma NamesSnoc(entries: seq<(string, string)>, p: string)
    requires entries != []
    ensures Names(entries, p) <==> Names(entries[..|entries| - 1], p) || entries[|entries| - 1].0 == p
  {
    SplitLast(entries);
    if entries[|entries| - 1].0 == p { assert entries[|entries| - 1] in entries; }
  }

  /** Merging overrides prefixes, whatever order the other registry lists them in. */
  lemma {:induction false} MergedPrefixes(m: Maps, entries: seq<(string, string)>)
    requires forall i, j :: 0 <= i < j < |entries| ==> entries[i].0 != entries[j].0
    ensures forall p :: p in MergedIn(m, entries).prefixToNs <==> p in m.prefixToNs || Names(entries, p)
    ensures forall e :: e in entries ==> e.0 in MergedIn(m, entries).prefixToNs && MergedIn(m, entries).prefixToNs[e.0] == e.1
    ensures forall p :: p in m.prefixToNs && !Names(entries, p) ==>
      p in MergedIn(m, entries).prefixToNs && MergedIn(m, entries).prefixToNs[p] == m.prefixToNs[p]
  {
    if entries != [] {
      var before, last := entries[..|entries| - 1], entries[|entries| - 1];
      MergedPrefixes(m, before);
      MergedSnoc(m, entries);
      forall p ensures Names(entries, p) <==> Names(before, p) || last.0 == p {
        NamesSnoc(entries, p);
      }
      SplitLast(entries);
      assert forall e :: e in before ==> e.0 != last.0;
    }
  }

  lemma MergeOverrides(m: Maps, entries: seq<(string, string)>, other: map<string, string>)
    requires Lists(entries, other)
    ensures MergedIn(m, entries).prefixToNs == m.prefixToNs + other
  {
    MergedPrefixes(m, entries);
    var got := MergedIn(m, entries).prefixToNs;
    forall p ensures p in got <==> p in m.prefixToNs + other {
      if p in other { assert (p, other[p]) in entries; }
    }
    forall p | p in got ensures got[p] == (m.prefixToNs + other)[p] {
      if p in other { assert (p, other[p]) in entries; }
    }
  }

  // ----- runs

  datatype Change = Add(prefix: string, ns: string) | Remove(prefix: string) | Merge(entries: seq<(string, string)>)

  function After(m: Maps, c: Change): Maps {
    match c
    case Add(p, ns) => Added(m, p, ns)
    case Remove(p) => Removed(m, p)
    case Merge(entries) => MergedIn(m, entries)
  }

  function RunChanges(cs: seq<Change>): Maps {
    if cs == [] then Maps(map[], map[]) else After(RunChanges(cs[..|cs| - 1]), cs[|cs| - 1])
  }

  lemma {:induction false} RunBacked(cs: seq<Change>)
    ensures Backed(RunChanges(cs))
  {
    if cs != [] {
      var before, c := RunChanges(cs[..|cs| - 1]), cs[|cs| - 1];
      RunBacked(cs[..|cs| - 1]);
      match c
      case Add(p, ns) => AddedBacked(before, p, ns);
      case Remove(p) => RemovedBacked(before, p);
      case Merge(entries) => MergedBacked(before, entries);
    }
  }

  // ----- expansion and contraction

  /** Iri::new accepts the text. */
  predicate IsIri(s: string) {
    s != "" && ':' in s && forall i :: 0 <= i < |s| ==> !IsControl(s[i]) && s[i] != ' ' && s[i] != '<' && s[i] != '>'
  }

  function ExpandWith(m: Maps, n: PrefixedName): Option<string> {
    if n.prefix in m.prefixToNs && IsIri(m.prefixToNs[n.prefix] + n.localName)
    then Some(m.prefixToNs[n.prefix] + n.localName) else None
  }

  predicate IsLocal(s: string) {
    '/' !in s && '#' !in s
  }

  /** ns is a namespace by which iri may be contracted. */
  predicate Contracts(m: Maps, iri: string, ns: string) {
    ns in m.nsToPrefix && ns <= iri && IsLocal(iri[|ns|..])
  }

  /** What contract may return, whichever fitting namespace it meets first. */
  ghost predicate Contraction(m: Maps, iri: string, r: Option<PrefixedName>) {
    if r.None? then forall ns :: !Contracts(m, iri, ns)
    else exists ns :: Contracts(m, iri, ns) && r.value == PrefixedName(m.nsToPrefix[ns], iri[|ns|..])
  }

  /** In every reachable registry a contraction expands to the IRI it came from, and so does its
      printed form, parsed again, exactly when the prefix found has no colon in it. */
  lemma ContractExpand(cs: seq<Change>, iri: string, r: Option<PrefixedName>)
    requires IsIri(iri) && Contraction(RunChanges(cs), iri, r) && r.Some?
    ensures ExpandWith(RunChanges(cs), r.value) == Some(iri)
    ensures Parse(r.value.Display()) == Some(r.value) <==> ':' !in r.value.prefix
  {
    var m := RunChanges(cs);
    RunBacked(cs);
    var ns :| Contracts(m, iri, ns) && r.value == PrefixedName(m.nsToPrefix[ns], iri[|ns|..]);
    assert iri == ns + iri[|ns|..];
    DisplayThenParse(r.value);
  }

  /** A name expands to its namespace and local part put together, if the prefix is registered and the text has a colon
      and neither a space, an angle bracket nor a control character. */
  lemma ExpandExact(m: Maps, n: PrefixedName, iri: string)
    ensures ExpandWith(m, n) == Some(iri) <==>
      && n.prefix in m.prefixToNs && iri == m.prefixToNs[n.prefix] + n.localName
      && (exists i :: 0 <= i < |iri| && iri[i] == ':')
      && forall i :: 0 <= i < |iri| ==> iri[i] > ' ' && !('\U{7f}' <= iri[i] <= '\U{9f}') && iri[i] != '<' && iri[i] != '>'
  {
  }

  /** iri is a registered namespace and then a text without a slash or a hash. */
  ghost predicate Fits(m: Maps, iri: string, ns: string, rest: string) {
    ns in m.nsToPrefix && iri == ns + rest && forall i :: 0 <= i < |rest| ==> rest[i] != '/' && rest[i] != '#'
  }

  /** An IRI is contracted if and only if it fits some registered namespace, and then by the prefix of such a one. */
  lemma ContractionExact(m: Maps, iri: string, r: Option<PrefixedName>)
    ensures Contraction(m, iri, r) <==>
      if r.None? then forall ns, rest :: !Fits(m, iri, ns, rest)
      else exists ns, rest :: Fits(m, iri, ns, rest) && r.value == PrefixedName(m.nsToPrefix[ns], rest)
  {
    forall ns, rest | Fits(m, iri, ns, rest) ensures Contracts(m, iri, ns) && iri[|ns|..] == rest {
    }
    forall ns | Contracts(m, iri, ns) ensures Fits(m, iri, ns, iri[|ns|..]) {
    }
  }

  // ----- what a registry can lose

  /** Every registered namespace can be contracted to some prefix. */
  ghost predicate Complete(m: Maps) {
    forall p :: p in m.prefixToNs ==> m.prefixToNs[p] in m.nsToPrefix
  }

  ghost predicate SharedWith(m: Maps, prefix: string) {
    prefix in m.prefixToNs && exists q :: q in m.prefixToNs && q != prefix && m.prefixToNs[q] == m.prefixToNs[prefix]
  }

  /** Removing a prefix loses a namespace exactly when another prefix shares it. */
  lemma RemoveCompleteExact(m: Maps, prefix: string)
    requires Complete(m)
    ensures Complete(Removed(m, prefix)) <==> !SharedWith(m, prefix)
  {
    if SharedWith(m, prefix) {
      var q :| q in m.prefixToNs && q != prefix && m.prefixToNs[q] == m.prefixToNs[prefix];
      assert q in Removed(m, prefix).prefixToNs;
    }
  }

  /** So does moving a prefix to another namespace. */
  lemma AddCompleteExact(m: Maps, prefix: string, ns: string)
    requires Complete(m)
    ensures Complete(Added(m, prefix, ns)) <==> !(SharedWith(m, prefix) && m.prefixToNs[prefix] != ns)
  {
    var after := Added(m, prefix, ns);
    if SharedWith(m, prefix) && m.prefixToNs[prefix] != ns {
      var q :| q in m.prefixToNs && q != prefix && m.prefixToNs[q] == m.prefixToNs[prefix];
      assert q in after.prefixToNs && after.prefixToNs[q] !in after.nsToPrefix;
    }
  }

  // ----- the registry itself

  class NamespaceRegistry {
    var prefixToNs: map<string, string>
    var nsToPrefix: map<string, string>

    function AsMaps(): Maps
      reads this
    {
      Maps(prefixToNs, nsToPrefix)
    }

    constructor ()
      ensures AsMaps() == Maps(map[], map[])
    {
      prefixToNs, nsToPrefix := map[], map[];
    }

    method AddPrefix(prefix: string, ns: string)
      modifies this
      ensures AsMaps() == Added(old(AsMaps()), prefix, ns)
      ensures old(Backed(AsMaps())) ==> Backed(AsMaps())
    {
      if prefix in prefixToNs {
        nsToPrefix := nsToPrefix - {prefixToNs[prefix]};
      }
      nsToPrefix := nsToPrefix[ns := prefix];
      prefixToNs := prefixToNs[prefix := ns];
    }

    method RemovePrefix(prefix: string) returns (ns: Option<string>)
      modifies this
      ensures AsMaps() == Removed(old(AsMaps()), prefix)
      ensures old(Backed(AsMaps())) ==> Backed(AsMaps())
      ensures ns == if prefix in old(prefixToNs) then Some(old(prefixToNs)[prefix]) else None
    {
      if prefix !in prefixToNs { return None; }
      ns := Some(prefixToNs[prefix]);
      prefixToNs := prefixToNs - {prefix};
      nsToPrefix := nsToPrefix - {ns.value};
    }

    method MergeRegistry(other: NamespaceRegistry)
      requires other != this
      modifies this
      ensures exists entries :: Lists(entries, other.prefixToNs) && AsMaps() == MergedIn(old(AsMaps()), entries)
      ensures prefixToNs == old(prefixToNs) + other.prefixToNs
      ensures old(Backed(AsMaps())) ==> Backed(AsMaps())
    {
      ghost var entries: seq<(string, string)> := [];
      var pending := other.prefixToNs.Keys;
      while pending != {}
        invariant pending <= other.prefixToNs.Keys
        invariant forall e :: e in entries <==> e.0 in other.prefixToNs && e.0 !in pending && other.prefixToNs[e.0] == e.1
        invariant forall i, j :: 0 <= i < j < |entries| ==> entries[i].0 != entries[j].0
        invariant AsMaps() == MergedIn(old(AsMaps()), entries)
      {
        var prefix :| prefix in pending;
        pending := pending - {prefix};
        AddPrefix(prefix, other.prefixToNs[prefix]);
        assert forall i :: 0 <= i < |entries| ==> entries[i] in entries;
        assert (entries + [(prefix, other.prefixToNs[prefix])])[..|entries|] == entries;
        entries := entries + [(prefix, other.prefixToNs[prefix])];
      }
      assert Lists(entries, other.prefixToNs);
      MergeOverrides(old(AsMaps()), entries, other.prefixToNs);
      if old(Backed(AsMaps())) { MergedBacked(old(AsMaps()), entries); }
    }

    method Expand(n: PrefixedName) returns (r: Option<string>)
      ensures r == ExpandWith(AsMaps(), n)
    {
      if n.prefix !in prefixToNs { return None; }
      var text := prefixToNs[n.prefix] + n.localName;
      r := if IsIri(text) then Some(text) else None;
    }

    method Contract(iri: string) returns (r: Option<PrefixedName>)
      ensures Contraction(AsMaps(), iri, r)
      ensures Backed(AsMaps()) && IsIri(iri) && r.Some? ==> ExpandWith(AsMaps(), r.value) == Some(iri)
    {
      var pending := nsToPrefix.Keys;
      while pending != {}
        invariant forall ns :: Contracts(AsMaps(), iri, ns) ==> ns in pending
      {
        var ns :| ns in pending;
        pending := pending - {ns};
        if ns in nsToPrefix && ns <= iri && IsLocal(iri[|ns|..]) {
          r := Some(PrefixedName(nsToPrefix[ns], iri[|ns|..]));
          assert Contracts(AsMaps(), iri, ns);
          assert iri == ns + iri[|ns|..];
          return;
        }
      }
      r := None;
    }
  }
}
