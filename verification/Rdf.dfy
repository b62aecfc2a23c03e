/** RDF terms, triples and quads (parser/src/rdf). */
module Rdf {
  import opened Common

  const RDF_TYPE := "http://www.w3.org/1999/02/22-rdf-syntax-ns#type"
  const RDF_FIRST := "http://www.w3.org/1999/02/22-rdf-syntax-ns#first"
  const RDF_REST := "http://www.w3.org/1999/02/22-rdf-syntax-ns#rest"
  const RDF_NIL := "http://www.w3.org/1999/02/22-rdf-syntax-ns#nil"
  const XSD_STRING := "http://www.w3.org/2001/XMLSchema#string"
  const XSD_DATE := "http://www.w3.org/2001/XMLSchema#date"

  /** The three ways to build a literal; a language tag excludes a datatype. */
  datatype Literal =
    | Plain(value: string)
    | Typed(value: string, datatypeIri: string)
    | Tagged(value: string, language: string)

  /** A term in any position: subjects are never literals. */
  datatype Term = Iri(iri: string) | Blank(id: string) | Lit(literal: Literal)

  type Subject = t: Term | !t.Lit? witness Iri("")

  datatype Triple = Triple(subj: Subject, pred: string, obj: Term)

  datatype Quad = Quad(triple: Triple, graph: Option<Subject>)

  /** c is in Unicode category Cc, as char::is_control decides it. */
  predicate IsControl(c: char) {
    c < ' ' || '\U{7f}' <= c <= '\U{9f}'
  }

  /** The part after the last '#', else after the last '/', else nothing. */
  function LocalName(iri: string): string {
    if '#' in iri then AfterLast(iri, '#')
    else if '/' in iri then AfterLast(iri, '/')
    else ""
  }

  function AfterLast(s: string, c: char): (r: string)
    requires c in s
  {
    if s[|s| - 1] == c then "" else
      assert s == s[..|s| - 1] + [s[|s| - 1]];
      AfterLast(s[..|s| - 1], c) + [s[|s| - 1]]
  }

  /** iri ends with the separator and name, and the separator is the last. */
  ghost predicate NamedBehind(iri: string, separator: char, name: string) {
    separator !in name && exists before: string :: iri == before + [separator] + name
  }

  lemma {:induction false} AfterLastExact(s: string, c: char, name: string)
    requires c in s
    ensures AfterLast(s, c) == name <==> NamedBehind(s, c, name)
  {
    var front := LastSplits(s, c);
    assert s == front + [c] + AfterLast(s, c);
    if NamedBehind(s, c, name) {
      var before: string :| s == before + [c] + name;
      SameSplit(front, AfterLast(s, c), before, name, c);
    }
  }

  lemma {:induction false} LastSplits(s: string, c: char) returns (front: string)
    requires c in s
    ensures s == front + [c] + AfterLast(s, c) && c !in AfterLast(s, c)
  {
    var before, last := s[..|s| - 1], s[|s| - 1];
    assert s == before + [last];
    if last == c {
      front := before;
    } else {
      front := LastSplits(before, c);
    }
  }

  lemma SameSplit(a: string, x: string, b: string, y: string, c: char)
    requires a + [c] + x == b + [c] + y && c !in x && c !in y
    ensures x == y
  {
    var s := a + [c] + x;
    assert s[|a|] == c && s[|b|] == c;
    assert forall i :: |a| < i < |s| ==> s[i] == x[i - |a| - 1];
    assert forall i :: |b| < i < |s| ==> s[i] == y[i - |b| - 1];
    assert x == s[|a| + 1..] && y == s[|b| + 1..];
  }

  /** name is what follows the last '#', or without one the last '/'; with neither it is empty. */
  ghost predicate LocalPart(iri: string, name: string) {
    if '#' in iri then NamedBehind(iri, '#', name) else if '/' in iri then NamedBehind(iri, '/', name) else name == ""
  }

  lemma LocalNameExact(iri: string, name: string)
    ensures LocalName(iri) == name <==> LocalPart(iri, name)
  {
    if '#' in iri { AfterLastExact(iri, '#', name); } else if '/' in iri { AfterLastExact(iri, '/', name); }
  }

  /** The node identifier text of a resource: its IRI, or its label behind "_:". */
  function NodeUri(t: Subject): string {
    match t
    case Iri(iri) => iri
    case Blank(id) => "_:" + id
  }

  predicate StartsBlank(s: string) {
    |s| >= 2 && s[0] == '_' && s[1] == ':'
  }
}
