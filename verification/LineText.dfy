/** The text of terms, triples and quads in N-Triples and N-Quads
    (parser/src/export/ntriples.rs, parser/src/export/nquads.rs). */
module LineText {
  import opened Common
  import opened Rdf

  function HexDigit(d: nat): char
    requires d < 16
  {
    "0123456789ABCDEF"[d]
  }

  /** {:04X} and {:08X}, for numbers that fit. */
  function Hex(n: nat, digits: nat): (h: string)
    ensures |h| == digits
  {
    if digits == 0 then "" else Hex(n / 16, digits - 1) + [HexDigit(n % 16)]
  }

  /** \uXXXX for characters that fit four digits, \UXXXXXXXX for the others. */
  function UnicodeEscape(c: char): string {
    if c as int <= 0xFFFF then "\\u" + Hex(c as int, 4) else "\\U" + Hex(c as int, 8)
  }

  /** Characters an IRI reference may not hold as they are. */
  predicate EscapedInIri(c: char) {
    c in "<>\"{}|^`\\ " || IsControl(c)
  }

  function IriChar(c: char): string {
    if EscapedInIri(c) then UnicodeEscape(c) else [c]
  }

  /** The texts of the elements, one after the other. */
  function Joined<T>(text: T -> string, xs: seq<T>): string {
    if xs == [] then "" else Joined(text, xs[..|xs| - 1]) + text(xs[|xs| - 1])
  }

  function EscapeIri(s: string): string {
    Joined(IriChar, s)
  }

  function StringChar(c: char): string {
    if c == '\\' then "\\\\"
    else if c == '"' then "\\\""
    else if c == '\n' then "\\n"
    else if c == '\r' then "\\r"
    else if c == '\t' then "\\t"
    else if IsControl(c) then UnicodeEscape(c)
    else [c]
  }

  function EscapeString(s: string): string {
    Joined(StringChar, s)
  }

  /** Escapes are the short ones where there are any, and upper-case hexadecimal numbers; other characters stay. */
  lemma EscapesAreShort(c: char)
    ensures |StringChar(c)| == if c in "\\\"\n\r\t" then 2 else if IsControl(c) then 6 else 1
    ensures |IriChar(c)| == if EscapedInIri(c) then 6 else 1
    ensures |StringChar(c)| == 1 ==> StringChar(c) == [c]
    ensures |IriChar(c)| == 1 ==> IriChar(c) == [c]
    ensures forall i :: 2 <= i < |UnicodeEscape(c)| ==> '0' <= UnicodeEscape(c)[i] <= '9' || 'A' <= UnicodeEscape(c)[i] <= 'F'
  {
    HexIsUpper(c as int, 4);
    HexIsUpper(c as int, 8);
  }

  lemma {:induction false} HexIsUpper(n: nat, digits: nat)
    ensures forall i :: 0 <= i < digits ==> '0' <= Hex(n, digits)[i] <= '9' || 'A' <= Hex(n, digits)[i] <= 'F'
  {
    if digits > 0 {
      HexIsUpper(n / 16, digits - 1);
      HexDigitIsUpper(n % 16);
    }
  }

  lemma HexDigitIsUpper(d: nat)
    requires d < 16
    ensures '0' <= HexDigit(d) <= '9' || 'A' <= HexDigit(d) <= 'F'
  {
  }

  predicate Printable(s: string) {
    forall i :: 0 <= i < |s| ==> !IsControl(s[i])
  }

  lemma StringCharPrints(c: char)
    ensures Printable(StringChar(c))
  {
    EscapesAreShort(c);
  }

  /** An escaped string holds no control character, and one with nothing to escape is written as it is. */
  lemma {:induction false} EscapedStringPrints(s: string)
    ensures Printable(EscapeString(s))
    ensures Printable(s) && '\\' !in s && '"' !in s ==> EscapeString(s) == s
  {
    if s != "" {
      var before, c := s[..|s| - 1], s[|s| - 1];
      EscapedStringPrints(before);
      StringCharPrints(c);
      EscapesAreShort(c);
      assert s == before + [c];
    }
  }

  /** So is an IRI. */
  lemma {:induction false} EscapedIriPrints(s: string)
    ensures (forall i :: 0 <= i < |s| ==> !EscapedInIri(s[i])) ==> EscapeIri(s) == s
  {
    if s != "" {
      EscapedIriPrints(s[..|s| - 1]);
      assert s == s[..|s| - 1] + [s[|s| - 1]];
    }
  }

  function IriText(iri: string): string {
    "<" + EscapeIri(iri) + ">"
  }

  /** The language tag, or the datatype unless it is xsd:string, which is the default. */
  function LiteralSuffix(l: Literal): string {
    match l
    case Tagged(_, language) => "@" + language
    case Typed(_, datatypeIri) => if datatypeIri == XSD_STRING then "" else "^^" + IriText(datatypeIri)
    case Plain(_) => ""
  }

  function TermText(t: Term): string {
    match t
    case Iri(iri) => IriText(iri)
    case Blank(id) => "_:" + id
    case Lit(l) => "\"" + EscapeString(l.value) + "\"" + LiteralSuffix(l)
  }

  function TripleBody(t: Triple): string {
    TermText(t.subj) + " " + IriText(t.pred) + " " + TermText(t.obj)
  }

  function TripleLine(t: Triple): string {
    TripleBody(t) + " .\n"
  }

  function GraphText(g: Option<Subject>): string {
    if g.Some? then " " + TermText(g.value) else ""
  }

  function QuadLine(q: Quad): string {
    TripleBody(q.triple) + GraphText(q.graph) + " .\n"
  }

  function TripleLines(ts: seq<Triple>): string {
    Joined(TripleLine, ts)
  }

  function QuadLines(qs: seq<Quad>): string {
    Joined(QuadLine, qs)
  }

  // ----- pieces, as a writer appends them

  lemma SuffixPieces(base: string, iri: string)
    ensures base + "^^<" + iri + ">" == base + ("^^" + ("<" + iri + ">"))
  {
    assert "^^<" == "^^" + "<";
  }

  lemma Append3(base: string, a: string, b: string, c: string)
    ensures base + a + b + c == base + (a + b + c)
  {
  }

  lemma Append5(base: string, a: string, b: string, c: string, d: string, e: string)
    ensures base + a + b + c + d + e == base + (a + b + c + d + e)
  {
    Append3(base, a, b, c);
    Append3(base, a + b + c, d, e);
  }

  /** One more element is one more piece of text. */
  lemma JoinedStep<T>(base: string, text: T -> string, xs: seq<T>, i: nat)
    requires i < |xs|
    ensures base + Joined(text, xs[..i + 1]) == base + Joined(text, xs[..i]) + text(xs[i])
  {
    assert xs[..i + 1][..i] == xs[..i];
    Associate(base, Joined(text, xs[..i]), text(xs[i]));
  }

  lemma {:induction false} JoinedCons<T>(text: T -> string, x: T, xs: seq<T>)
    ensures Joined(text, [x] + xs) == text(x) + Joined(text, xs)
  {
    var all := [x] + xs;
    if xs == [] {
      assert all == [x] && all[..0] == [];
    } else {
      var n := |xs| - 1;
      JoinedCons(text, x, xs[..n]);
      assert all[..|xs|] == [x] + xs[..n] && all[|xs|] == xs[n];
      Associate(text(x), Joined(text, xs[..n]), text(xs[n]));
    }
  }

  lemma {:induction false} JoinedAlike<S, T>(f: S -> string, xs: seq<S>, g: T -> string, ys: seq<T>)
    requires |xs| == |ys| && forall i :: 0 <= i < |xs| ==> f(xs[i]) == g(ys[i])
    ensures Joined(f, xs) == Joined(g, ys)
  {
    if xs != [] { JoinedAlike(f, xs[..|xs| - 1], g, ys[..|ys| - 1]); }
  }

  lemma SmallHex(n: nat)
    requires n < 256
    ensures Hex(n, 4) == "00" + [HexDigit(n / 16)] + [HexDigit(n % 16)]
  {
    TwoZeros();
    assert Hex(n / 16, 3) == Hex(0, 2) + [HexDigit(n / 16)];
  }

  /** The escapes below U+0100, written out. */
  lemma SmallEscape(c: char)
    requires c as int < 0x100
    ensures UnicodeEscape(c) == "\\u00" + [HexDigit(c as int / 16), HexDigit(c as int % 16)]
  {
    SmallHex(c as int);
    var a, b := HexDigit(c as int / 16), HexDigit(c as int % 16);
    assert "\\u" + ("00" + [a] + [b]) == "\\u00" + [a, b];
  }

  lemma TwoZeros()
    ensures Hex(0, 2) == "00"
  {
    assert Hex(0, 1) == Hex(0, 0) + ['0'] == "0";
  }

  /** What a writer writes to. */
  class Sink {
    var text: string

    constructor ()
      ensures text == ""
    {
      text := "";
    }

    method Write(s: string)
      modifies this
      ensures text == old(text) + s
    {
      text := text + s;
    }
  }
}
