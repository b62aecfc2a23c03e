/** Reading what the N-Quads writer wrote gives the same quads back. */
module LineRoundTrip {
  import opened Common
  import opened Rdf
  import opened LineText
  import opened LineReader
  import NTriples
  import NQuads

  // ----- escapes

  lemma HexValueOfDigit(d: nat)
    requires d < 16
    ensures HexValue(HexDigit(d)) == Some(d)
  {
    var digits := "0123456789ABCDEF";
    assert d < 10 ==> digits[d] == ('0' as int + d) as char;
    assert d >= 10 ==> digits[d] == ('A' as int + d - 10) as char;
  }

  function Power16(k: nat): nat {
    if k == 0 then 1 else 16 * Power16(k - 1)
  }

  lemma {:induction false} HexRoundTrip(n: nat, digits: nat)
    requires n < Power16(digits)
    ensures HexNumber(Hex(n, digits)) == Some(n)
  {
    if digits > 0 {
      Sixteenth(n, Power16(digits - 1));
      HexRoundTrip(n / 16, digits - 1);
      HexSnoc(Hex(n / 16, digits - 1), n / 16, n % 16);
    }
  }

  lemma Sixteenth(n: nat, p: nat)
    requires n < 16 * p
    ensures n / 16 < p && n % 16 < 16 && 16 * (n / 16) + n % 16 == n
  {
  }

  lemma HexSnoc(high: string, n: nat, d: nat)
    requires HexNumber(high) == Some(n) && d < 16
    ensures HexNumber(high + [HexDigit(d)]) == Some(16 * n + d)
  {
    var s := high + [HexDigit(d)];
    assert s[..|s| - 1] == high && s[|s| - 1] == HexDigit(d);
    HexValueOfDigit(d);
  }

  lemma CodeFits(c: char)
    ensures c as int < Power16(8) && (c as int <= 0xFFFF ==> c as int < Power16(4))
  {
    assert Power16(1) == 16 && Power16(2) == 256 && Power16(3) == 4096 && Power16(4) == 65536;
    assert Power16(5) == 16 * 65536 && Power16(6) == 256 * 65536 && Power16(7) == 4096 * 65536;
  }

  lemma EscapeReads(s: string, digits: nat, c: char, rest: string)
    requires |s| >= 2 && s[0] == '\\' && ((s[1] == 'u' && digits == 4) || (s[1] == 'U' && digits == 8))
    requires c as int < Power16(digits) && s[2..] == Hex(c as int, digits) + rest
    ensures ReadUnicode(s) == Read(c, rest)
  {
    HexRoundTrip(c as int, digits);
    assert s[2..2 + digits] == s[2..][..digits] == Hex(c as int, digits);
    assert s[2 + digits..] == s[2..][digits..] == rest;
  }

  /** Reading undoes either form of escape, for every character. */
  lemma UnicodeReads(c: char, rest: string)
    ensures ReadUnicode(UnicodeEscape(c) + rest) == Read(c, rest)
  {
    CodeFits(c);
    var s, digits := UnicodeEscape(c) + rest, if c as int <= 0xFFFF then 4 else 8;
    assert s[2..] == Hex(c as int, digits) + rest;
    EscapeReads(s, digits, c, rest);
  }

  lemma IriCharReads(c: char, more: string)
    ensures ReadIriBody(IriChar(c) + more) == Cons(c, ReadIriBody(more))
  {
    var s := IriChar(c) + more;
    if EscapedInIri(c) {
      UnicodeReads(c, more);
      assert s[0] == '\\';
    } else {
      assert s[0] == c && s[1..] == more;
    }
  }

  lemma StringCharReads(c: char, more: string)
    ensures ReadStringBody(StringChar(c) + more) == Cons(c, ReadStringBody(more))
  {
    var s := StringChar(c) + more;
    if c == '\\' || c == '"' || c == '\n' || c == '\r' || c == '\t' {
      assert s[2..] == more;
    } else if IsControl(c) {
      UnicodeReads(c, more);
      assert s[0] == '\\' && s[1] == 'u';
    } else {
      assert s[0] == c && s[1..] == more;
    }
  }

  lemma {:induction false} IriBodyReads(s: string, rest: string)
    ensures ReadIriBody(EscapeIri(s) + (">" + rest)) == Read(s, rest)
  {
    var close := ">" + rest;
    if s == "" {
      assert EscapeIri(s) + close == close && close[1..] == rest;
    } else {
      assert s == [s[0]] + s[1..];
      JoinedCons(IriChar, s[0], s[1..]);
      IriBodyReads(s[1..], rest);
      IriCharReads(s[0], EscapeIri(s[1..]) + close);
      Associate(IriChar(s[0]), EscapeIri(s[1..]), close);
    }
  }

  lemma {:induction false} StringBodyReads(s: string, rest: string)
    ensures ReadStringBody(EscapeString(s) + ("\"" + rest)) == Read(s, rest)
  {
    var close := "\"" + rest;
    if s == "" {
      assert EscapeString(s) + close == close && close[1..] == rest;
    } else {
      assert s == [s[0]] + s[1..];
      JoinedCons(StringChar, s[0], s[1..]);
      StringBodyReads(s[1..], rest);
      StringCharReads(s[0], EscapeString(s[1..]) + close);
      Associate(StringChar(s[0]), EscapeString(s[1..]), close);
    }
  }

  // ----- terms

  predicate CleanLabel(id: string) {
    forall i :: 0 <= i < |id| ==> LabelChar(id[i])
  }

  predicate CleanTag(tag: string) {
    forall i :: 0 <= i < |tag| ==> TagChar(tag[i])
  }

  predicate CleanTerm(t: Term) {
    match t
    case Iri(_) => true
    case Blank(id) => CleanLabel(id)
    case Lit(l) => l.Tagged? ==> CleanTag(l.language)
  }

  /** Everything a quad can be written with, except white space in labels and odd characters in tags. */
  predicate CleanQuad(q: Quad) {
    CleanTerm(q.triple.subj) && CleanTerm(q.triple.obj) && (q.graph.Some? ==> CleanTerm(q.graph.value))
  }

  function NormalTerm(t: Term): Term {
    if t.Lit? && t.literal.Typed? && t.literal.datatypeIri == XSD_STRING then Lit(Plain(t.literal.value)) else t
  }

  /** The same quad with xsd:string left out. */
  function Normal(q: Quad): Quad {
    q.(triple := q.triple.(obj := NormalTerm(q.triple.obj)))
  }

  function NormalAll(qs: seq<Quad>): seq<Quad> {
    if qs == [] then [] else [Normal(qs[0])] + NormalAll(qs[1..])
  }

  lemma {:induction false} RunReads(s: string, rest: string, kind: char -> bool)
    requires forall i :: 0 <= i < |s| ==> kind(s[i])
    requires rest == "" || !kind(rest[0])
    ensures RunLength(s + rest, kind) == |s|
  {
    if s == "" {
      assert s + rest == rest;
    } else {
      assert (s + rest)[1..] == s[1..] + rest;
      RunReads(s[1..], rest, kind);
    }
  }

  /** Terms are followed by a space in every line. */
  predicate Spaced(rest: string) {
    rest != "" && rest[0] == ' '
  }

  lemma DropFirst(first: string, s: string)
    requires |first| == 1
    ensures (first + s)[0] == first[0] && (first + s)[1..] == s
  {
  }

  lemma IriReads(iri: string, rest: string)
    ensures ReadIri(IriText(iri) + rest) == Read(iri, rest)
  {
    IriBodyReads(iri, rest);
    IriParts(EscapeIri(iri), rest);
    DropFirst("<", EscapeIri(iri) + (">" + rest));
  }

  lemma IriParts(e: string, rest: string)
    ensures "<" + e + ">" + rest == "<" + (e + (">" + rest))
  {
    Append3("<", e, ">", rest);
    Associate(e, ">", rest);
  }

  lemma ResourceReads(t: Subject, rest: string)
    requires CleanTerm(t) && Spaced(rest)
    ensures ReadResource(TermText(t) + rest) == Read(t, rest)
  {
    var s := TermText(t) + rest;
    match t
    case Iri(iri) =>
      IriReads(iri, rest);
      assert s[0] == '<';
    case Blank(id) =>
      RunReads(id, rest, LabelChar);
      assert s[0] == '_' && s[1] == ':' && s[2..] == id + rest;
      assert (id + rest)[..|id|] == id && (id + rest)[|id|..] == rest;
  }

  lemma TagReads(value: string, tag: string, rest: string)
    requires CleanTag(tag) && Spaced(rest)
    ensures ReadSuffix(value, "@" + (tag + rest)) == Read(Lit(Tagged(value, tag)), rest)
  {
    DropFirst("@", tag + rest);
    RunReads(tag, rest, TagChar);
    assert (tag + rest)[..|tag|] == tag && (tag + rest)[|tag|..] == rest;
  }

  lemma DatatypeReads(value: string, iri: string, rest: string)
    ensures ReadSuffix(value, "^^" + (IriText(iri) + rest)) == Read(Lit(MakeTyped(value, iri)), rest)
  {
    IriReads(iri, rest);
    var s := "^^" + (IriText(iri) + rest);
    assert s[0] == '^' && s[1] == '^' && s[2..] == IriText(iri) + rest;
  }

  lemma SuffixReads(l: Literal, rest: string)
    requires CleanTerm(Lit(l)) && Spaced(rest)
    ensures ReadSuffix(l.value, LiteralSuffix(l) + rest) == Read(NormalTerm(Lit(l)), rest)
  {
    if l.Tagged? {
      TagReads(l.value, l.language, rest);
      Associate("@", l.language, rest);
    } else if l.Typed? && l.datatypeIri != XSD_STRING {
      DatatypeReads(l.value, l.datatypeIri, rest);
      Associate("^^", IriText(l.datatypeIri), rest);
    } else {
      assert "" + rest == rest;
    }
  }

  lemma LiteralParts(e: string, suffix: string, rest: string)
    ensures "\"" + e + "\"" + suffix + rest == "\"" + (e + ("\"" + (suffix + rest)))
  {
    Append3("\"" + e, "\"", suffix, rest);
    Associate("\"", e, "\"" + suffix + rest);
    Associate("\"", suffix, rest);
  }

  lemma LiteralReads(l: Literal, rest: string)
    requires CleanTerm(Lit(l)) && Spaced(rest)
    ensures ReadObject(TermText(Lit(l)) + rest) == Read(NormalTerm(Lit(l)), rest)
  {
    var after := LiteralSuffix(l) + rest;
    StringBodyReads(l.value, after);
    SuffixReads(l, rest);
    LiteralParts(EscapeString(l.value), LiteralSuffix(l), rest);
    DropFirst("\"", EscapeString(l.value) + ("\"" + after));
  }

  lemma ObjectReads(t: Term, rest: string)
    requires CleanTerm(t) && Spaced(rest)
    ensures ReadObject(TermText(t) + rest) == Read(NormalTerm(t), rest)
  {
    if t.Lit? {
      LiteralReads(t.literal, rest);
    } else {
      ResourceReads(t, rest);
      TermStart(t);
      assert (TermText(t) + rest)[0] == TermText(t)[0];
    }
  }

  lemma TermStart(t: Term)
    ensures TermText(t) != "" && !IsBlankSpace(TermText(t)[0]) && !IsEol(TermText(t)[0]) && TermText(t)[0] != '#'
    ensures !t.Lit? ==> TermText(t)[0] != '"' && TermText(t)[0] != '.'
  {
  }

  // ----- lines

  lemma SkipOne(s: string)
    requires s != "" && !IsBlankSpace(s[0])
    ensures SkipSpace(" " + s) == s
  {
    assert (" " + s)[1..] == s;
  }

  lemma DotReads(t: Triple, rest: string)
    ensures SkipSpace(" ." + rest) == "." + rest && ReadEnd(t, "." + rest) == Read(Quad(t, None), rest)
  {
    Associate(" ", ".", rest);
    DropFirst(".", rest);
    SkipOne("." + rest);
  }

  lemma GraphReads(t: Triple, g: Subject, rest: string)
    requires CleanTerm(g)
    ensures ReadEnd(t, SkipSpace(" " + TermText(g) + (" ." + rest))) == Read(Quad(t, Some(g)), rest)
  {
    var dot := " ." + rest;
    var text := TermText(g) + dot;
    TermStart(g);
    assert text[0] == TermText(g)[0];
    Associate(" ", TermText(g), dot);
    SkipOne(text);
    ResourceReads(g, dot);
    DotReads(t, rest);
    DropFirst(".", rest);
  }

  lemma EndReads(t: Triple, g: Option<Subject>, rest: string)
    requires g.Some? ==> CleanTerm(g.value)
    ensures ReadEnd(t, SkipSpace(GraphText(g) + (" ." + rest))) == Read(Quad(t, g), rest)
  {
    if g.Some? {
      GraphReads(t, g.value, rest);
    } else {
      assert "" + (" ." + rest) == " ." + rest;
      DotReads(t, rest);
    }
  }

  /** A line, cut where the reader cuts it. */
  lemma LineParts(q: Quad, rest: string)
    ensures QuadLine(q) + rest ==
      TermText(q.triple.subj) + (" " + (IriText(q.triple.pred) + (" " + (TermText(q.triple.obj)
      + (GraphText(q.graph) + (" ." + ("\n" + rest)))))))
  {
    var a, b, c, g := TermText(q.triple.subj), IriText(q.triple.pred), TermText(q.triple.obj), GraphText(q.graph);
    assert " .\n" == " ." + "\n";
    Reassociate(a, " ", b, " ", c, g, " .", "\n", rest);
  }

  lemma Reassociate(a: string, x: string, b: string, y: string, c: string, g: string, d: string, e: string, rest: string)
    ensures a + x + b + y + c + g + (d + e) + rest == a + (x + (b + (y + (c + (g + (d + (e + rest)))))))
  {
    var right := c + (g + (d + (e + rest)));
    assert c + g + (d + e) + rest == right;
    assert b + y + right == b + (y + right);
    assert a + x + b + y + c + g + (d + e) + rest == a + x + b + y + (c + g + (d + e) + rest);
    assert a + x + b + y + right == a + (x + (b + y + right));
  }

  lemma StatementReads(q: Quad, rest: string)
    requires CleanQuad(q)
    ensures ReadStatement(QuadLine(q) + rest) == Read(Normal(q), "\n" + rest)
  {
    var t := q.triple;
    var tail := GraphText(q.graph) + (" ." + ("\n" + rest));
    var fromObj := TermText(t.obj) + tail;
    var fromPred := IriText(t.pred) + (" " + fromObj);
    LineParts(q, rest);
    ResourceReads(t.subj, " " + fromPred);
    assert fromPred[0] == '<';
    SkipOne(fromPred);
    IriReads(t.pred, " " + fromObj);
    TermStart(t.obj);
    assert fromObj[0] == TermText(t.obj)[0];
    SkipOne(fromObj);
    assert Spaced(tail) by {
      assert q.graph.Some? ==> tail[0] == GraphText(q.graph)[0];
    }
    ObjectReads(t.obj, tail);
    EndReads(Triple(t.subj, t.pred, NormalTerm(t.obj)), q.graph, "\n" + rest);
  }

  lemma AfterLine(rest: string)
    ensures var end := "\n" + rest;
      SkipSpace(end) == end && IsEol(end[0]) && ReadDocument(end) == ReadDocument(rest)
  {
    DropFirst("\n", rest);
  }

  lemma LineReads(q: Quad, rest: string)
    requires CleanQuad(q)
    ensures ReadDocument(QuadLine(q) + rest) ==
      var more := ReadDocument(rest);
      if more.Some? then Some([Normal(q)] + more.value) else None
  {
    StatementReads(q, rest);
    LineStart(q, rest);
    AfterLine(rest);
  }

  lemma LineStart(q: Quad, rest: string)
    ensures var s := QuadLine(q) + rest;
      s != "" && !IsBlankSpace(s[0]) && !IsEol(s[0]) && s[0] != '#'
  {
    TermStart(q.triple.subj);
    LineParts(q, rest);
    assert (QuadLine(q) + rest)[0] == TermText(q.triple.subj)[0];
  }

  ghost predicate AllClean(qs: seq<Quad>) {
    forall i :: 0 <= i < |qs| ==> CleanQuad(qs[i])
  }

  /** The reader undoes the writer on every sequence of quads with clean labels and tags. */
  lemma {:induction false} WriteRead(qs: seq<Quad>)
    requires AllClean(qs)
    ensures ReadDocument(QuadLines(qs)) == Some(NormalAll(qs))
  {
    if qs != [] {
      assert qs == [qs[0]] + qs[1..];
      JoinedCons(QuadLine, qs[0], qs[1..]);
      WriteRead(qs[1..]);
      LineReads(qs[0], QuadLines(qs[1..]));
    }
  }

  // ----- exactly then

  lemma ResourceReadClean(s: string)
    ensures ReadResource(s).Read? ==> CleanTerm(ReadResource(s).value)
  {
  }

  lemma ObjectReadClean(s: string)
    ensures ReadObject(s).Read? ==> CleanTerm(ReadObject(s).value)
  {
    ResourceReadClean(s);
  }

  lemma StatementReadClean(s: string)
    ensures ReadStatement(s).Read? ==> CleanQuad(ReadStatement(s).value)
  {
    var subj := ReadResource(s);
    ResourceReadClean(s);
    if subj.Read? {
      var pred := ReadIri(SkipSpace(subj.rest));
      if pred.Read? {
        var obj := ReadObject(SkipSpace(pred.rest));
        ObjectReadClean(SkipSpace(pred.rest));
        if obj.Read? { ResourceReadClean(SkipSpace(obj.rest)); }
      }
    }
  }

  lemma AllCleanCons(q: Quad, qs: seq<Quad>)
    requires CleanQuad(q) && AllClean(qs)
    ensures AllClean([q] + qs)
  {
  }

  lemma {:induction false} DocumentReadClean(s: string)
    ensures ReadDocument(s).Some? ==> AllClean(ReadDocument(s).value)
    decreases |s|
  {
    if s == "" {
    } else if IsBlankSpace(s[0]) || IsEol(s[0]) {
      DocumentReadClean(s[1..]);
    } else if s[0] == '#' {
      DocumentReadClean(SkipComment(s[1..]));
    } else {
      var q := ReadStatement(s);
      StatementReadClean(s);
      if q.Read? {
        var more := ReadDocument(SkipSpace(q.rest));
        DocumentReadClean(SkipSpace(q.rest));
        if more.Some? { AllCleanCons(q.value, more.value); }
      }
    }
  }

  lemma {:induction false} NormalAllClean(qs: seq<Quad>)
    ensures AllClean(NormalAll(qs)) <==> AllClean(qs)
  {
    if qs != [] {
      NormalAllClean(qs[1..]);
      assert qs == [qs[0]] + qs[1..];
      CleanSplit(qs[0], qs[1..]);
      CleanSplit(Normal(qs[0]), NormalAll(qs[1..]));
      assert CleanQuad(Normal(qs[0])) <==> CleanQuad(qs[0]);
    }
  }

  lemma CleanSplit(q: Quad, qs: seq<Quad>)
    ensures AllClean([q] + qs) <==> CleanQuad(q) && AllClean(qs)
  {
    if AllClean([q] + qs) {
      assert ([q] + qs)[0] == q && forall i :: 0 <= i < |qs| ==> qs[i] == ([q] + qs)[i + 1];
    }
  }

  /** The round trip holds exactly for labels without white space and tags of letters, digits and
      hyphens; IRIs, literals and datatypes may hold any character. */
  lemma RoundTripExact(qs: seq<Quad>)
    ensures ReadDocument(QuadLines(qs)) == Some(NormalAll(qs)) <==> AllClean(qs)
  {
    if AllClean(qs) {
      WriteRead(qs);
    }
    DocumentReadClean(QuadLines(qs));
    NormalAllClean(qs);
  }

  /** In the default graph both writers write the same line. */
  lemma DefaultGraphIsTriple(t: Triple)
    ensures QuadLine(Quad(t, None)) == TripleLine(t)
  {
    assert TripleBody(t) + "" == TripleBody(t);
  }

  function InDefaultGraph(ts: seq<Triple>): seq<Quad> {
    seq(|ts|, i requires 0 <= i < |ts| => Quad(ts[i], None))
  }

  lemma DefaultGraphLines(ts: seq<Triple>)
    ensures QuadLines(InDefaultGraph(ts)) == TripleLines(ts)
  {
    forall i | 0 <= i < |ts| ensures QuadLine(InDefaultGraph(ts)[i]) == TripleLine(ts[i]) {
      DefaultGraphIsTriple(ts[i]);
    }
    JoinedAlike(QuadLine, InDefaultGraph(ts), TripleLine, ts);
  }

  /** Writing with the N-Quads writer and reading the text again. */
  method WriteThenRead(qs: seq<Quad>) returns (r: Option<seq<Quad>>)
    ensures r == Some(NormalAll(qs)) <==> AllClean(qs)
  {
    var out := new Sink();
    NQuads.WriteQuadsDirect(qs, out);
    assert out.text == "" + QuadLines(qs) == QuadLines(qs);
    r := ReadDocument(out.text);
    RoundTripExact(qs);
  }

  /** The same triples, through either writer, leave the same text. */
  method WriteTriplesBothWays(ts: seq<Triple>) returns (a: string, b: string)
    ensures a == b
  {
    var first := new Sink();
    var second := new Sink();
    var n := NTriples.WriteStreaming(ts, first);
    var m := NQuads.WriteStreaming(InDefaultGraph(ts), second);
    DefaultGraphLines(ts);
    a, b := first.text, second.text;
  }
}
