/** The N-Quads writer (parser/src/export/nquads.rs), with its own copy of the escaping loops. */
module NQuads {
  import opened Common
  import opened Rdf
  import opened LineText

  method WriteIriChar(c: char, out: Sink)
    modifies out
    ensures out.text == old(out.text) + IriChar(c)
  {
    if EscapedInIri(c) { SmallEscape(c); }
    match c {
      case '<' => out.Write("\\u003C");
      case '>' => out.Write("\\u003E");
      case '"' => out.Write("\\u0022");
      case '{' => out.Write("\\u007B");
      case '}' => out.Write("\\u007D");
      case '|' => out.Write("\\u007C");
      case '^' => out.Write("\\u005E");
      case '`' => out.Write("\\u0060");
      case '\\' => out.Write("\\u005C");
      case ' ' => out.Write("\\u0020");
      case _ =>
        if IsControl(c) { out.Write("\\u" + Hex(c as int, 4)); } else { out.Write([c]); }
    }
  }

  method WriteStringChar(c: char, out: Sink)
    modifies out
    ensures out.text == old(out.text) + StringChar(c)
  {
    match c {
      case '\\' => out.Write("\\\\");
      case '"' => out.Write("\\\"");
      case '\n' => out.Write("\\n");
      case '\r' => out.Write("\\r");
      case '\t' => out.Write("\\t");
      case _ =>
        if IsControl(c) {
          if c as int <= 0xFFFF {
            out.Write("\\u" + Hex(c as int, 4));
          } else {
            out.Write("\\U" + Hex(c as int, 8));
          }
        } else {
          out.Write([c]);
        }
    }
  }

  method WriteEscapedIri(s: string, out: Sink)
    modifies out
    ensures out.text == old(out.text) + EscapeIri(s)
  {
    ghost var base := out.text;
    for i := 0 to |s|
      invariant out.text == base + EscapeIri(s[..i])
    {
      JoinedStep(base, IriChar, s, i);
      WriteIriChar(s[i], out);
    }
    assert s[..|s|] == s;
  }

  method WriteEscapedString(s: string, out: Sink)
    modifies out
    ensures out.text == old(out.text) + EscapeString(s)
  {
    ghost var base := out.text;
    for i := 0 to |s|
      invariant out.text == base + EscapeString(s[..i])
    {
      JoinedStep(base, StringChar, s, i);
      WriteStringChar(s[i], out);
    }
    assert s[..|s|] == s;
  }

  method WriteIri(iri: string, out: Sink)
    modifies out
    ensures out.text == old(out.text) + IriText(iri)
  {
    ghost var base := out.text;
    out.Write("<");
    WriteEscapedIri(iri, out);
    out.Write(">");
    Append3(base, "<", EscapeIri(iri), ">");
  }

  method WriteGraph(g: Subject, out: Sink)
    modifies out
    ensures out.text == old(out.text) + TermText(g)
  {
    if g.Iri? {
      WriteIri(g.iri, out);
    } else {
      out.Write("_:" + g.id);
    }
  }

  method WriteLiteral(l: Literal, out: Sink)
    modifies out
    ensures out.text == old(out.text) + TermText(Lit(l))
  {
    ghost var base := out.text;
    out.Write("\"");
    WriteEscapedString(l.value, out);
    out.Write("\"");
    Append3(base, "\"", EscapeString(l.value), "\"");
    WriteSuffix(l, out);
    Associate(base, "\"" + EscapeString(l.value) + "\"", LiteralSuffix(l));
  }

  method WriteSuffix(l: Literal, out: Sink)
    modifies out
    ensures out.text == old(out.text) + LiteralSuffix(l)
  {
    if l.Tagged? {
      out.Write("@" + l.language);
    } else if l.Typed? && l.datatypeIri != XSD_STRING {
      ghost var base := out.text;
      out.Write("^^<");
      WriteEscapedIri(l.datatypeIri, out);
      out.Write(">");
      SuffixPieces(base, EscapeIri(l.datatypeIri));
    }
  }

  method WriteObject(o: Term, out: Sink)
    modifies out
    ensures out.text == old(out.text) + TermText(o)
  {
    if o.Lit? { WriteLiteral(o.literal, out); } else { WriteGraph(o, out); }
  }

  method WriteQuadDirect(q: Quad, out: Sink)
    modifies out
    ensures out.text == old(out.text) + QuadLine(q)
  {
    ghost var base := out.text;
    var t := q.triple;
    WriteGraph(t.subj, out);
    out.Write(" ");
    WriteIri(t.pred, out);
    out.Write(" ");
    WriteObject(t.obj, out);
    Append5(base, TermText(t.subj), " ", IriText(t.pred), " ", TermText(t.obj));
    if q.graph.Some? {
      out.Write(" ");
      WriteGraph(q.graph.value, out);
      Associate(base + TripleBody(t), " ", TermText(q.graph.value));
    }
    out.Write(" .\n");
    Append3(base, TripleBody(t), GraphText(q.graph), " .\n");
  }

  method WriteQuadsDirect(qs: seq<Quad>, out: Sink)
    modifies out
    ensures out.text == old(out.text) + QuadLines(qs)
  {
    ghost var base := out.text;
    for i := 0 to |qs|
      invariant out.text == base + QuadLines(qs[..i])
    {
      JoinedStep(base, QuadLine, qs, i);
      WriteQuadDirect(qs[i], out);
    }
    assert qs[..|qs|] == qs;
  }

  class NQuadsStreamWriter {
    const out: Sink
    var count: nat

    constructor (out: Sink)
      ensures this.out == out && count == 0
    {
      this.out, count := out, 0;
    }

    method Write(q: Quad)
      modifies this, out
      ensures out.text == old(out.text) + QuadLine(q) && count == old(count) + 1
    {
      WriteQuadDirect(q, out);
      count := count + 1;
    }

    method WriteTriple(t: Triple)
      modifies this, out
      ensures out.text == old(out.text) + TripleLine(t) && count == old(count) + 1
    {
      Write(Quad(t, None));
    }
  }

  method WriteStreaming(qs: seq<Quad>, out: Sink) returns (count: nat)
    modifies out
    ensures out.text == old(out.text) + QuadLines(qs) && count == |qs|
  {
    ghost var base := out.text;
    var stream := new NQuadsStreamWriter(out);
    for i := 0 to |qs|
      invariant stream.out == out && fresh(stream)
      invariant out.text == base + QuadLines(qs[..i]) && stream.count == i
    {
      JoinedStep(base, QuadLine, qs, i);
      stream.Write(qs[i]);
    }
    assert qs[..|qs|] == qs;
    count := stream.count;
  }
}
