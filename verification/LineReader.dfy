/** A reader for N-Triples and N-Quads, after the grammar of section 7 of RDF 1.1 N-Triples and
    the graph term of section 2 of RDF 1.1 N-Quads. Two terminals are read more generously than
    the grammar has them: a blank node label is any run of characters without white space, and a
    language tag any run of letters, digits and hyphens. */
module LineReader {
  import opened Common
  import opened Rdf

  datatype Parsed<+T> = Fail | Read(value: T, rest: string)

  // ----- characters

  function HexValue(c: char): Option<nat> {
    if '0' <= c <= '9' then Some((c - '0') as nat)
    else if 'A' <= c <= 'F' then Some((c - 'A') as nat + 10)
    else if 'a' <= c <= 'f' then Some((c - 'a') as nat + 10)
    else None
  }

  function HexNumber(s: string): Option<nat> {
    if s == "" then Some(0)
    else
      var high, low := HexNumber(s[..|s| - 1]), HexValue(s[|s| - 1]);
      if high.Some? && low.Some? then Some(16 * high.value + low.value) else None
  }

  predicate IsScalar(n: nat) {
    n < 0xD800 || 0xE000 <= n < 0x110000
  }

  /** UCHAR, from its backslash on. */
  function ReadUnicode(s: string): (p: Parsed<char>)
    ensures p.Read? ==> |p.rest| < |s|
  {
    var digits := if |s| >= 2 && s[1] == 'u' then 4 else 8;
    if |s| < 2 + digits || s[0] != '\\' || (s[1] != 'u' && s[1] != 'U') then Fail
    else
      var n := HexNumber(s[2..2 + digits]);
      if n.Some? && IsScalar(n.value) then Read(n.value as char, s[2 + digits..]) else Fail
  }

  function Cons(c: char, p: Parsed<string>): Parsed<string> {
    if p.Read? then Read([c] + p.value, p.rest) else Fail
  }

  /** The inside of IRIREF, up to and including the closing '>'. */
  function ReadIriBody(s: string): (p: Parsed<string>)
    ensures p.Read? ==> |p.rest| < |s|
    decreases |s|
  {
    if s == "" then Fail
    else if s[0] == '>' then Read("", s[1..])
    else if s[0] == '\\' then
      var u := ReadUnicode(s);
      if u.Read? then Cons(u.value, ReadIriBody(u.rest)) else Fail
    else if s[0] <= ' ' || s[0] in "<\"{}|^`" then Fail
    else Cons(s[0], ReadIriBody(s[1..]))
  }

  /** ECHAR. */
  function EscapedChar(c: char): Option<char> {
    match c
    case 't' => Some('\t')
    case 'b' => Some('\U{8}')
    case 'n' => Some('\n')
    case 'r' => Some('\r')
    case 'f' => Some('\U{c}')
    case '"' => Some('"')
    case '\'' => Some('\'')
    case '\\' => Some('\\')
    case _ => None
  }

  /** The inside of STRING_LITERAL_QUOTE, up to and including the closing quote. */
  function ReadStringBody(s: string): (p: Parsed<string>)
    ensures p.Read? ==> |p.rest| < |s|
    decreases |s|
  {
    if s == "" then Fail
    else if s[0] == '"' then Read("", s[1..])
    else if s[0] == '\\' then
      if |s| >= 2 && EscapedChar(s[1]).Some? then Cons(EscapedChar(s[1]).value, ReadStringBody(s[2..]))
      else
        var u := ReadUnicode(s);
        if u.Read? then Cons(u.value, ReadStringBody(u.rest)) else Fail
    else if s[0] == '\n' || s[0] == '\r' then Fail
    else Cons(s[0], ReadStringBody(s[1..]))
  }

  // ----- terms

  predicate IsBlankSpace(c: char) { c == ' ' || c == '\t' }

  predicate IsEol(c: char) { c == '\n' || c == '\r' }

  predicate LabelChar(c: char) { !IsBlankSpace(c) && !IsEol(c) }

  predicate TagChar(c: char) {
    'a' <= c <= 'z' || 'A' <= c <= 'Z' || '0' <= c <= '9' || c == '-'
  }

  /** The longest run of characters of one kind. */
  function RunLength(s: string, kind: char -> bool): (n: nat)
    ensures n <= |s| && forall i :: 0 <= i < n ==> kind(s[i])
  {
    if s != "" && kind(s[0]) then 1 + RunLength(s[1..], kind) else 0
  }

  function ReadIri(s: string): (p: Parsed<string>)
    ensures p.Read? ==> |p.rest| < |s|
  {
    if s != "" && s[0] == '<' then ReadIriBody(s[1..]) else Fail
  }

  function ReadResource(s: string): (p: Parsed<Subject>)
    ensures p.Read? ==> |p.rest| < |s|
  {
    if |s| >= 2 && s[0] == '_' && s[1] == ':' then
      var n := RunLength(s[2..], LabelChar);
      Read(Blank(s[2..][..n]), s[2..][n..])
    else
      var iri := ReadIri(s);
      if iri.Read? then Read(Iri(iri.value), iri.rest) else Fail
  }

  /** A datatype of xsd:string says no more than leaving the datatype out. */
  function MakeTyped(value: string, datatypeIri: string): Literal {
    if datatypeIri == XSD_STRING then Plain(value) else Typed(value, datatypeIri)
  }

  /** What follows the closing quote. */
  function ReadSuffix(value: string, s: string): (p: Parsed<Term>)
    ensures p.Read? ==> |p.rest| <= |s|
  {
    if s != "" && s[0] == '@' then
      var n := RunLength(s[1..], TagChar);
      Read(Lit(Tagged(value, s[1..][..n])), s[1..][n..])
    else if |s| >= 2 && s[0] == '^' && s[1] == '^' then
      var iri := ReadIri(s[2..]);
      if iri.Read? then Read(Lit(MakeTyped(value, iri.value)), iri.rest) else Fail
    else Read(Lit(Plain(value)), s)
  }

  function ReadObject(s: string): (p: Parsed<Term>)
    ensures p.Read? ==> |p.rest| < |s|
  {
    if s != "" && s[0] == '"' then
      var text := ReadStringBody(s[1..]);
      if text.Read? then ReadSuffix(text.value, text.rest) else Fail
    else
      var r := ReadResource(s);
      if r.Read? then Read(r.value, r.rest) else Fail
  }

  // ----- statements and documents

  function SkipSpace(s: string): (r: string)
    ensures |r| <= |s|
    ensures r != "" ==> !IsBlankSpace(r[0])
  {
    if s != "" && IsBlankSpace(s[0]) then SkipSpace(s[1..]) else s
  }

  /** subject predicate object graphLabel? '.' */
  function ReadStatement(s: string): (p: Parsed<Quad>)
    ensures p.Read? ==> |p.rest| < |s|
  {
    var subj := ReadResource(s);
    if subj.Fail? then Fail else
    var pred := ReadIri(SkipSpace(subj.rest));
    if pred.Fail? then Fail else
    var obj := ReadObject(SkipSpace(pred.rest));
    if obj.Fail? then Fail else
    ReadEnd(Triple(subj.value, pred.value, obj.value), SkipSpace(obj.rest))
  }

  function ReadEnd(t: Triple, s: string): (p: Parsed<Quad>)
    ensures p.Read? ==> |p.rest| < |s|
  {
    if s != "" && s[0] == '.' then Read(Quad(t, None), s[1..])
    else
      var graph := ReadResource(s);
      if graph.Fail? then Fail else
      var rest := SkipSpace(graph.rest);
      if rest != "" && rest[0] == '.' then Read(Quad(t, Some(graph.value)), rest[1..]) else Fail
  }

  function SkipComment(s: string): (r: string)
    ensures |r| <= |s|
  {
    if s == "" || IsEol(s[0]) then s else SkipComment(s[1..])
  }

  /** Blank lines, comments and statements, each statement ended by a line end or the end of the text. */
  function ReadDocument(s: string): Option<seq<Quad>>
    decreases |s|
  {
    if s == "" then Some([])
    else if IsBlankSpace(s[0]) || IsEol(s[0]) then ReadDocument(s[1..])
    else if s[0] == '#' then ReadDocument(SkipComment(s[1..]))
    else
      var q := ReadStatement(s);
      if q.Fail? then None else
      var after := SkipSpace(q.rest);
      if after != "" && !IsEol(after[0]) && after[0] != '#' then None else
      var more := ReadDocument(after);
      if more.None? then None else Some([q.value] + more.value)
  }
}
