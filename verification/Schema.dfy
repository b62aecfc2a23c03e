/** Cypher string literals and identifiers (mapper/src/graph/schema.rs). */
module Schema {
  import opened Common
  import opened Rdf

  function EscapeChar(c: char): string {
    if c == '\\' then "\\\\"
    else if c == '\'' then "\\'"
    else if c == '"' then "\\\""
    else if c == '\n' then "\\n"
    else if c == '\r' then "\\r"
    else if c == '\t' then "\\t"
    else if IsControl(c) then ""
    else [c]
  }

  function EscapeCypherString(s: string): string {
    if s == "" then "" else EscapeChar(s[0]) + EscapeCypherString(s[1..])
  }

  lemma EscapeStep(done: string, s: string, i: nat)
    requires i < |s|
    ensures done + EscapeCypherString(s[i..]) == done + EscapeChar(s[i]) + EscapeCypherString(s[i + 1..])
  {
    assert s[i..][0] == s[i] && s[i..][1..] == s[i + 1..];
    Associate(done, EscapeChar(s[i]), EscapeCypherString(s[i + 1..]));
  }

  method EscapeCypher(s: string) returns (result: string)
    ensures result == EscapeCypherString(s)
  {
    result := "";
    for i := 0 to |s|
      invariant result + EscapeCypherString(s[i..]) == EscapeCypherString(s)
    {
      EscapeStep(result, s, i);
      result := result + EscapeChar(s[i]);
    }
  }

  /** Control characters that the escape drops instead of writing an escape for. */
  predicate Dropped(c: char) {
    IsControl(c) && c != '\n' && c != '\r' && c != '\t'
  }

  predicate Clean(s: string) {
    forall i :: 0 <= i < |s| ==> !Dropped(s[i])
  }

  function StripDropped(s: string): string {
    if s == "" then "" else (if Dropped(s[0]) then "" else [s[0]]) + StripDropped(s[1..])
  }

  /** How Cypher reads the inside of a single-quoted literal; None when the
      quote would end early or an escape is not known. */
  function ReadCypherString(s: string): Option<string> {
    if s == "" then Some("")
    else if s[0] == '\'' then None
    else if s[0] == '\\' then
      if |s| == 1 then None
      else
        var rest := ReadCypherString(s[2..]);
        if rest.None? then None
        else if s[1] == 'n' then Some("\n" + rest.value)
        else if s[1] == 'r' then Some("\r" + rest.value)
        else if s[1] == 't' then Some("\t" + rest.value)
        else if s[1] in "\\'\"" then Some([s[1]] + rest.value)
        else None
    else
      var rest := ReadCypherString(s[1..]);
      if rest.None? then None else Some([s[0]] + rest.value)
  }

  /** Reading undoes escaping on every string, up to the dropped characters. */
  lemma {:induction false} ReadUndoesEscape(s: string)
    ensures ReadCypherString(EscapeCypherString(s)) == Some(StripDropped(s))
  {
    if s != "" {
      ReadUndoesEscape(s[1..]);
      var e, rest := EscapeChar(s[0]), EscapeCypherString(s[1..]);
      if |e| == 2 {
        assert (e + rest)[2..] == rest;
      } else if |e| == 1 {
        assert (e + rest)[1..] == rest;
      } else {
        assert e + rest == rest;
        assert StripDropped(s) == "" + StripDropped(s[1..]) == StripDropped(s[1..]);
      }
    }
  }

  lemma {:induction false} StripDroppedLength(s: string)
    ensures |StripDropped(s)| <= |s|
    ensures StripDropped(s) == s <==> Clean(s)
  {
    if s != "" {
      StripDroppedLength(s[1..]);
      assert s == [s[0]] + s[1..];
      if Dropped(s[0]) {
        assert !Clean(s);
      } else {
        assert StripDropped(s)[1..] == StripDropped(s[1..]);
        if Clean(s[1..]) {
          assert forall i :: 0 < i < |s| ==> s[i] == s[1..][i - 1];
        } else {
          var i :| 0 <= i < |s[1..]| && Dropped(s[1..][i]);
          assert Dropped(s[i + 1]);
        }
      }
    }
  }

  /** The round trip is exact on precisely the strings without dropped characters. */
  lemma EscapeRoundTripExact(s: string)
    ensures ReadCypherString(EscapeCypherString(s)) == Some(s) <==> Clean(s)
  {
    ReadUndoesEscape(s);
    StripDroppedLength(s);
  }

  /** The value the database holds for a literal written from s. */
  function Stored(s: string): (r: string)
    ensures Clean(s) ==> r == s
  {
    ReadUndoesEscape(s);
    StripDroppedLength(s);
    ReadCypherString(EscapeCypherString(s)).value
  }

  predicate IsAsciiAlphabetic(c: char) {
    'a' <= c <= 'z' || 'A' <= c <= 'Z'
  }

  predicate IsAsciiDigit(c: char) {
    '0' <= c <= '9'
  }

  predicate IdentifierChar(c: char) {
    IsAsciiAlphabetic(c) || IsAsciiDigit(c) || c == '_'
  }

  function SanitizeChars(s: string): string {
    if s == "" then "" else [if IdentifierChar(s[0]) then s[0] else '_'] + SanitizeChars(s[1..])
  }

  function SanitizeIdentifier(s: string): string {
    if s == "" then "_unnamed"
    else if IsAsciiAlphabetic(s[0]) || s[0] == '_' then SanitizeChars(s)
    else "_" + SanitizeChars(s)
  }

  /** A Cypher identifier that needs no backticks. */
  predicate IsIdentifier(s: string) {
    s != "" && (IsAsciiAlphabetic(s[0]) || s[0] == '_')
    && forall i :: 0 <= i < |s| ==> IdentifierChar(s[i])
  }

  lemma {:induction false} SanitizeCharsShape(s: string)
    ensures |SanitizeChars(s)| == |s|
    ensures forall i :: 0 <= i < |s| ==> IdentifierChar(SanitizeChars(s)[i])
    ensures (forall i :: 0 <= i < |s| ==> IdentifierChar(s[i])) ==> SanitizeChars(s) == s
  {
    if s != "" {
      SanitizeCharsShape(s[1..]);
    }
  }

  /** Every string becomes a plain identifier, and identifiers are left alone. */
  lemma SanitizeMakesIdentifiers(s: string)
    ensures IsIdentifier(SanitizeIdentifier(s))
    ensures IsIdentifier(s) <==> SanitizeIdentifier(s) == s
  {
    SanitizeCharsShape(s);
    if s != "" && (IsAsciiAlphabetic(s[0]) || s[0] == '_') {
    } else if s != "" {
      assert |SanitizeIdentifier(s)| == |s| + 1;
    }
  }

  /** r is s with every character but letters, digits and underscores turned into an underscore, behind one more
      if the first is not fit to start a name; an empty name gets one of its own. */
  predicate MadeIdentifier(s: string, r: string) {
    if s == "" then r == "_unnamed" else
      var k := if 'a' <= s[0] <= 'z' || 'A' <= s[0] <= 'Z' || s[0] == '_' then 0 else 1;
      && |r| == k + |s| && (k == 1 ==> r[0] == '_')
      && forall i :: 0 <= i < |s| ==>
           r[k + i] == if 'a' <= s[i] <= 'z' || 'A' <= s[i] <= 'Z' || '0' <= s[i] <= '9' then s[i] else '_'
  }

  lemma SanitizeExact(s: string, r: string)
    ensures SanitizeIdentifier(s) == r <==> MadeIdentifier(s, r)
  {
    SanitizeCharsExact(s);
    var got := SanitizeIdentifier(s);
    assert MadeIdentifier(s, got);
    if MadeIdentifier(s, r) && s != "" {
      var k := if 'a' <= s[0] <= 'z' || 'A' <= s[0] <= 'Z' || s[0] == '_' then 0 else 1;
      forall j | 0 <= j < |r| ensures r[j] == got[j] {
        if j >= k { assert r[k + (j - k)] == got[k + (j - k)]; }
      }
    }
  }

  lemma {:induction false} SanitizeCharsExact(s: string)
    ensures |SanitizeChars(s)| == |s|
    ensures forall i :: 0 <= i < |s| ==> SanitizeChars(s)[i] == if IdentifierChar(s[i]) then s[i] else '_'
  {
    if s != "" { SanitizeCharsExact(s[1..]); }
  }

  method Sanitize(s: string) returns (result: string)
    ensures result == SanitizeIdentifier(s)
  {
    result := "";
    if |s| > 0 && !IsAsciiAlphabetic(s[0]) && s[0] != '_' {
      result := "_";
    }
    ghost var start := result;
    for i := 0 to |s|
      invariant result + SanitizeChars(s[i..]) == start + SanitizeChars(s)
      invariant |result| >= i
    {
      assert s[i..][1..] == s[i + 1..];
      result := result + [if IdentifierChar(s[i]) then s[i] else '_'];
    }
    assert s[|s|..] == "" && result + "" == result;
    assert "" + SanitizeChars(s) == SanitizeChars(s);
    if result == "" {
      result := "_unnamed";
    }
  }
}
