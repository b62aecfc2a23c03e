/** What the text written for a literal means to Cypher: reading it gives the literal back. */
module LiteralValues {
  import opened Common
  import opened Rdf
  import opened Schema
  import opened CypherGenerator
  import opened RdfLists

  /** A property value as Cypher reads its text. */
  datatype Scalar = DateOf(text: string) | Bare(text: string) | Str(text: string)

  // ----- numbers, by their grammar

  predicate IsSign(s: string) {
    s == "" || s == "+" || s == "-"
  }

  predicate IsFraction(s: string) {
    s == "" || (s[0] == '.' && AllDigits(s[1..]))
  }

  predicate ExponentParts(s: string, sign: string, digits: string) {
    && s != "" && (s[0] == 'e' || s[0] == 'E') && s[1..] == sign + digits
    && IsSign(sign) && digits != "" && AllDigits(digits)
  }

  ghost predicate IsExponent(s: string) {
    s == "" || exists sign, digits :: ExponentParts(s, sign, digits)
  }

  /** s is written sign, digits, fraction, exponent; there is a digit before or after the point. */
  ghost predicate NumberParts(s: string, sign: string, whole: string, fraction: string, exponent: string) {
    && s == sign + whole + fraction + exponent
    && IsSign(sign) && AllDigits(whole) && IsFraction(fraction) && IsExponent(exponent)
    && |whole| + |fraction| > |if fraction == "" then "" else "."|
  }

  ghost predicate IsNumber(s: string) {
    exists sign, whole, fraction, exponent :: NumberParts(s, sign, whole, fraction, exponent)
  }

  /** Equal up to the case of ASCII letters; word is in lower case. */
  predicate SameLetters(s: string, word: string) {
    |s| == |word| && forall i :: 0 <= i < |s| ==> s[i] == word[i] || ('A' <= s[i] <= 'Z' && s[i] as int + 32 == word[i] as int)
  }

  predicate NameParts(s: string, sign: string, name: string) {
    && s == sign + name && IsSign(sign)
    && (SameLetters(name, "inf") || SameLetters(name, "infinity") || SameLetters(name, "nan"))
  }

  /** Infinity or not-a-number: Rust parses these as numbers, Cypher reads them as names. */
  ghost predicate IsNumberName(s: string) {
    exists sign, name :: NameParts(s, sign, name)
  }

  lemma {:induction false} DigitsPrefixExact(s: string)
    ensures AllDigits(s[..DigitsPrefix(s)])
  {
    if s != "" && IsAsciiDigit(s[0]) {
      var n := DigitsPrefix(s[1..]);
      DigitsPrefixExact(s[1..]);
      assert s[..1 + n] == [s[0]] + s[1..][..n];
    }
  }

  lemma {:induction false} DigitsThen(digits: string, rest: string)
    requires AllDigits(digits) && (rest == "" || !IsAsciiDigit(rest[0]))
    ensures DigitsPrefix(digits + rest) == |digits|
  {
    if digits == "" {
      assert digits + rest == rest;
    } else {
      assert (digits + rest)[1..] == digits[1..] + rest;
      DigitsThen(digits[1..], rest);
    }
  }

  lemma LowerExact(s: string, word: string)
    requires forall i :: 0 <= i < |word| ==> 'a' <= word[i] <= 'z'
    ensures Lower(s) == word <==> SameLetters(s, word)
  {
    if SameLetters(s, word) {
      forall i | 0 <= i < |s| ensures Lower(s)[i] == word[i] {
      }
    }
    if Lower(s) == word {
      forall i | 0 <= i < |s| ensures s[i] == word[i] || ('A' <= s[i] <= 'Z' && s[i] as int + 32 == word[i] as int) {
        assert Lower(s)[i] == word[i];
      }
    }
  }

  /** The exponent as str::parse reads it. */
  predicate ExponentParses(tail: string) {
    tail == "" || (tail[0] in "eE" && DropSign(tail[1..]) != "" && AllDigits(DropSign(tail[1..])))
  }

  lemma ExponentExact(tail: string)
    ensures ExponentParses(tail) <==> IsExponent(tail)
  {
    if tail != "" && ExponentParses(tail) {
      var digits := DropSign(tail[1..]);
      var sign := if digits == tail[1..] then "" else [tail[1]];
      assert ExponentParts(tail, sign, digits);
    }
    if tail != "" && IsExponent(tail) {
      var sign, digits :| ExponentParts(tail, sign, digits);
      SignDropped(sign, digits);
    }
  }

  lemma SignDropped(sign: string, rest: string)
    requires IsSign(sign) && (rest == "" || (rest[0] != '+' && rest[0] != '-'))
    ensures DropSign(sign + rest) == rest
  {
    if sign == "" { assert sign + rest == rest; } else { assert (sign + rest)[1..] == rest; }
  }

  lemma SignOf(s: string) returns (sign: string)
    ensures IsSign(sign) && s == sign + DropSign(s)
  {
    sign := if DropSign(s) == s then "" else [s[0]];
  }

  /** The digits-point-digits-exponent branch of the parser. */
  predicate BodyParses(body: string) {
    var whole := DigitsPrefix(body);
    var rest := body[whole..];
    var fraction := if rest != "" && rest[0] == '.' then DigitsPrefix(rest[1..]) else 0;
    var tail := if rest != "" && rest[0] == '.' then rest[1 + fraction..] else rest;
    whole + fraction > 0 && ExponentParses(tail)
  }

  lemma BodyHasParts(body: string) returns (whole: string, fraction: string, exponent: string)
    requires BodyParses(body)
    ensures NumberParts(body, "", whole, fraction, exponent)
  {
    var n := DigitsPrefix(body);
    whole := body[..n];
    DigitsPrefixExact(body);
    fraction, exponent := RestHasParts(body[n..]);
    assert body == whole + body[n..];
    WholeThen(body, whole, fraction, exponent);
  }

  lemma RestHasParts(rest: string) returns (fraction: string, exponent: string)
    requires ExponentParses(if rest != "" && rest[0] == '.' then rest[1 + DigitsPrefix(rest[1..])..] else rest)
    ensures rest == fraction + exponent && IsFraction(fraction) && IsExponent(exponent)
    ensures |fraction| == if rest != "" && rest[0] == '.' then 1 + DigitsPrefix(rest[1..]) else 0
  {
    fraction, exponent := "", rest;
    if rest != "" && rest[0] == '.' {
      var f := DigitsPrefix(rest[1..]);
      DigitsPrefixExact(rest[1..]);
      fraction, exponent := rest[..1 + f], rest[1 + f..];
      assert fraction[1..] == rest[1..][..f];
    }
    ExponentExact(exponent);
  }

  lemma StartOfExponent(s: string)
    requires IsExponent(s) && s != ""
    ensures s[0] == 'e' || s[0] == 'E'
  {
    var sign, digits :| ExponentParts(s, sign, digits);
  }

  /** What follows the whole digits starts with the point, the exponent, or not at all. */
  lemma AfterWhole(fraction: string, exponent: string)
    requires IsFraction(fraction) && IsExponent(exponent)
    ensures var rest := fraction + exponent;
      && (rest == "" || !IsAsciiDigit(rest[0])) && (fraction == "" ==> rest == exponent && (rest == "" || rest[0] != '.'))
      && (fraction != "" ==> rest[0] == '.' && DigitsPrefix(rest[1..]) == |fraction| - 1 && rest[|fraction|..] == exponent)
  {
    if exponent != "" { StartOfExponent(exponent); }
    var rest := fraction + exponent;
    if fraction != "" {
      DigitsThen(fraction[1..], exponent);
      assert rest[1..] == fraction[1..] + exponent;
    } else {
      assert rest == exponent;
    }
  }

  lemma PartsAreParsed(body: string, whole: string, fraction: string, exponent: string)
    requires NumberParts(body, "", whole, fraction, exponent)
    ensures BodyParses(body) && body[0] != '+' && body[0] != '-'
  {
    var rest := fraction + exponent;
    AfterWhole(fraction, exponent);
    WholeThen(body, whole, fraction, exponent);
    DigitsThen(whole, rest);
    RestParses(body, |whole|, fraction, exponent);
    assert body[0] == if whole != "" then whole[0] else fraction[0];
  }

  lemma WholeThen(body: string, whole: string, fraction: string, exponent: string)
    ensures body == "" + whole + fraction + exponent <==> body == whole + (fraction + exponent)
    ensures body == whole + (fraction + exponent) ==> body[|whole|..] == fraction + exponent
  {
  }

  lemma RestParses(body: string, n: nat, fraction: string, exponent: string)
    requires n == DigitsPrefix(body) && n + |fraction| > |if fraction == "" then "" else "."| && IsExponent(exponent)
    requires var rest := body[n..];
      && (fraction == "" ==> rest == exponent && (rest == "" || rest[0] != '.'))
      && (fraction != "" ==> rest != "" && rest[0] == '.' && DigitsPrefix(rest[1..]) == |fraction| - 1 && |fraction| <= |rest|
                             && rest[|fraction|..] == exponent)
    ensures BodyParses(body)
  {
    ExponentExact(exponent);
  }

  lemma NumberExact(s: string)
    ensures BodyParses(DropSign(s)) <==> IsNumber(s)
  {
    if BodyParses(DropSign(s)) {
      var whole, fraction, exponent := BodyHasParts(DropSign(s));
      var sign := SignOf(s);
      assert sign + DropSign(s) == sign + whole + fraction + exponent;
      assert NumberParts(s, sign, whole, fraction, exponent);
    }
    if IsNumber(s) {
      var sign, whole, fraction, exponent :| NumberParts(s, sign, whole, fraction, exponent);
      SignedParts(s, sign, whole, fraction, exponent);
    }
  }

  lemma SignedParts(s: string, sign: string, whole: string, fraction: string, exponent: string)
    requires NumberParts(s, sign, whole, fraction, exponent)
    ensures BodyParses(DropSign(s))
  {
    var body := "" + whole + fraction + exponent;
    WithoutSign(body, whole, fraction, exponent);
    PartsAreParsed(body, whole, fraction, exponent);
    SignInFront(sign, whole, fraction, exponent);
    SignDropped(sign, body);
  }

  lemma WithoutSign(body: string, whole: string, fraction: string, exponent: string)
    requires body == "" + whole + fraction + exponent
    requires AllDigits(whole) && IsFraction(fraction) && IsExponent(exponent)
    requires |whole| + |fraction| > |if fraction == "" then "" else "."|
    ensures NumberParts(body, "", whole, fraction, exponent)
  {
  }

  lemma SignInFront(sign: string, whole: string, fraction: string, exponent: string)
    ensures sign + whole + fraction + exponent == sign + ("" + whole + fraction + exponent)
  {
  }

  lemma NumberNameExact(s: string)
    ensures Lower(DropSign(s)) in {"inf", "infinity", "nan"} <==> IsNumberName(s)
  {
    if Lower(DropSign(s)) in {"inf", "infinity", "nan"} {
      NameLetters(DropSign(s));
      var sign := SignOf(s);
      assert NameParts(s, sign, DropSign(s));
    }
    if IsNumberName(s) {
      var sign, name :| NameParts(s, sign, name);
      NameLetters(name);
      SignDropped(sign, name);
    }
  }

  lemma NameLetters(name: string)
    ensures Lower(name) in {"inf", "infinity", "nan"}
      <==> SameLetters(name, "inf") || SameLetters(name, "infinity") || SameLetters(name, "nan")
  {
    LowerExact(name, "inf");
    LowerExact(name, "infinity");
    LowerExact(name, "nan");
  }

  /** str::parse::<f64> accepts the numbers of the grammar and the names of the others, and nothing else. */
  lemma FloatExact(s: string)
    ensures ParsesAsFloat(s) <==> IsNumber(s) || IsNumberName(s)
  {
    NumberExact(s);
    NumberNameExact(s);
  }

  // ----- dates, by the calendar

  const MONTHS: seq<nat> := [31, 28, 31, 30, 31, 30, 31, 31, 30, 31, 30, 31]

  predicate IsLeap(year: nat) {
    year % 4 == 0 && (year % 100 == 0 ==> year % 400 == 0)
  }

  function MonthLength(month: nat, year: nat): nat
    requires 1 <= month <= 12
  {
    MONTHS[month - 1] + if month == 2 && IsLeap(year) then 1 else 0
  }

  function FourDigits(n: nat): string
    requires n <= 9999
  {
    [Digit(n / 1000), Digit(n / 100 % 10), Digit(n / 10 % 10), Digit(n % 10)]
  }

  /** Two digits, or, as str::parse allows, a plus sign and one. */
  predicate Spells(s: string, n: nat) {
    |s| == 2 && ((n < 100 && s == [Digit(n / 10), Digit(n % 10)]) || (n < 10 && s == ['+', Digit(n)]))
  }

  ghost predicate DateParts(s: string, year: nat, month: nat, day: nat, m: string, d: string) {
    && 1 <= year <= 9999 && 1 <= month <= 12 && 1 <= day <= MonthLength(month, year)
    && s == FourDigits(year) + "-" + m + "-" + d && Spells(m, month) && Spells(d, day)
  }

  /** s names a day of the Gregorian calendar, year first. */
  ghost predicate IsCalendarDate(s: string) {
    exists year, month, day, m, d :: DateParts(s, year, month, day, m, d)
  }

  lemma DaysExact(month: nat, year: nat)
    requires 1 <= month <= 12
    ensures DaysIn(month, year) == MonthLength(month, year)
  {
  }

  lemma TwoExact(a: char, b: char, n: nat)
    ensures ParseTwo(a, b) == Some(n) <==> Spells([a, b], n)
  {
  }

  lemma PlaceValues(n: nat, a: nat, b: nat, c: nat, d: nat)
    requires n <= 9999 && a < 10 && b < 10 && c < 10 && d < 10
    ensures n == 1000 * a + 100 * b + 10 * c + d
      <==> n / 1000 == a && n / 100 % 10 == b && n / 10 % 10 == c && n % 10 == d
  {
    var tens, hundreds := n / 10, n / 100;
    assert hundreds == tens / 10 && n / 1000 == hundreds / 10;
    LastDigit(n, 100 * a + 10 * b + c, d);
    LastDigit(tens, 10 * a + b, c);
    LastDigit(hundreds, a, b);
  }

  lemma LastDigit(n: nat, q: nat, d: nat)
    requires d < 10
    ensures n == 10 * q + d <==> n / 10 == q && n % 10 == d
  {
  }

  lemma DigitExact(c: char, n: nat)
    requires IsAsciiDigit(c) && n < 10
    ensures c == Digit(n) <==> (c - '0') as nat == n
  {
  }

  lemma YearExact(a: char, b: char, c: char, d: char, n: nat)
    requires n <= 9999
    requires IsAsciiDigit(a) && IsAsciiDigit(b) && IsAsciiDigit(c) && IsAsciiDigit(d)
    ensures [a, b, c, d] == FourDigits(n)
      <==> n == 1000 * (a - '0') as nat + 100 * (b - '0') as nat + 10 * (c - '0') as nat + (d - '0') as nat
  {
    PlaceValues(n, (a - '0') as nat, (b - '0') as nat, (c - '0') as nat, (d - '0') as nat);
    DigitExact(a, n / 1000);
    DigitExact(b, n / 100 % 10);
    DigitExact(c, n / 10 % 10);
    DigitExact(d, n % 10);
  }

  /** The parts of a text that the check of a date looks at. */
  lemma DateText(s: string)
    requires |s| == 10 && s[4] == '-' && s[7] == '-'
    ensures s == s[..4] + "-" + [s[5], s[6]] + "-" + [s[8], s[9]] && s[..4] == [s[0], s[1], s[2], s[3]]
  {
  }

  lemma DatePlaces(s: string, year: string, m: string, d: string)
    requires s == year + "-" + m + "-" + d && |year| == 4 && |m| == 2 && |d| == 2
    ensures |s| == 10 && s[4] == '-' && s[7] == '-' && s[..4] == year && m == [s[5], s[6]] && d == [s[8], s[9]]
  {
  }

  lemma YearDigits(s: string)
    requires |s| >= 4 && AllDigits(s[..4])
    ensures IsAsciiDigit(s[0]) && IsAsciiDigit(s[1]) && IsAsciiDigit(s[2]) && IsAsciiDigit(s[3])
    ensures 100 * ParseTwo(s[0], s[1]).value + ParseTwo(s[2], s[3]).value
      == 1000 * (s[0] - '0') as nat + 100 * (s[1] - '0') as nat + 10 * (s[2] - '0') as nat + (s[3] - '0') as nat
  {
    assert forall i :: 0 <= i < 4 ==> s[..4][i] == s[i];
  }

  lemma DateIsCalendar(s: string)
    requires IsDate(s)
    ensures IsCalendarDate(s)
  {
    var year := 100 * ParseTwo(s[0], s[1]).value + ParseTwo(s[2], s[3]).value;
    var month, day := ParseTwo(s[5], s[6]).value, ParseTwo(s[8], s[9]).value;
    DateText(s);
    YearDigits(s);
    YearExact(s[0], s[1], s[2], s[3], year);
    TwoExact(s[5], s[6], month);
    TwoExact(s[8], s[9], day);
    DaysExact(month, year);
    assert DateParts(s, year, month, day, [s[5], s[6]], [s[8], s[9]]);
  }

  lemma CalendarIsDate(s: string, year: nat, month: nat, day: nat, m: string, d: string)
    requires DateParts(s, year, month, day, m, d)
    ensures IsDate(s)
  {
    DatePlaces(s, FourDigits(year), m, d);
    DateText(s);
    YearDigits(s);
    YearExact(s[0], s[1], s[2], s[3], year);
    TwoExact(s[5], s[6], month);
    TwoExact(s[8], s[9], day);
    DaysExact(month, year);
  }

  /** The check of a date accepts exactly the days of the calendar. */
  lemma DateExact(s: string)
    ensures IsDate(s) <==> IsCalendarDate(s)
  {
    if IsDate(s) { DateIsCalendar(s); }
    if IsCalendarDate(s) {
      var year, month, day, m, d :| DateParts(s, year, month, day, m, d);
      CalendarIsDate(s, year, month, day, m, d);
    }
  }

  // ----- reading

  function ReadQuoted(s: string): Option<string> {
    if |s| >= 2 && s[0] == '\'' && s[|s| - 1] == '\'' then ReadCypherString(s[1..|s| - 1]) else None
  }

  /** A call of date on a quoted text, a quoted text, a number or a boolean; None for anything else. */
  ghost function ReadValue(s: string): Option<Scalar> {
    if "date(" <= s && s[|s| - 1] == ')' then
      var day := ReadQuoted(s[5..|s| - 1]);
      if day.Some? then Some(DateOf(day.value)) else None
    else if s != "" && s[0] == '\'' then
      var text := ReadQuoted(s);
      if text.Some? then Some(Str(text.value)) else None
    else if IsNumber(s) || s == "true" || s == "false" then Some(Bare(s))
    else None
  }

  predicate DateTyped(lit: Literal) {
    lit.Typed? && lit.datatypeIri == XSD_DATE
  }

  /** r is the value of lit: its lexical form, as a date for a valid xsd:date, bare for a number or a
      boolean of another type, and as a string otherwise. The names of infinity and not-a-number are no value. */
  ghost predicate Means(r: Option<Scalar>, lit: Literal) {
    && (r.None? <==> !DateTyped(lit) && IsNumberName(lit.value))
    && (r.Some? ==>
          && r.value.text == StripDropped(lit.value)
          && (r.value.DateOf? <==> DateTyped(lit) && IsCalendarDate(lit.value))
          && (r.value.Bare? <==> !DateTyped(lit) && (IsNumber(lit.value) || lit.value == "true" || lit.value == "false")))
  }

  lemma QuotedReads(s: string)
    ensures ReadQuoted(Quoted(s)) == Some(StripDropped(s))
    ensures Quoted(s)[0] == '\'' && !("date(" <= Quoted(s))
  {
    assert Quoted(s)[1..|Quoted(s)| - 1] == EscapeCypherString(s);
    ReadUndoesEscape(s);
    assert "date("[0] == 'd';
  }

  lemma DateCallReads(s: string)
    ensures ReadValue("date(" + Quoted(s) + ")") == Some(DateOf(StripDropped(s)))
  {
    var text := "date(" + Quoted(s) + ")";
    assert text[5..|text| - 1] == Quoted(s);
    assert text[..5] == "date(";
    QuotedReads(s);
  }

  lemma NumberIsClean(s: string)
    requires IsNumber(s)
    ensures Unquotable(s)
  {
    var sign, whole, fraction, exponent :| NumberParts(s, sign, whole, fraction, exponent);
    ExponentClean(exponent);
    CleanParts(sign + whole + fraction, exponent);
    CleanParts(sign + whole, fraction);
    CleanParts(sign, whole);
    assert s[0] == if sign != "" then sign[0] else if whole != "" then whole[0] else fraction[0];
  }

  /** Nothing in s needs an escape, and it is not taken for another kind of value. */
  predicate Unquotable(s: string) {
    Clean(s) && s != "" && (s[0] in "+-.inIN" || IsAsciiDigit(s[0]))
  }

  lemma NameIsClean(s: string)
    requires IsNumberName(s)
    ensures Unquotable(s)
  {
    var sign, name :| NameParts(s, sign, name);
    CleanParts(sign, name);
    assert s[0] == if sign == "" then name[0] else sign[0];
  }

  lemma ExponentClean(s: string)
    requires IsExponent(s)
    ensures Clean(s)
  {
    if s != "" {
      var sign, digits :| ExponentParts(s, sign, digits);
      CleanParts(sign, digits);
      CleanParts([s[0]], s[1..]);
      assert s == [s[0]] + s[1..];
    }
  }

  lemma CleanParts(a: string, b: string)
    ensures Clean(a + b) <==> Clean(a) && Clean(b)
  {
    assert forall i :: 0 <= i < |a| ==> (a + b)[i] == a[i];
    assert forall i :: 0 <= i < |b| ==> (a + b)[|a| + i] == b[i];
  }

  lemma NumberIsNoName(s: string)
    requires IsNumber(s)
    ensures !IsNumberName(s)
  {
    NumberExact(s);
    NumberNameExact(s);
    assert "inf"[0] == 'i' && "infinity"[0] == 'i' && "nan"[0] == 'n';
  }

  lemma NotQuoted(s: string)
    requires Unquotable(s)
    ensures s[0] != '\'' && !("date(" <= s)
  {
    assert "date("[0] == 'd';
  }

  lemma NotBoolean(s: string)
    requires Unquotable(s)
    ensures s != "true" && s != "false"
  {
    assert "true"[0] == 't' && "false"[0] == 'f';
  }

  lemma NoNameIsBoolean(s: string)
    requires s == "true" || s == "false"
    ensures !IsNumberName(s) && s[0] != '\'' && !("date(" <= s)
  {
    assert "true"[0] == 't' && "false"[0] == 'f' && "date("[0] == 'd';
    if IsNumberName(s) { NameIsClean(s); NotBoolean(s); }
  }

  /** The text written for any literal reads back as its value. */
  lemma ValueReads(lit: Literal)
    ensures Means(ReadValue(ValueRepr(lit)), lit)
  {
    var s := lit.value;
    FloatExact(s);
    DateExact(s);
    StripDroppedLength(s);
    if DateTyped(lit) && IsDate(s) {
      DateCallReads(s);
    } else if !DateTyped(lit) && IsNumericOrBool(s) {
      BareReads(s);
    } else {
      QuotedReads(s);
    }
  }

  lemma BareReads(s: string)
    requires IsNumber(s) || IsNumberName(s) || s == "true" || s == "false"
    ensures ReadValue(s) == (if IsNumberName(s) then None else Some(Bare(s))) && StripDropped(s) == s
  {
    StripDroppedLength(s);
    if IsNumber(s) {
      NumberIsClean(s);
      NumberIsNoName(s);
      NotQuoted(s);
    } else if IsNumberName(s) {
      NameIsClean(s);
      NotQuoted(s);
      NotBoolean(s);
    } else {
      NoNameIsBoolean(s);
    }
  }

  /** An item of a list: as a literal, but with no dates. */
  ghost predicate MeansItem(r: Option<Scalar>, t: Term)
    requires !t.Blank?
  {
    if t.Iri? then r == Some(Str(StripDropped(t.iri)))
    else
      && (r.None? <==> IsNumberName(t.literal.value))
      && (r.Some? ==>
            && r.value.text == StripDropped(t.literal.value) && !r.value.DateOf?
            && (r.value.Bare? <==> IsNumber(t.literal.value) || t.literal.value == "true" || t.literal.value == "false"))
  }

  lemma ItemReads(t: Term)
    requires !t.Blank?
    ensures MeansItem(ReadValue(ItemRepr(t)), t)
  {
    if t.Iri? {
      QuotedReads(t.iri);
    } else {
      ValueReads(Plain(t.literal.value));
    }
  }
}
