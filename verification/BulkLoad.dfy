/** Streaming N-Triples in batches, with a line to resume from (stream_ntriples in
    module/src/commands/rdf_bulk_insert.rs). Lines are numbered from 1. */
module BulkLoad {
  import opened Common
  import opened Rdf

  /** A line of the file, or the error reading it. */
  type Line = Result<string, string>

  type Parser = string -> Result<seq<Triple>, string>

  /** What process_batch answers to its n-th call: statements executed and failed, or an error. When the
      database refuses the combined query it still answers Ok, with nothing executed. */
  type Outcomes = nat -> Result<(nat, nat), string>

  /** One call of process_batch, with the line that was current when it was made. */
  datatype Call = Call(batch: seq<Triple>, startLine: nat, line: nat)

  datatype Stats = Stats(parsed: nat, executed: nat, errors: nat, batches: nat, lastSuccessfulLine: nat, failedLines: seq<nat>)

  // ----- what the lines hold

  function TrimStart(s: string): string {
    if s != "" && IsWhitespace(s[0]) then TrimStart(s[1..]) else s
  }

  function TrimEnd(s: string): string {
    if s != "" && IsWhitespace(s[|s| - 1]) then TrimEnd(s[..|s| - 1]) else s
  }

  function Trim(s: string): string {
    TrimEnd(TrimStart(s))
  }

  predicate IsContent(text: string) {
    text != "" && text[0] != '#'
  }

  function LineTriples(line: Line, parse: Parser): seq<Triple> {
    if line.Ok? && IsContent(Trim(line.value)) && parse(Trim(line.value)).Ok?
    then parse(Trim(line.value)).value else []
  }

  predicate Unparsable(line: Line, parse: Parser) {
    line.Ok? && IsContent(Trim(line.value)) && parse(Trim(line.value)).Err?
  }

  /** The triples of the parseable lines after SKIP, in order. */
  function Parsed(lines: seq<Line>, skip: nat, parse: Parser): seq<Triple> {
    if lines == [] then []
    else Parsed(lines[..|lines| - 1], skip, parse)
         + if |lines| <= skip then [] else LineTriples(lines[|lines| - 1], parse)
  }

  function FailedLines(lines: seq<Line>, skip: nat, parse: Parser): seq<nat> {
    if lines == [] then []
    else FailedLines(lines[..|lines| - 1], skip, parse)
         + if |lines| > skip && Unparsable(lines[|lines| - 1], parse) then [|lines|] else []
  }

  predicate Readable(lines: seq<Line>, skip: nat) {
    forall i :: skip <= i < |lines| ==> lines[i].Ok?
  }

  // ----- the same, from the text of a line alone

  predicate AllSpace(s: string) {
    forall i :: 0 <= i < |s| ==> IsWhitespace(s[i])
  }

  /** The line is text with white space around it. */
  predicate Padded(line: string, before: string, text: string, after: string) {
    && line == before + text + after && AllSpace(before) && AllSpace(after)
    && text != "" && !IsWhitespace(text[0]) && !IsWhitespace(text[|text| - 1])
  }

  /** A blank line and a comment contribute nothing, any other line what the parser makes of its text. */
  ghost predicate Yields(line: Line, parse: Parser, ts: seq<Triple>) {
    line.Ok? &&
    ((AllSpace(line.value) && ts == [])
     || exists before, text, after :: Padded(line.value, before, text, after)
          && ts == if text[0] == '#' || parse(text).Err? then [] else parse(text).value)
  }

  /** The line has a text that is no comment, and the parser rejects it. */
  ghost predicate Rejects(line: Line, parse: Parser) {
    line.Ok? && exists before, text, after :: Padded(line.value, before, text, after) && text[0] != '#' && parse(text).Err?
  }

  lemma {:induction false} TrimStartOver(before: string, rest: string)
    requires AllSpace(before) && (rest != "" ==> !IsWhitespace(rest[0]))
    ensures TrimStart(before + rest) == rest
  {
    if before == "" {
      assert before + rest == rest;
    } else {
      assert (before + rest)[1..] == before[1..] + rest;
      TrimStartOver(before[1..], rest);
    }
  }

  lemma {:induction false} TrimEndOver(text: string, after: string)
    requires AllSpace(after) && (text != "" ==> !IsWhitespace(text[|text| - 1]))
    ensures TrimEnd(text + after) == text
  {
    if after == "" {
      assert text + after == text;
    } else {
      assert (text + after)[..|text + after| - 1] == text + after[..|after| - 1];
      TrimEndOver(text, after[..|after| - 1]);
    }
  }

  lemma TrimPadded(line: string, before: string, text: string, after: string)
    requires Padded(line, before, text, after)
    ensures Trim(line) == text
  {
    assert line == before + (text + after);
    TrimStartOver(before, text + after);
    TrimEndOver(text, after);
  }

  lemma TrimBlank(line: string)
    requires AllSpace(line)
    ensures Trim(line) == ""
  {
    TrimStartOver(line, "");
    assert line + "" == line;
  }

  lemma {:induction false} TrimStartParts(s: string) returns (before: string)
    ensures s == before + TrimStart(s) && AllSpace(before)
    ensures TrimStart(s) != "" ==> !IsWhitespace(TrimStart(s)[0])
  {
    before := "";
    if s != "" && IsWhitespace(s[0]) {
      before := TrimStartParts(s[1..]);
      before := [s[0]] + before;
    }
  }

  lemma {:induction false} TrimEndParts(s: string) returns (after: string)
    ensures s == TrimEnd(s) + after && AllSpace(after)
    ensures TrimEnd(s) != "" ==> !IsWhitespace(TrimEnd(s)[|TrimEnd(s)| - 1]) && TrimEnd(s)[0] == s[0]
  {
    after := "";
    if s != "" && IsWhitespace(s[|s| - 1]) {
      after := TrimEndParts(s[..|s| - 1]);
      after := after + [s[|s| - 1]];
    }
  }

  /** Every line is blank or a padded text. */
  lemma TrimParts(line: string) returns (before: string, after: string)
    ensures Trim(line) == "" ==> AllSpace(line)
    ensures Trim(line) != "" ==> Padded(line, before, Trim(line), after)
  {
    before := TrimStartParts(line);
    after := TrimEndParts(TrimStart(line));
    assert line == before + (Trim(line) + after);
  }

  /** LineTriples and Unparsable are what the text of the line says. */
  lemma LineExact(line: Line, parse: Parser, ts: seq<Triple>)
    requires line.Ok?
    ensures Yields(line, parse, ts) <==> ts == LineTriples(line, parse)
    ensures Rejects(line, parse) <==> Unparsable(line, parse)
  {
    var before, after := TrimParts(line.value);
    forall b, text, a | Padded(line.value, b, text, a) ensures text == Trim(line.value) {
      TrimPadded(line.value, b, text, a);
    }
    if AllSpace(line.value) { TrimBlank(line.value); }
  }

  /** parts are what the lines after SKIP contribute, one by one. */
  ghost predicate Contributions(parts: seq<seq<Triple>>, lines: seq<Line>, skip: nat, parse: Parser) {
    && |parts| == (if |lines| <= skip then 0 else |lines| - skip)
    && forall i :: 0 <= i < |parts| ==> Yields(lines[skip + i], parse, parts[i])
  }

  function Joined(parts: seq<seq<Triple>>): seq<Triple> {
    if parts == [] then [] else Joined(parts[..|parts| - 1]) + parts[|parts| - 1]
  }

  lemma OneMoreContribution(parts: seq<seq<Triple>>, lines: seq<Line>, skip: nat, parse: Parser)
    requires |lines| > skip && Contributions(parts, lines[..|lines| - 1], skip, parse) && lines[|lines| - 1].Ok?
    ensures var ts := LineTriples(lines[|lines| - 1], parse);
      Contributions(parts + [ts], lines, skip, parse) && Joined(parts + [ts]) == Joined(parts) + ts
  {
    var n := |lines| - 1;
    var ts := LineTriples(lines[n], parse);
    LineExact(lines[n], parse, ts);
    assert (parts + [ts])[..|parts|] == parts;
    forall i | 0 <= i < |parts + [ts]| ensures Yields(lines[skip + i], parse, (parts + [ts])[i]) {
      if i < |parts| { assert lines[..n][skip + i] == lines[skip + i]; }
    }
  }

  /** The triples read are the contributions of the lines after SKIP, in order. */
  lemma {:induction false} ParsedIsContributions(lines: seq<Line>, skip: nat, parse: Parser) returns (parts: seq<seq<Triple>>)
    requires Readable(lines, skip)
    ensures Contributions(parts, lines, skip, parse) && Parsed(lines, skip, parse) == Joined(parts)
  {
    parts := [];
    if |lines| > skip {
      var before := lines[..|lines| - 1];
      assert Readable(before, skip);
      parts := ParsedIsContributions(before, skip, parse);
      OneMoreContribution(parts, lines, skip, parse);
      parts := parts + [LineTriples(lines[|lines| - 1], parse)];
    } else {
      NothingBeforeSkip(lines, skip, parse);
    }
  }

  ghost predicate RejectedLine(lines: seq<Line>, skip: nat, parse: Parser, n: nat) {
    skip < n <= |lines| && Rejects(lines[n - 1], parse)
  }

  /** The failed lines, in order: those after SKIP whose text the parser rejects. */
  ghost predicate ExactlyRejected(failed: seq<nat>, lines: seq<Line>, skip: nat, parse: Parser) {
    && (forall n :: n in failed <==> RejectedLine(lines, skip, parse, n))
    && (forall i, j :: 0 <= i < j < |failed| ==> failed[i] < failed[j])
  }

  lemma {:induction false} FailedAreRejected(lines: seq<Line>, skip: nat, parse: Parser)
    requires Readable(lines, skip)
    ensures ExactlyRejected(FailedLines(lines, skip, parse), lines, skip, parse)
  {
    if lines != [] {
      var n := |lines| - 1;
      assert Readable(lines[..n], skip);
      FailedAreRejected(lines[..n], skip, parse);
      if n >= skip { LineExact(lines[n], parse, []); }
      forall m: nat ensures RejectedLine(lines, skip, parse, m)
        <==> RejectedLine(lines[..n], skip, parse, m) || (m == n + 1 && n >= skip && Unparsable(lines[n], parse))
      {
      }
      var before := FailedLines(lines[..n], skip, parse);
      forall i | 0 <= i < |before| ensures before[i] <= n {
        assert before[i] in before;
      }
    }
  }

  // ----- what the calls add up to

  function Submitted(calls: seq<Call>): seq<Triple> {
    if calls == [] then [] else Submitted(calls[..|calls| - 1]) + calls[|calls| - 1].batch
  }

  datatype Tally = Tally(batches: nat, executed: nat, errors: nat, lastLine: nat)

  function Count(t: Tally, o: Result<(nat, nat), string>, size: nat, line: nat): Tally {
    if o.Ok? then Tally(t.batches + 1, t.executed + o.value.0, t.errors + o.value.1, line)
    else t.(errors := t.errors + size)
  }

  function TallyOf(calls: seq<Call>, outcome: Outcomes): Tally {
    if calls == [] then Tally(0, 0, 0, 0)
    else Count(TallyOf(calls[..|calls| - 1], outcome), outcome(|calls| - 1), |calls[|calls| - 1].batch|, calls[|calls| - 1].line)
  }

  function Limit(batchSize: nat): nat { if batchSize == 0 then 1 else batchSize }

  /** Full batches, each called at a line past SKIP, line numbers never falling. */
  ghost predicate FullBatches(calls: seq<Call>, batchSize: nat, skip: nat, line: nat) {
    && (forall i :: 0 <= i < |calls| ==> |calls[i].batch| == Limit(batchSize) && skip < calls[i].line <= line)
    && (forall i, j :: 0 <= i < j < |calls| ==> calls[i].line <= calls[j].line)
  }

  /** All but the last batch are full, and the last is not empty. */
  ghost predicate Batched(calls: seq<Call>, batchSize: nat) {
    && (forall i :: 0 <= i < |calls| - 1 ==> |calls[i].batch| == Limit(batchSize))
    && (calls != [] ==> 0 < |calls[|calls| - 1].batch| <= Limit(batchSize))
  }

  /** Every batch ends with its line: what was submitted by then is all that was read by then. */
  ghost predicate EndsWithLine(calls: seq<Call>, lines: seq<Line>, skip: nat, parse: Parser) {
    forall i :: 0 <= i < |calls| ==>
      calls[i].line <= |lines| && Submitted(calls[..i + 1]) == Parsed(lines[..calls[i].line], skip, parse)
  }

  /** Whatever the lines hold, a batch ends inside its line: what was submitted by then starts what was
      read up to the end of that line. */
  ghost predicate EndsInLine(calls: seq<Call>, lines: seq<Line>, skip: nat, parse: Parser) {
    forall i :: 0 <= i < |calls| ==>
      calls[i].line <= |lines| && Submitted(calls[..i + 1]) <= Parsed(lines[..calls[i].line], skip, parse)
  }

  predicate OnePerLine(lines: seq<Line>, parse: Parser) {
    forall i :: 0 <= i < |lines| ==> |LineTriples(lines[i], parse)| <= 1
  }

  lemma SubmittedSnoc(calls: seq<Call>, c: Call)
    ensures Submitted(calls + [c]) == Submitted(calls) + c.batch
  {
    assert (calls + [c])[..|calls|] == calls;
  }

  lemma TallySnoc(calls: seq<Call>, c: Call, outcome: Outcomes)
    ensures TallyOf(calls + [c], outcome) == Count(TallyOf(calls, outcome), outcome(|calls|), |c.batch|, c.line)
  {
    assert (calls + [c])[..|calls|] == calls;
  }

  lemma EndsSnoc(calls: seq<Call>, c: Call, lines: seq<Line>, skip: nat, parse: Parser)
    requires EndsWithLine(calls, lines, skip, parse) && c.line <= |lines|
    requires Submitted(calls) + c.batch == Parsed(lines[..c.line], skip, parse)
    ensures EndsWithLine(calls + [c], lines, skip, parse)
  {
    SubmittedSnoc(calls, c);
    var all := calls + [c];
    forall i | 0 <= i < |all|
      ensures all[i].line <= |lines| && Submitted(all[..i + 1]) == Parsed(lines[..all[i].line], skip, parse)
    {
      if i < |calls| {
        assert all[..i + 1] == calls[..i + 1];
      } else {
        assert all[..i + 1] == all;
      }
    }
  }

  lemma EndsInSnoc(calls: seq<Call>, c: Call, lines: seq<Line>, skip: nat, parse: Parser)
    requires EndsInLine(calls, lines, skip, parse) && c.line <= |lines|
    requires Submitted(calls) + c.batch <= Parsed(lines[..c.line], skip, parse)
    ensures EndsInLine(calls + [c], lines, skip, parse)
  {
    SubmittedSnoc(calls, c);
    var all := calls + [c];
    forall i | 0 <= i < |all|
      ensures all[i].line <= |lines| && Submitted(all[..i + 1]) <= Parsed(lines[..all[i].line], skip, parse)
    {
      if i < |calls| {
        assert all[..i + 1] == calls[..i + 1];
      } else {
        assert all[..i + 1] == all;
      }
    }
  }

  // ----- the loader as a function of what it has read

  datatype Progress = Progress(calls: seq<Call>, batch: seq<Triple>, startLine: nat, tally: Tally, parsed: nat, failed: seq<nat>)

  function Submit(p: Progress, line: nat, outcome: Outcomes): Progress {
    Progress(p.calls + [Call(p.batch, p.startLine, line)], [], line + 1,
             Count(p.tally, outcome(|p.calls|), |p.batch|, line), p.parsed, p.failed)
  }

  function Push(p: Progress, t: Triple, line: nat, batchSize: nat, outcome: Outcomes): Progress {
    var q := p.(batch := p.batch + [t], parsed := p.parsed + 1);
    if |q.batch| >= batchSize then Submit(q, line, outcome) else q
  }

  function PushAll(p: Progress, ts: seq<Triple>, line: nat, batchSize: nat, outcome: Outcomes): Progress {
    if ts == [] then p
    else Push(PushAll(p, ts[..|ts| - 1], line, batchSize, outcome), ts[|ts| - 1], line, batchSize, outcome)
  }

  function ReadLine(p: Progress, line: Line, number: nat, skip: nat, batchSize: nat, parse: Parser, outcome: Outcomes): Progress {
    if number <= skip then p
    else if Unparsable(line, parse) then p.(failed := p.failed + [number])
    else PushAll(p, LineTriples(line, parse), number, batchSize, outcome)
  }

  function Load(lines: seq<Line>, skip: nat, batchSize: nat, parse: Parser, outcome: Outcomes): Progress {
    if lines == [] then Progress([], [], skip, Tally(0, 0, 0, 0), 0, [])
    else ReadLine(Load(lines[..|lines| - 1], skip, batchSize, parse, outcome), lines[|lines| - 1], |lines|,
                  skip, batchSize, parse, outcome)
  }

  function Finish(p: Progress, line: nat, outcome: Outcomes): Progress {
    if p.batch == [] then p else Submit(p, line, outcome)
  }

  // ----- what it keeps

  /** Where the loader stands after n lines of which it has taken the triples so far. */
  ghost predicate Loading(p: Progress, sofar: seq<Triple>, n: nat, skip: nat, batchSize: nat, outcome: Outcomes) {
    && Submitted(p.calls) + p.batch == sofar && p.parsed == |sofar|
    && FullBatches(p.calls, batchSize, skip, n) && |p.batch| < Limit(batchSize)
    && p.tally == TallyOf(p.calls, outcome)
  }

  lemma PushKeeps(p: Progress, sofar: seq<Triple>, t: Triple, n: nat, skip: nat, batchSize: nat, outcome: Outcomes)
    requires Loading(p, sofar, n, skip, batchSize, outcome) && skip < n
    ensures Loading(Push(p, t, n, batchSize, outcome), sofar + [t], n, skip, batchSize, outcome)
  {
    var q := p.(batch := p.batch + [t], parsed := p.parsed + 1);
    assert Submitted(p.calls) + q.batch == sofar + [t];
    if |q.batch| >= batchSize {
      var full := Call(q.batch, p.startLine, n);
      SubmittedSnoc(p.calls, full);
      TallySnoc(p.calls, full, outcome);
      assert Submitted(p.calls + [full]) + [] == Submitted(p.calls + [full]);
    }
  }

  lemma {:induction false} PushAllKeeps(p: Progress, sofar: seq<Triple>, ts: seq<Triple>, n: nat, skip: nat, batchSize: nat, outcome: Outcomes)
    requires Loading(p, sofar, n, skip, batchSize, outcome) && skip < n
    ensures Loading(PushAll(p, ts, n, batchSize, outcome), sofar + ts, n, skip, batchSize, outcome)
    ensures PushAll(p, ts, n, batchSize, outcome).failed == p.failed
  {
    if ts == [] {
      assert sofar + [] == sofar;
    } else {
      var before, t := ts[..|ts| - 1], ts[|ts| - 1];
      PushAllKeeps(p, sofar, before, n, skip, batchSize, outcome);
      PushKeeps(PushAll(p, before, n, batchSize, outcome), sofar + before, t, n, skip, batchSize, outcome);
      SplitLast(ts);
      assert sofar + before + [t] == sofar + ts;
    }
  }

  lemma {:induction false} LoadKeeps(lines: seq<Line>, skip: nat, batchSize: nat, parse: Parser, outcome: Outcomes)
    ensures Loading(Load(lines, skip, batchSize, parse, outcome), Parsed(lines, skip, parse), |lines|, skip, batchSize, outcome)
    ensures Load(lines, skip, batchSize, parse, outcome).failed == FailedLines(lines, skip, parse)
    ensures |lines| <= skip ==> Load(lines, skip, batchSize, parse, outcome).batch == []
  {
    if lines != [] {
      var before, line, n := lines[..|lines| - 1], lines[|lines| - 1], |lines|;
      LoadKeeps(before, skip, batchSize, parse, outcome);
      var p, sofar := Load(before, skip, batchSize, parse, outcome), Parsed(before, skip, parse);
      assert Loading(p, sofar, n, skip, batchSize, outcome);
      assert sofar + [] == sofar;
      if n > skip && !Unparsable(line, parse) {
        PushAllKeeps(p, sofar, LineTriples(line, parse), n, skip, batchSize, outcome);
      }
    }
  }

  lemma PushOneEnds(p: Progress, ts: seq<Triple>, n: nat, batchSize: nat, outcome: Outcomes, lines: seq<Line>, skip: nat, parse: Parser)
    requires |ts| <= 1 && n <= |lines| && EndsWithLine(p.calls, lines, skip, parse)
    requires Submitted(p.calls) + p.batch + ts == Parsed(lines[..n], skip, parse)
    ensures EndsWithLine(PushAll(p, ts, n, batchSize, outcome).calls, lines, skip, parse)
  {
    if |ts| == 1 {
      assert ts[..0] == [] && ts == [ts[0]];
      var batch := p.batch + [ts[0]];
      assert Submitted(p.calls) + batch == Submitted(p.calls) + p.batch + ts;
      EndsSnoc(p.calls, Call(batch, p.startLine, n), lines, skip, parse);
    }
  }

  lemma LoadSnoc(all: seq<Line>, n: nat, skip: nat, batchSize: nat, parse: Parser, outcome: Outcomes)
    requires 0 < n <= |all|
    ensures Load(all[..n], skip, batchSize, parse, outcome)
         == ReadLine(Load(all[..n - 1], skip, batchSize, parse, outcome), all[n - 1], n, skip, batchSize, parse, outcome)
    ensures n > skip ==> Parsed(all[..n], skip, parse) == Parsed(all[..n - 1], skip, parse) + LineTriples(all[n - 1], parse)
  {
    assert all[..n][..n - 1] == all[..n - 1] && all[..n][n - 1] == all[n - 1];
  }

  lemma LineEnds(p: Progress, all: seq<Line>, n: nat, skip: nat, batchSize: nat, parse: Parser, outcome: Outcomes)
    requires 0 < n <= |all| && OnePerLine(all, parse) && EndsWithLine(p.calls, all, skip, parse)
    requires n > skip ==> Submitted(p.calls) + p.batch + LineTriples(all[n - 1], parse) == Parsed(all[..n], skip, parse)
    ensures EndsWithLine(ReadLine(p, all[n - 1], n, skip, batchSize, parse, outcome).calls, all, skip, parse)
  {
    if n > skip && !Unparsable(all[n - 1], parse) {
      PushOneEnds(p, LineTriples(all[n - 1], parse), n, batchSize, outcome, all, skip, parse);
    }
  }

  lemma {:induction false} LoadEnds(all: seq<Line>, n: nat, skip: nat, batchSize: nat, parse: Parser, outcome: Outcomes)
    requires n <= |all| && OnePerLine(all, parse)
    ensures EndsWithLine(Load(all[..n], skip, batchSize, parse, outcome).calls, all, skip, parse)
  {
    if n > 0 {
      LoadEnds(all, n - 1, skip, batchSize, parse, outcome);
      LoadKeeps(all[..n - 1], skip, batchSize, parse, outcome);
      LoadSnoc(all, n, skip, batchSize, parse, outcome);
      LineEnds(Load(all[..n - 1], skip, batchSize, parse, outcome), all, n, skip, batchSize, parse, outcome);
    }
  }

  lemma Starts<T>(a: seq<T>, b: seq<T>, c: seq<T>)
    requires a + b <= c
    ensures a <= c
  {
    assert a <= a + b;
  }

  lemma PushEndsIn(p: Progress, t: Triple, n: nat, batchSize: nat, outcome: Outcomes, lines: seq<Line>, skip: nat, parse: Parser)
    requires n <= |lines| && EndsInLine(p.calls, lines, skip, parse)
    requires Submitted(p.calls) + (p.batch + [t]) <= Parsed(lines[..n], skip, parse)
    ensures var q := Push(p, t, n, batchSize, outcome);
      EndsInLine(q.calls, lines, skip, parse) && Submitted(q.calls) + q.batch == Submitted(p.calls) + (p.batch + [t])
  {
    var batch := p.batch + [t];
    if |batch| >= batchSize {
      EndsInSnoc(p.calls, Call(batch, p.startLine, n), lines, skip, parse);
      SubmittedSnoc(p.calls, Call(batch, p.startLine, n));
      assert Submitted(p.calls) + batch + [] == Submitted(p.calls) + batch;
    }
  }

  lemma {:induction false} PushAllEndsIn(p: Progress, ts: seq<Triple>, n: nat, batchSize: nat, outcome: Outcomes,
                                         lines: seq<Line>, skip: nat, parse: Parser)
    requires n <= |lines| && EndsInLine(p.calls, lines, skip, parse)
    requires Submitted(p.calls) + p.batch + ts <= Parsed(lines[..n], skip, parse)
    ensures var q := PushAll(p, ts, n, batchSize, outcome);
      EndsInLine(q.calls, lines, skip, parse) && Submitted(q.calls) + q.batch == Submitted(p.calls) + p.batch + ts
  {
    var sofar := Submitted(p.calls) + p.batch;
    if ts == [] {
      assert sofar + [] == sofar;
    } else {
      var before, t := ts[..|ts| - 1], ts[|ts| - 1];
      SplitLast(ts);
      Associate(sofar, before, [t]);
      Starts(sofar + before, [t], Parsed(lines[..n], skip, parse));
      PushAllEndsIn(p, before, n, batchSize, outcome, lines, skip, parse);
      var q := PushAll(p, before, n, batchSize, outcome);
      Associate(Submitted(q.calls), q.batch, [t]);
      PushEndsIn(q, t, n, batchSize, outcome, lines, skip, parse);
    }
  }

  lemma LineEndsIn(p: Progress, all: seq<Line>, n: nat, skip: nat, batchSize: nat, parse: Parser, outcome: Outcomes)
    requires 0 < n <= |all| && EndsInLine(p.calls, all, skip, parse)
    requires n > skip ==> Submitted(p.calls) + p.batch + LineTriples(all[n - 1], parse) == Parsed(all[..n], skip, parse)
    ensures EndsInLine(ReadLine(p, all[n - 1], n, skip, batchSize, parse, outcome).calls, all, skip, parse)
  {
    if n > skip && !Unparsable(all[n - 1], parse) {
      PushAllEndsIn(p, LineTriples(all[n - 1], parse), n, batchSize, outcome, all, skip, parse);
    }
  }

  lemma {:induction false} LoadEndsIn(all: seq<Line>, n: nat, skip: nat, batchSize: nat, parse: Parser, outcome: Outcomes)
    requires n <= |all|
    ensures EndsInLine(Load(all[..n], skip, batchSize, parse, outcome).calls, all, skip, parse)
  {
    if n > 0 {
      LoadEndsIn(all, n - 1, skip, batchSize, parse, outcome);
      LoadKeeps(all[..n - 1], skip, batchSize, parse, outcome);
      LoadSnoc(all, n, skip, batchSize, parse, outcome);
      LineEndsIn(Load(all[..n - 1], skip, batchSize, parse, outcome), all, n, skip, batchSize, parse, outcome);
    }
  }

  lemma FinishEndsIn(lines: seq<Line>, skip: nat, batchSize: nat, parse: Parser, outcome: Outcomes)
    ensures EndsInLine(Finish(Load(lines, skip, batchSize, parse, outcome), |lines|, outcome).calls, lines, skip, parse)
  {
    var p := Load(lines, skip, batchSize, parse, outcome);
    assert lines[..|lines|] == lines;
    LoadEndsIn(lines, |lines|, skip, batchSize, parse, outcome);
    LoadKeeps(lines, skip, batchSize, parse, outcome);
    if p.batch != [] { EndsInSnoc(p.calls, Call(p.batch, p.startLine, |lines|), lines, skip, parse); }
  }

  /** The batches, concatenated, are the triples read; all but the last are full; the statistics
      are the tally of the calls; and with one triple a line, every batch ends with its line. */
  lemma FinishedLoad(lines: seq<Line>, skip: nat, batchSize: nat, parse: Parser, outcome: Outcomes)
    ensures var p := Finish(Load(lines, skip, batchSize, parse, outcome), |lines|, outcome);
      && Submitted(p.calls) == Parsed(lines, skip, parse) && p.parsed == |Parsed(lines, skip, parse)|
      && Batched(p.calls, batchSize) && p.failed == FailedLines(lines, skip, parse)
      && p.tally == TallyOf(p.calls, outcome)
      && (forall i :: 0 <= i < |p.calls| ==> skip < p.calls[i].line <= |lines|)
      && (OnePerLine(lines, parse) ==> EndsWithLine(p.calls, lines, skip, parse))
  {
    var p := Load(lines, skip, batchSize, parse, outcome);
    LoadKeeps(lines, skip, batchSize, parse, outcome);
    assert lines[..|lines|] == lines;
    FinishKeeps(p, Parsed(lines, skip, parse), |lines|, skip, batchSize, outcome);
    if OnePerLine(lines, parse) {
      LoadEnds(lines, |lines|, skip, batchSize, parse, outcome);
      if p.batch != [] {
        EndsSnoc(p.calls, Call(p.batch, p.startLine, |lines|), lines, skip, parse);
      }
    }
  }

  lemma FinishKeeps(p: Progress, sofar: seq<Triple>, n: nat, skip: nat, batchSize: nat, outcome: Outcomes)
    requires Loading(p, sofar, n, skip, batchSize, outcome) && (p.batch != [] ==> skip < n)
    ensures var q := Finish(p, n, outcome);
      && Submitted(q.calls) == sofar && q.parsed == |sofar| && Batched(q.calls, batchSize)
      && q.tally == TallyOf(q.calls, outcome) && q.failed == p.failed
      && forall i :: 0 <= i < |q.calls| ==> skip < q.calls[i].line <= n
  {
    if p.batch == [] {
      assert Submitted(p.calls) + [] == Submitted(p.calls);
    } else {
      SubmittedSnoc(p.calls, Call(p.batch, p.startLine, n));
      TallySnoc(p.calls, Call(p.batch, p.startLine, n), outcome);
    }
  }

  // ----- where batches start

  /** The first batch is given SKIP as its start line, every other the line after the batch before. */
  ghost predicate StartsInTurn(calls: seq<Call>, skip: nat) {
    && (calls != [] ==> calls[0].startLine == skip)
    && forall i :: 0 < i < |calls| ==> calls[i].startLine == calls[i - 1].line + 1
  }

  ghost predicate StartKept(p: Progress, skip: nat) {
    StartsInTurn(p.calls, skip) && p.startLine == if p.calls == [] then skip else p.calls[|p.calls| - 1].line + 1
  }

  lemma SubmitStarts(p: Progress, line: nat, outcome: Outcomes, skip: nat)
    requires StartKept(p, skip)
    ensures StartKept(Submit(p, line, outcome), skip)
  {
    var calls := Submit(p, line, outcome).calls;
    assert forall i :: 0 <= i < |p.calls| ==> calls[i] == p.calls[i];
  }

  lemma {:induction false} PushAllStarts(p: Progress, ts: seq<Triple>, n: nat, batchSize: nat, outcome: Outcomes, skip: nat)
    requires StartKept(p, skip)
    ensures StartKept(PushAll(p, ts, n, batchSize, outcome), skip)
  {
    if ts != [] {
      var before, t := PushAll(p, ts[..|ts| - 1], n, batchSize, outcome), ts[|ts| - 1];
      PushAllStarts(p, ts[..|ts| - 1], n, batchSize, outcome, skip);
      SubmitStarts(before.(batch := before.batch + [t], parsed := before.parsed + 1), n, outcome, skip);
    }
  }

  lemma {:induction false} LoadStarts(lines: seq<Line>, skip: nat, batchSize: nat, parse: Parser, outcome: Outcomes)
    ensures StartKept(Load(lines, skip, batchSize, parse, outcome), skip)
  {
    if lines != [] {
      var before, line := lines[..|lines| - 1], lines[|lines| - 1];
      LoadStarts(before, skip, batchSize, parse, outcome);
      PushAllStarts(Load(before, skip, batchSize, parse, outcome), LineTriples(line, parse), |lines|, batchSize, outcome, skip);
    }
  }

  lemma FinishStarts(lines: seq<Line>, skip: nat, batchSize: nat, parse: Parser, outcome: Outcomes)
    ensures StartsInTurn(Finish(Load(lines, skip, batchSize, parse, outcome), |lines|, outcome).calls, skip)
  {
    var p := Load(lines, skip, batchSize, parse, outcome);
    LoadStarts(lines, skip, batchSize, parse, outcome);
    SubmitStarts(p, |lines|, outcome, skip);
  }

  /** With one triple a line, each batch is what the lines hold from the end of the batch before to its
      own: its start line is the first of them, except for the first batch, where it is one less. */
  lemma BatchIsItsLines(calls: seq<Call>, lines: seq<Line>, skip: nat, parse: Parser, i: nat)
    requires EndsWithLine(calls, lines, skip, parse) && StartsInTurn(calls, skip) && i < |calls|
    requires i > 0 ==> skip <= calls[i - 1].line <= calls[i].line
    requires skip <= calls[i].line
    ensures calls[i].batch == Parsed(lines[..calls[i].line], if i == 0 then calls[i].startLine else calls[i].startLine - 1, parse)
  {
    var upto := lines[..calls[i].line];
    SubmittedSnoc(calls[..i], calls[i]);
    assert calls[..i + 1] == calls[..i] + [calls[i]];
    if i == 0 {
      assert calls[..0] == [] && Submitted(calls[..0]) == [];
      assert Submitted(calls[..0 + 1]) == [] + calls[0].batch == calls[0].batch;
      assert calls[0].startLine == skip;
    } else {
      var m := calls[i - 1].line;
      assert calls[..i - 1 + 1] == calls[..i] && upto[..m] == lines[..m];
      ParsedSplit(upto, skip, m, parse);
      assert Submitted(calls[..i]) == Parsed(lines[..m], skip, parse);
      SamePrefix(Parsed(lines[..m], skip, parse), calls[i].batch, Parsed(upto, m, parse));
      assert calls[i].startLine == m + 1;
    }
  }

  lemma SamePrefix<T>(a: seq<T>, b: seq<T>, c: seq<T>)
    requires a + b == a + c
    ensures b == c
  {
    assert (a + b)[|a|..] == b && (a + c)[|a|..] == c;
  }

  /** The calls of a finished load: the batches are the triples read, in order, all but the last full; each was
      made at a line after SKIP and ends inside it. */
  ghost predicate Loaded(calls: seq<Call>, lines: seq<Line>, skip: nat, batchSize: nat, parse: Parser) {
    && Submitted(calls) == Parsed(lines, skip, parse) && Batched(calls, batchSize)
    && EndsInLine(calls, lines, skip, parse) && forall i :: 0 <= i < |calls| ==> skip < calls[i].line <= |lines|
  }

  lemma FinishedIsLoaded(lines: seq<Line>, skip: nat, batchSize: nat, parse: Parser, outcome: Outcomes)
    ensures var calls := Finish(Load(lines, skip, batchSize, parse, outcome), |lines|, outcome).calls;
      Loaded(calls, lines, skip, batchSize, parse) && StartsInTurn(calls, skip)
      && (OnePerLine(lines, parse) ==> EndsWithLine(calls, lines, skip, parse))
  {
    FinishedLoad(lines, skip, batchSize, parse, outcome);
    FinishStarts(lines, skip, batchSize, parse, outcome);
    FinishEndsIn(lines, skip, batchSize, parse, outcome);
  }

  /** The statistics of a finished load. */
  function StatsOf(p: Progress): Stats {
    Stats(p.parsed, p.tally.executed, p.tally.errors + |p.failed|, p.tally.batches, p.tally.lastLine, p.failed)
  }

  lemma FinishedStats(lines: seq<Line>, skip: nat, batchSize: nat, parse: Parser, outcome: Outcomes)
    ensures var p := Finish(Load(lines, skip, batchSize, parse, outcome), |lines|, outcome);
      var t := TallyOf(p.calls, outcome);
      StatsOf(p) == Stats(|Parsed(lines, skip, parse)|, t.executed, t.errors + |FailedLines(lines, skip, parse)|,
                          t.batches, t.lastLine, FailedLines(lines, skip, parse))
  {
    FinishedLoad(lines, skip, batchSize, parse, outcome);
  }

  // ----- the loader itself

  method PushTriples(p0: Progress, triples: seq<Triple>, lineNumber: nat, batchSize: nat, outcome: Outcomes) returns (p: Progress)
    ensures p == PushAll(p0, triples, lineNumber, batchSize, outcome)
  {
    p := p0;
    for k := 0 to |triples|
      invariant p == PushAll(p0, triples[..k], lineNumber, batchSize, outcome)
    {
      assert triples[..k + 1][..k] == triples[..k];
      p := p.(batch := p.batch + [triples[k]], parsed := p.parsed + 1);
      if |p.batch| >= batchSize {
        p := Submit(p, lineNumber, outcome);
      }
    }
    assert triples[..|triples|] == triples;
  }

  /** Line n is the first after SKIP that could not be read, for that reason. */
  ghost predicate Unread(lines: seq<Line>, skip: nat, n: int, error: string) {
    skip <= n < |lines| && lines[n] == Err(error) && Readable(lines[..n], skip)
  }

  lemma ReadableSnoc(lines: seq<Line>, n: nat, skip: nat)
    requires n < |lines|
    ensures Readable(lines[..n + 1], skip) <==> Readable(lines[..n], skip) && (n >= skip ==> lines[n].Ok?)
    ensures n >= skip && lines[n].Err? ==> !Readable(lines, skip)
  {
    assert forall i :: 0 <= i <= n ==> lines[..n + 1][i] == lines[i];
    assert forall i :: 0 <= i < n ==> lines[..n][i] == lines[i];
  }

  method ReadLines(lines: seq<Line>, skip: nat, batchSize: nat, parse: Parser, outcome: Outcomes)
    returns (p: Progress, error: Option<string>)
    ensures error.None? <==> Readable(lines, skip)
    ensures error.None? ==> p == Load(lines, skip, batchSize, parse, outcome)
    ensures error.Some? ==>
      exists n :: Unread(lines, skip, n, error.value) && p == Load(lines[..n], skip, batchSize, parse, outcome)
  {
    p, error := Progress([], [], skip, Tally(0, 0, 0, 0), 0, []), None;
    for n := 0 to |lines|
      invariant Readable(lines[..n], skip)
      invariant p == Load(lines[..n], skip, batchSize, parse, outcome)
    {
      var lineNumber := n + 1;
      LoadSnoc(lines, n + 1, skip, batchSize, parse, outcome);
      ReadableSnoc(lines, n, skip);
      if lineNumber <= skip { continue; }
      if lines[n].Err? {
        assert Unread(lines, skip, n, lines[n].error);
        return p, Some(lines[n].error);
      }
      var trimmed := Trim(lines[n].value);
      if !IsContent(trimmed) { continue; }
      match parse(trimmed) {
        case Ok(triples) => p := PushTriples(p, triples, lineNumber, batchSize, outcome);
        case Err(_) => p := p.(failed := p.failed + [lineNumber]);
      }
    }
    assert lines[..|lines|] == lines;
  }

  /** The batches are the contributions of the lines after SKIP, counted right, and the failed lines are the rejected ones. */
  ghost predicate ReadAsWritten(calls: seq<Call>, stats: Stats, lines: seq<Line>, skip: nat, parse: Parser) {
    && ExactlyRejected(stats.failedLines, lines, skip, parse)
    && exists parts :: Contributions(parts, lines, skip, parse) && Submitted(calls) == Joined(parts) && stats.parsed == |Joined(parts)|
  }

  /** Only triples from before the first line that could not be read have been submitted. */
  ghost predicate StoppedAtUnread(calls: seq<Call>, error: string, lines: seq<Line>, skip: nat, parse: Parser) {
    exists n :: Unread(lines, skip, n, error) && Submitted(calls) <= Parsed(lines[..n], skip, parse)
  }

  lemma UnreadStops(p: Progress, error: string, lines: seq<Line>, skip: nat, batchSize: nat, parse: Parser, outcome: Outcomes)
    requires exists n :: Unread(lines, skip, n, error) && p == Load(lines[..n], skip, batchSize, parse, outcome)
    ensures StoppedAtUnread(p.calls, error, lines, skip, parse)
  {
    var n :| Unread(lines, skip, n, error) && p == Load(lines[..n], skip, batchSize, parse, outcome);
    LoadKeeps(lines[..n], skip, batchSize, parse, outcome);
  }

  lemma FinishedAsWritten(lines: seq<Line>, skip: nat, batchSize: nat, parse: Parser, outcome: Outcomes)
    requires Readable(lines, skip)
    ensures var p := Finish(Load(lines, skip, batchSize, parse, outcome), |lines|, outcome);
      ReadAsWritten(p.calls, StatsOf(p), lines, skip, parse)
  {
    FinishedLoad(lines, skip, batchSize, parse, outcome);
    FailedAreRejected(lines, skip, parse);
    var parts := ParsedIsContributions(lines, skip, parse);
  }

  method StreamNTriples(lines: seq<Line>, skip: nat, batchSize: nat, parse: Parser, outcome: Outcomes)
    returns (r: Result<Stats, string>, calls: seq<Call>)
    ensures r.Ok? <==> Readable(lines, skip)
    ensures r.Err? ==> StoppedAtUnread(calls, r.error, lines, skip, parse)
    ensures r.Ok? ==> ReadAsWritten(calls, r.value, lines, skip, parse)
    ensures r.Ok? ==> Loaded(calls, lines, skip, batchSize, parse) && StartsInTurn(calls, skip)
    ensures r.Ok? ==>
      var t := TallyOf(calls, outcome);
      r.value == Stats(|Parsed(lines, skip, parse)|, t.executed, t.errors + |FailedLines(lines, skip, parse)|,
                       t.batches, t.lastLine, FailedLines(lines, skip, parse))
    ensures r.Ok? && OnePerLine(lines, parse) ==> EndsWithLine(calls, lines, skip, parse)
  {
    var p, error := ReadLines(lines, skip, batchSize, parse, outcome);
    if error.Some? {
      UnreadStops(p, error.value, lines, skip, batchSize, parse, outcome);
      return Err(error.value), p.calls;
    }
    if p.batch != [] {
      p := Submit(p, |lines|, outcome);
    }
    assert p == Finish(Load(lines, skip, batchSize, parse, outcome), |lines|, outcome);
    FinishedIsLoaded(lines, skip, batchSize, parse, outcome);
    FinishedStats(lines, skip, batchSize, parse, outcome);
    FinishedAsWritten(lines, skip, batchSize, parse, outcome);
    calls := p.calls;
    r := Ok(StatsOf(p));
  }

  // ----- resuming

  lemma {:induction false} ParsedSplit(lines: seq<Line>, skip: nat, m: nat, parse: Parser)
    requires skip <= m <= |lines|
    ensures Parsed(lines, skip, parse) == Parsed(lines[..m], skip, parse) + Parsed(lines, m, parse)
  {
    if |lines| == m {
      assert lines[..m] == lines;
      NothingBeforeSkip(lines, m, parse);
    } else {
      var before := lines[..|lines| - 1];
      ParsedSplit(before, skip, m, parse);
      assert before[..m] == lines[..m];
      Associate(Parsed(lines[..m], skip, parse), Parsed(before, m, parse), LineTriples(lines[|lines| - 1], parse));
    }
  }

  lemma {:induction false} NothingBeforeSkip(lines: seq<Line>, skip: nat, parse: Parser)
    requires |lines| <= skip
    ensures Parsed(lines, skip, parse) == []
  {
    if lines != [] { NothingBeforeSkip(lines[..|lines| - 1], skip, parse); }
  }

  /** The batch went in: an answer that reports no failed statement. */
  predicate Clean(o: Result<(nat, nat), string>) {
    o.Ok? && o.value.1 == 0
  }

  /** The triples of the batches that went in. */
  function StoredBy(calls: seq<Call>, outcome: Outcomes): seq<Triple> {
    if calls == [] then []
    else StoredBy(calls[..|calls| - 1], outcome) + if Clean(outcome(|calls| - 1)) then calls[|calls| - 1].batch else []
  }

  /** Every call up to the last that was answered Ok went in. */
  ghost predicate CleanToLastOk(calls: seq<Call>, outcome: Outcomes) {
    forall i, j :: 0 <= i <= j < |calls| && outcome(j).Ok? ==> Clean(outcome(i))
  }

  /** m calls, the last of them the last that was answered Ok. */
  ghost predicate LastOk(calls: seq<Call>, outcome: Outcomes, m: nat) {
    0 < m <= |calls| && outcome(m - 1).Ok? && forall j :: m <= j < |calls| ==> outcome(j).Err?
  }

  lemma {:induction false} AfterLastOk(calls: seq<Call>, outcome: Outcomes, m: nat)
    requires LastOk(calls, outcome, m)
    ensures StoredBy(calls, outcome) == StoredBy(calls[..m], outcome)
    ensures TallyOf(calls, outcome).lastLine == calls[m - 1].line
    decreases |calls|
  {
    if |calls| == m {
      assert calls[..m] == calls;
    } else {
      var before := calls[..|calls| - 1];
      AfterLastOk(before, outcome, m);
      assert before[..m] == calls[..m];
      assert StoredBy(before, outcome) + [] == StoredBy(before, outcome);
    }
  }

  /** What went in is no more than was submitted, and all of it only if everything went in. */
  lemma {:induction false} StoredSize(calls: seq<Call>, outcome: Outcomes)
    requires forall i :: 0 <= i < |calls| ==> calls[i].batch != []
    ensures |StoredBy(calls, outcome)| <= |Submitted(calls)|
    ensures (forall i :: 0 <= i < |calls| ==> Clean(outcome(i))) ==> StoredBy(calls, outcome) == Submitted(calls)
    ensures (exists i :: 0 <= i < |calls| && !Clean(outcome(i))) ==> |StoredBy(calls, outcome)| < |Submitted(calls)|
  {
    if calls != [] {
      var before := calls[..|calls| - 1];
      StoredSize(before, outcome);
    }
  }

  /** The statements that the answers report as executed, and as failed. */
  function ReportedExecuted(n: nat, outcome: Outcomes): nat {
    if n == 0 then 0
    else ReportedExecuted(n - 1, outcome) + match outcome(n - 1) case Ok((executed, _)) => executed case Err(_) => 0
  }

  function ReportedFailed(n: nat, outcome: Outcomes): nat {
    if n == 0 then 0
    else ReportedFailed(n - 1, outcome) + match outcome(n - 1) case Ok((_, failed)) => failed case Err(_) => 0
  }

  /** The triples of the calls that were answered with an error. */
  function Lost(calls: seq<Call>, outcome: Outcomes): seq<Triple> {
    if calls == [] then []
    else Lost(calls[..|calls| - 1], outcome) + if outcome(|calls| - 1).Err? then calls[|calls| - 1].batch else []
  }

  ghost function AnsweredOk(n: nat, outcome: Outcomes): set<nat> {
    set i | 0 <= i < n && outcome(i).Ok?
  }

  lemma OneMoreAnswer(n: nat, outcome: Outcomes)
    ensures |AnsweredOk(n + 1, outcome)| == |AnsweredOk(n, outcome)| + if outcome(n).Ok? then 1 else 0
  {
    assert AnsweredOk(n + 1, outcome) == AnsweredOk(n, outcome) + if outcome(n).Ok? then {n} else {};
  }

  /** What the tally counts: the calls answered Ok, what they report, and as errors also every triple of the others;
      the line is that of the last call answered Ok. */
  lemma {:induction false} TallyExact(calls: seq<Call>, outcome: Outcomes)
    ensures var t, n := TallyOf(calls, outcome), |calls|;
      && t.batches == |AnsweredOk(n, outcome)| && t.executed == ReportedExecuted(n, outcome)
      && t.errors == ReportedFailed(n, outcome) + |Lost(calls, outcome)|
      && (forall m: nat :: LastOk(calls, outcome, m) ==> t.lastLine == calls[m - 1].line)
      && (AnsweredOk(n, outcome) == {} ==> t.lastLine == 0)
  {
    if calls != [] {
      var before := calls[..|calls| - 1];
      TallyExact(before, outcome);
      OneMoreAnswer(|before|, outcome);
    }
    forall m: nat | LastOk(calls, outcome, m) ensures TallyOf(calls, outcome).lastLine == calls[m - 1].line {
      AfterLastOk(calls, outcome, m);
    }
    if AnsweredOk(|calls|, outcome) == {} { NothingStored(calls, outcome); }
  }

  lemma SomeLastOk(calls: seq<Call>, outcome: Outcomes, k: nat) returns (m: nat)
    requires k < |calls| && outcome(k).Ok?
    ensures LastOk(calls, outcome, m)
  {
    m := |calls|;
    while outcome(m - 1).Err?
      invariant k < m <= |calls| && forall j :: m <= j < |calls| ==> outcome(j).Err?
      decreases m
    {
      m := m - 1;
    }
  }

  lemma CleanBefore(calls: seq<Call>, outcome: Outcomes, m: nat)
    requires LastOk(calls, outcome, m)
    ensures CleanToLastOk(calls, outcome) <==> forall i :: 0 <= i < m ==> Clean(outcome(i))
  {
    if CleanToLastOk(calls, outcome) {
      var last := m - 1;
      forall i | 0 <= i < m ensures Clean(outcome(i)) {
        assert 0 <= i <= last < |calls| && outcome(last).Ok?;
      }
    }
  }

  /** The last batch that was answered Ok took all of its line. */
  ghost predicate LastOkEndsLine(calls: seq<Call>, outcome: Outcomes, lines: seq<Line>, skip: nat, parse: Parser) {
    forall m: nat :: LastOk(calls, outcome, m) && calls[m - 1].line <= |lines| ==>
      Submitted(calls[..m]) == Parsed(lines[..calls[m - 1].line], skip, parse)
  }

  lemma LastOkUnique(calls: seq<Call>, outcome: Outcomes, m: nat, n: nat)
    requires LastOk(calls, outcome, m) && LastOk(calls, outcome, n)
    ensures m == n
  {
    var i, j := m - 1, n - 1;
    assert outcome(i).Ok? && outcome(j).Ok?;
  }

  /** With one triple a line every batch does. */
  lemma OneTripleEndsLine(calls: seq<Call>, outcome: Outcomes, lines: seq<Line>, skip: nat, parse: Parser)
    requires EndsWithLine(calls, lines, skip, parse)
    ensures LastOkEndsLine(calls, outcome, lines, skip, parse)
  {
    forall m: nat | LastOk(calls, outcome, m) ensures Submitted(calls[..m]) == Parsed(lines[..calls[m - 1].line], skip, parse) {
      var i := m - 1;
      assert calls[..i + 1] == calls[..m];
    }
  }

  lemma ResumeSizes(lines: seq<Line>, skip: nat, batchSize: nat, parse: Parser, outcome: Outcomes, calls: seq<Call>, m: nat)
    requires Loaded(calls, lines, skip, batchSize, parse) && LastOk(calls, outcome, m)
    ensures var line := calls[m - 1].line;
      var stored, taken, read := StoredBy(calls, outcome), Submitted(calls[..m]), Parsed(lines[..line], skip, parse);
      && TallyOf(calls, outcome).lastLine == line && read + Parsed(lines, line, parse) == Parsed(lines, skip, parse)
      && |stored| <= |taken| <= |read| && (|taken| == |read| ==> taken == read)
      && (CleanToLastOk(calls, outcome) ==> stored == taken) && (!CleanToLastOk(calls, outcome) ==> |stored| < |taken|)
  {
    var i, done := m - 1, calls[..m];
    assert calls[..i + 1] == done && Submitted(done) <= Parsed(lines[..calls[i].line], skip, parse);
    AfterLastOk(calls, outcome, m);
    CleanBefore(calls, outcome, m);
    NonEmptyBatches(calls, batchSize);
    StoredSize(done, outcome);
    ParsedSplit(lines, skip, calls[i].line, parse);
  }

  /** What went in and a rerun from the last successful line hold every triple exactly once, in order, if and
      only if every call up to the last that was answered Ok went in, and that one took all of its line;
      otherwise triples are lost. */
  lemma ResumeExact(lines: seq<Line>, skip: nat, batchSize: nat, parse: Parser, outcome: Outcomes, calls: seq<Call>, k: nat)
    requires Loaded(calls, lines, skip, batchSize, parse) && k < |calls| && outcome(k).Ok?
    ensures var rerun := Parsed(lines, TallyOf(calls, outcome).lastLine, parse);
      var exact := CleanToLastOk(calls, outcome) && LastOkEndsLine(calls, outcome, lines, skip, parse);
      && (exact <==> StoredBy(calls, outcome) + rerun == Parsed(lines, skip, parse))
      && (!exact ==> |StoredBy(calls, outcome) + rerun| < |Parsed(lines, skip, parse)|)
  {
    var m := SomeLastOk(calls, outcome, k);
    ResumeSizes(lines, skip, batchSize, parse, outcome, calls, m);
    LastLineOnly(calls, outcome, lines, skip, parse, m);
    var read, rerun := Parsed(lines[..calls[m - 1].line], skip, parse), Parsed(lines, calls[m - 1].line, parse);
    assert |StoredBy(calls, outcome) + rerun| == |StoredBy(calls, outcome)| + |rerun| && |read + rerun| == |read| + |rerun|;
  }

  lemma LastLineOnly(calls: seq<Call>, outcome: Outcomes, lines: seq<Line>, skip: nat, parse: Parser, m: nat)
    requires LastOk(calls, outcome, m) && calls[m - 1].line <= |lines|
    ensures LastOkEndsLine(calls, outcome, lines, skip, parse)
      <==> Submitted(calls[..m]) == Parsed(lines[..calls[m - 1].line], skip, parse)
  {
    forall n: nat | LastOk(calls, outcome, n) ensures n == m {
      LastOkUnique(calls, outcome, m, n);
    }
  }

  lemma NonEmptyBatches(calls: seq<Call>, batchSize: nat)
    requires Batched(calls, batchSize)
    ensures forall i :: 0 <= i < |calls| ==> calls[i].batch != []
  {
  }

  /** A refused query anywhere up to the last call that was answered Ok loses triples: its own answer
      is Ok, so the line it is resumed from lies behind it. */
  lemma RefusedBatchLost(lines: seq<Line>, skip: nat, batchSize: nat, parse: Parser, outcome: Outcomes, calls: seq<Call>, k: nat)
    requires Loaded(calls, lines, skip, batchSize, parse)
    requires k < |calls| && outcome(k).Ok? && outcome(k).value.1 > 0
    ensures |StoredBy(calls, outcome) + Parsed(lines, TallyOf(calls, outcome).lastLine, parse)| < |Parsed(lines, skip, parse)|
  {
    ResumeExact(lines, skip, batchSize, parse, outcome, calls, k);
    assert 0 <= k <= k < |calls| && !Clean(outcome(k));
  }

  lemma {:induction false} NothingStored(calls: seq<Call>, outcome: Outcomes)
    requires TallyOf(calls, outcome).batches == 0
    ensures StoredBy(calls, outcome) == [] && TallyOf(calls, outcome).lastLine == 0
  {
    if calls != [] { NothingStored(calls[..|calls| - 1], outcome); }
  }

  /** The lines that SKIP leaves out. */
  function Skipped(lines: seq<Line>, skip: nat): seq<Line> {
    lines[..if skip <= |lines| then skip else |lines|]
  }

  /** When no call was answered Ok, the reported line is 0 and a rerun takes the skipped lines too: it
      holds what the load should have if and only if they hold no triple. */
  lemma RestartExact(lines: seq<Line>, skip: nat, parse: Parser, outcome: Outcomes, calls: seq<Call>)
    requires TallyOf(calls, outcome).batches == 0
    ensures StoredBy(calls, outcome) + Parsed(lines, TallyOf(calls, outcome).lastLine, parse) == Parsed(lines, skip, parse)
      <==> Parsed(Skipped(lines, skip), 0, parse) == []
  {
    NothingStored(calls, outcome);
    assert StoredBy(calls, outcome) + Parsed(lines, 0, parse) == Parsed(lines, 0, parse);
    if skip <= |lines| {
      ParsedSplit(lines, 0, skip, parse);
      assert |Parsed(Skipped(lines, skip), 0, parse) + Parsed(lines, skip, parse)|
          == |Parsed(Skipped(lines, skip), 0, parse)| + |Parsed(lines, skip, parse)|;
    } else {
      NothingBeforeSkip(lines, skip, parse);
      assert Skipped(lines, skip) == lines;
    }
  }

  /** Loading, and then loading again from the reported line, whatever the second load meets. */
  method LoadAndResume(lines: seq<Line>, skip: nat, batchSize: nat, parse: Parser, outcome: Outcomes, later: Outcomes)
    returns (r: Result<Stats, string>, calls: seq<Call>, again: Result<Stats, string>, more: seq<Call>)
    ensures r.Ok? && again.Ok? && r.value.batches > 0 ==>
      (StoredBy(calls, outcome) + Submitted(more) == Parsed(lines, skip, parse)
       <==> CleanToLastOk(calls, outcome) && LastOkEndsLine(calls, outcome, lines, skip, parse))
    ensures r.Ok? && OnePerLine(lines, parse) ==> LastOkEndsLine(calls, outcome, lines, skip, parse)
    ensures r.Ok? && again.Ok? && r.value.batches == 0 ==>
      (StoredBy(calls, outcome) + Submitted(more) == Parsed(lines, skip, parse) <==> Parsed(Skipped(lines, skip), 0, parse) == [])
  {
    r, calls := StreamNTriples(lines, skip, batchSize, parse, outcome);
    if r.Err? { return r, calls, r, []; }
    if OnePerLine(lines, parse) { OneTripleEndsLine(calls, outcome, lines, skip, parse); }
    again, more := StreamNTriples(lines, r.value.lastSuccessfulLine, batchSize, parse, later);
    if again.Ok? {
      if r.value.batches > 0 {
        var k := OkExists(calls, outcome);
        ResumeExact(lines, skip, batchSize, parse, outcome, calls, k);
      } else {
        RestartExact(lines, skip, parse, outcome, calls);
      }
    }
  }

  lemma {:induction false} OkExists(calls: seq<Call>, outcome: Outcomes) returns (k: nat)
    requires TallyOf(calls, outcome).batches > 0
    ensures k < |calls| && outcome(k).Ok?
  {
    if outcome(|calls| - 1).Ok? {
      k := |calls| - 1;
    } else {
      k := OkExists(calls[..|calls| - 1], outcome);
    }
  }
}
