/**
 The header of a response: the search for its end, repeated on a growing buffer, and the loop
 that finds the status code, Content-Length and Transfer-Encoding.
 */
module HttpHeader {
  import opened HttpChunks
  import opened Texts

  predicate IsNewline(c: char) {
    c == CR || c == LF
  }

  predicate IsBlank(c: char) {
    c == ' ' || c == '\t'
  }

  /** C's isspace. */
  predicate IsSpace(c: char) {
    c == ' ' || '\t' <= c <= CR
  }

  predicate IsDigit(c: char) {
    '0' <= c <= '9'
  }

  // ------------------------------------------------------------------------- end of headers

  /** One past CR LF CR LF or LF LF, or 0 if neither is met; the search steps as the source does. */
  function HeaderEnd(b: string, i: nat): (end: nat)
    ensures end <= |b| && (end > 0 ==> end >= i + 2)
    decreases |b| - i
  {
    if i + 1 >= |b| then 0
    else if b[i] == CR then
      if b[i + 1] != LF then HeaderEnd(b, i + 2)
      else if i + 2 >= |b| || b[i + 2] != CR then HeaderEnd(b, i + 3)
      else if i + 3 >= |b| || b[i + 3] != LF then HeaderEnd(b, i + 4)
      else i + 4
    else if b[i] == LF then
      if b[i + 1] == LF then i + 2 else HeaderEnd(b, i + 2)
    else HeaderEnd(b, i + 1)
  }

  /** An end inside a prefix of the buffer is found without the rest of it. */
  lemma {:induction false} EndIsFoundEarly(b: string, more: string, i: nat)
    requires 0 < HeaderEnd(b + more, i) <= |b|
    ensures HeaderEnd(b, i) == HeaderEnd(b + more, i)
    decreases |b| - i
  {
    var t := b + more;
    if t[i] == CR {
      if t[i + 1] != LF {
        EndIsFoundEarly(b, more, i + 2);
      } else if t[i + 2] != CR {
        EndIsFoundEarly(b, more, i + 3);
      } else if t[i + 3] != LF {
        EndIsFoundEarly(b, more, i + 4);
      }
    } else if t[i] == LF {
      if t[i + 1] != LF {
        EndIsFoundEarly(b, more, i + 2);
      }
    } else {
      EndIsFoundEarly(b, more, i + 1);
    }
  }

  /** What is left of the buffer after the header came with the last segment, so it fits in `buf`. */
  lemma LeftoverIsFromLastSegment(b: string, segment: string)
    requires HeaderEnd(b, 0) == 0 && HeaderEnd(b + segment, 0) > 0
    ensures |b + segment| - HeaderEnd(b + segment, 0) < |segment|
  {
    if HeaderEnd(b + segment, 0) <= |b| {
      EndIsFoundEarly(b, segment, 0);
      assert false;
    }
  }

  /** A non-empty text without newlines. */
  ghost predicate IsLine(s: string) {
    s != "" && forall k | 0 <= k < |s| :: !IsNewline(s[k])
  }

  ghost predicate AreLines(lines: seq<string>) {
    forall k | 0 <= k < |lines| :: IsLine(lines[k])
  }

  /** Lines, each ended by CR LF, and the empty line. */
  ghost function Block(lines: seq<string>): string {
    if lines == [] then CRLF else lines[0] + (CRLF + Block(lines[1..]))
  }

  lemma {:induction false} SkipsPlain(b: string, i: nat, j: nat)
    requires i <= j <= |b| && forall k | i <= k < j :: !IsNewline(b[k])
    ensures HeaderEnd(b, i) == HeaderEnd(b, j)
    decreases j - i
  {
    if i < j {
      SkipsPlain(b, i + 1, j);
    }
  }

  /** A line, its CR LF, and what follows. */
  ghost predicate LineAt(t: string, at: nat, line: string, next: string) {
    var d := at + |line|;
    && TextAt(t, at, line) && TextAt(t, d + 2, next) && |next| >= 2 && d + 4 <= |t|
    && t[d] == CR && t[d + 1] == LF && t[d + 2] == next[0] && t[d + 3] == next[1]
  }

  lemma LineThenNext(t: string, at: nat, line: string, next: string)
    requires TextAt(t, at, line + (CRLF + next)) && |next| >= 2
    ensures LineAt(t, at, line, next)
  {
    TextSplit(t, at, line, CRLF + next);
    TextSplit(t, at + |line|, CRLF, next);
    assert t[at + |line|] == CRLF[0] && t[at + |line| + 1] == CRLF[1];
  }

  /** A line of a block, its CR LF, and the first characters of what follows. */
  lemma LineOfBlock(t: string, at: nat, lines: seq<string>)
    requires TextAt(t, at, Block(lines)) && lines != [] && AreLines(lines)
    ensures LineAt(t, at, lines[0], Block(lines[1..]))
    ensures |Block(lines)| == |lines[0]| + 2 + |Block(lines[1..])|
    ensures var next := Block(lines[1..]);
      if lines[1..] == [] then next[0] == CR && next[1] == LF else !IsNewline(next[0])
  {
    BlockStart(lines[1..]);
    BlockSplits(t, at, lines);
    LineThenNext(t, at, lines[0], Block(lines[1..]));
  }

  lemma BlockSplits(t: string, at: nat, lines: seq<string>)
    requires TextAt(t, at, Block(lines)) && lines != []
    ensures TextAt(t, at, lines[0] + (CRLF + Block(lines[1..])))
    ensures |Block(lines)| == |lines[0]| + 2 + |Block(lines[1..])|
  {
  }

  lemma BlockStart(lines: seq<string>)
    requires AreLines(lines)
    ensures |Block(lines)| >= 2 && (lines == [] ==> Block(lines)[0] == CR && Block(lines)[1] == LF)
    ensures lines != [] ==> !IsNewline(Block(lines)[0])
  {
    if lines != [] {
      assert Block(lines)[0] == lines[0][0];
    }
  }

  /** The end of a block is found exactly once the buffer holds all of it. */
  lemma {:induction false} BlockIsFound(b: string, t: string, at: nat, lines: seq<string>, i: nat)
    requires b <= t && at <= |b| && lines != [] && AreLines(lines) && TextAt(t, at, Block(lines)) && at <= i <= at + 1
    ensures HeaderEnd(b, i) == if |b| >= at + |Block(lines)| then at + |Block(lines)| else 0
    decreases lines
  {
    LineOfBlock(t, at, lines);
    var d := at + |lines[0]|;
    if |b| <= d {
      if i <= |b| {
        PlainInLine(b, t, at, lines[0], i, |b|);
      }
    } else {
      PlainInLine(b, t, at, lines[0], i, d);
      if |b| >= d + 2 && lines[1..] != [] {
        BlockIsFound(b, t, d + 2, lines[1..], d + 3);
      }
    }
  }

  lemma PlainInLine(b: string, t: string, at: nat, line: string, i: nat, j: nat)
    requires b <= t && TextAt(t, at, line) && IsLine(line) && at <= i <= j <= |b| && j <= at + |line|
    ensures HeaderEnd(b, i) == HeaderEnd(b, j)
  {
    forall k | i <= k < j
      ensures !IsNewline(b[k])
    {
      assert t[k] == line[k - at];
    }
    SkipsPlain(b, i, j);
  }

  // ---------------------------------------------------------------------------- C functions

  function Lower(c: char): char {
    if 'A' <= c <= 'Z' then (c as int + 32) as char else c
  }

  /** Whether strncasecmp(s, literal, n) is 0; a string that ends early differs. */
  function EqualNoCase(s: string, literal: string, n: nat): bool {
    if n == 0 then true
    else if s == "" then false
    else if literal == "" then s[0] == '\0'
    else Lower(s[0]) == Lower(literal[0]) && EqualNoCase(s[1..], literal[1..], n - 1)
  }

  function LeadingDigits(s: string, value: nat): nat {
    if s == "" || !IsDigit(s[0]) then value else LeadingDigits(s[1..], value * 10 + (s[0] as int - '0' as int))
  }

  function Atoi(s: string): int {
    if s == "" then 0
    else if IsSpace(s[0]) then Atoi(s[1..])
    else if s[0] == '-' then 0 - LeadingDigits(s[1..], 0)
    else if s[0] == '+' then LeadingDigits(s[1..], 0)
    else LeadingDigits(s, 0)
  }

  lemma {:induction false} DigitsStopAt(s: string, rest: string, value: nat)
    requires rest != "" && !IsDigit(rest[0])
    ensures LeadingDigits(s + rest, value) == LeadingDigits(s, value)
  {
    if s == "" {
      assert s + rest == rest;
    } else if IsDigit(s[0]) {
      assert (s + rest)[1..] == s[1..] + rest;
      DigitsStopAt(s[1..], rest, value * 10 + (s[0] as int - '0' as int));
    }
  }

  lemma AtoiStopsAt(s: string, rest: string)
    requires s != "" && !IsSpace(s[0]) && rest != "" && !IsDigit(rest[0])
    ensures Atoi(s + rest) == Atoi(s)
  {
    assert (s + rest)[1..] == s[1..] + rest;
    DigitsStopAt(s[1..], rest, 0);
    DigitsStopAt(s, rest, 0);
  }

  /**
   A header name is accepted exactly if it is, in either case, a beginning of the name looked
   for: the source compares only as many characters as the header has.
   */
  lemma {:induction false} NameIsAccepted(name: string, literal: string)
    requires '\0' !in name
    ensures EqualNoCase(name, literal, |name|) <==>
      |name| <= |literal| && forall k | 0 <= k < |name| :: Lower(name[k]) == Lower(literal[k])
  {
    if name != "" && literal != "" {
      assert forall c | c in name[1..] :: c in name;
      NameIsAccepted(name[1..], literal[1..]);
      assert name == [name[0]] + name[1..] && literal == [literal[0]] + literal[1..];
    }
  }

  ghost predicate IsWord(s: string) {
    forall k | 0 <= k < |s| :: 'a' <= s[k] <= 'z' || s[k] == '-'
  }

  lemma {:induction false} ComparisonStopsAt(s: string, rest: string, literal: string, n: nat)
    requires rest != "" && IsNewline(rest[0]) && IsWord(literal)
    ensures EqualNoCase(s + rest, literal, n) == EqualNoCase(s, literal, n)
    decreases n
  {
    if s == "" {
      assert s + rest == rest;
    } else {
      assert (s + rest)[1..] == s[1..] + rest;
      if n > 0 && literal != "" {
        ComparisonStopsAt(s[1..], rest, literal[1..], n - 1);
      }
    }
  }

  // ------------------------------------------------------------------------------- parsing

  datatype Head = Head(status: int, contentLength: int, chunked: bool)

  datatype Parser = Parser(lineStart: nat, colon: nat, valueStart: nat, head: Head)

  datatype Parsed = Parsed(parser: Parser, next: nat)

  function SkipBlanks(h: string, i: nat, end: nat): (j: nat)
    requires i < end <= |h|
    ensures i <= j < end
    decreases end - i
  {
    if i + 1 < end && IsBlank(h[i + 1]) then SkipBlanks(h, i + 1, end) else i
  }

  function SkipNewlines(h: string, i: nat): (j: nat)
    requires i <= |h|
    ensures i <= j <= |h| && (i < |h| && IsNewline(h[i]) ==> i < j)
    decreases |h| - i
  {
    if i < |h| && IsNewline(h[i]) then SkipNewlines(h, i + 1) else i
  }

  /** The number after the first space of the status line, or after the next one if that is negative. */
  function StatusOf(h: string, sp: nat, end: nat, status: int): int
    requires end <= |h|
    decreases end - sp
  {
    if sp >= end then status
    else if h[sp] != ' ' then StatusOf(h, sp + 1, end, status)
    else if status < 0 then StatusOf(h, sp + 1, end, Atoi(h[sp + 1..]))
    else status
  }

  function ReadField(head: Head, name: string, value: string): Head {
    if EqualNoCase(name, "content-length", |name|) then head.(contentLength := Atoi(value))
    else if EqualNoCase(name, "transfer-encoding", |name|) && EqualNoCase(value, "chunked", 7) then
      head.(chunked := true)
    else head
  }

  predicate ParserOk(h: string, p: Parser) {
    p.lineStart <= |h| && p.colon <= |h| && p.valueStart <= |h|
  }

  function EndOfLine(h: string, p: Parser, i: nat): Head
    requires i < |h| && ParserOk(h, p)
  {
    if p.lineStart == 0 then p.head.(status := StatusOf(h, 0, i, p.head.status))
    else if p.colon > p.lineStart && p.valueStart > p.colon then
      ReadField(p.head, h[p.lineStart..p.colon], h[p.valueStart..])
    else p.head
  }

  /** One turn of the parse loop. */
  function ParseTurn(h: string, end: nat, p: Parser, i: nat): (r: Parsed)
    requires i < end <= |h| && ParserOk(h, p)
    ensures i < r.next && ParserOk(h, r.parser)
  {
    if p.lineStart > 0 && p.colon <= p.lineStart && h[i] == ':' then
      var j := SkipBlanks(h, i, end);
      Parsed(p.(colon := i, valueStart := j + 1), j + 1)
    else if IsNewline(h[i]) then
      var j := SkipNewlines(h, i);
      Parsed(Parser(j, j, 0, EndOfLine(h, p, i)), j + 1)
    else Parsed(p, i + 1)
  }

  function Parse(h: string, end: nat, p: Parser, i: nat): Head
    requires end <= |h| && ParserOk(h, p)
    decreases end - i
  {
    if i + 1 >= end then p.head else
      var turn := ParseTurn(h, end, p, i);
      Parse(h, end, turn.parser, turn.next)
  }

  const NO_HEAD := Head(-1, -1, false)

  function ParseHeader(h: string, end: nat): Head
    requires end <= |h|
  {
    Parse(h, end, Parser(0, 0, 0, NO_HEAD), 0)
  }

  // --------------------------------------------------------------------- what parsing means

  datatype Field = Field(name: string, blanks: string, value: string)

  ghost function FieldLine(f: Field): string {
    f.name + (":" + (f.blanks + f.value))
  }

  ghost predicate FieldOk(f: Field) {
    && IsLine(f.name) && ':' !in f.name
    && (forall k | 0 <= k < |f.blanks| :: f.blanks[k] == ' ' || f.blanks[k] == '\t')
    && (f.value != "" ==> IsLine(f.value) && !IsSpace(f.value[0]))
  }

  ghost predicate FieldsOk(fields: seq<Field>) {
    forall k | 0 <= k < |fields| :: FieldOk(fields[k])
  }

  /** A field taken for Content-Length that has no value: the reader takes what follows its line. */
  ghost predicate ReadsOn(f: Field) {
    f.value == "" && EqualNoCase(f.name, "content-length", |f.name|)
  }

  ghost predicate NoneReadsOn(fields: seq<Field>) {
    forall k | 0 <= k < |fields| :: !ReadsOn(fields[k])
  }

  /** What the reader takes for the value of a field with `rest` behind it. */
  ghost function Taken(value: string, rest: string): string {
    if value == "" then rest else value
  }

  ghost function FieldLines(fields: seq<Field>): (lines: seq<string>)
    ensures |lines| == |fields|
  {
    if fields == [] then [] else [FieldLine(fields[0])] + FieldLines(fields[1..])
  }

  /** What the fields of a header say, later ones overriding earlier ones. */
  ghost function ReadFields(head: Head, fields: seq<Field>): Head
    decreases |fields|
  {
    if fields == [] then head else ReadFields(ReadField(head, fields[0].name, fields[0].value), fields[1..])
  }

  /** The same when the lines of the fields are followed by more: a field without a value is read on. */
  ghost function ReadFieldsBefore(head: Head, fields: seq<Field>, more: string): Head
    decreases |fields|
  {
    if fields == [] then head else
      var rest := Block(FieldLines(fields[1..])) + more;
      ReadFieldsBefore(ReadField(head, fields[0].name, Taken(fields[0].value, CRLF + rest)), fields[1..], more)
  }

  /** Reading on changes nothing unless a field is taken for Content-Length. */
  lemma {:induction false} ReadsAsSaid(head: Head, fields: seq<Field>, more: string)
    requires NoneReadsOn(fields)
    ensures ReadFieldsBefore(head, fields, more) == ReadFields(head, fields)
    decreases |fields|
  {
    if fields != [] {
      var rest := Block(FieldLines(fields[1..])) + more;
      assert !ReadsOn(fields[0]);
      NotChunked(head, fields[0], rest);
      ReadsAsSaid(ReadField(head, fields[0].name, fields[0].value), fields[1..], more);
    }
  }

  lemma NotChunked(head: Head, f: Field, rest: string)
    requires !ReadsOn(f)
    ensures ReadField(head, f.name, Taken(f.value, CRLF + rest)) == ReadField(head, f.name, f.value)
  {
    assert (CRLF + rest)[0] == CR;
    assert Lower("chunked"[0]) != CR;
  }

  lemma AtoiSkipsNewline(text: string)
    ensures Atoi(CRLF + text) == Atoi(text)
  {
    assert (CRLF + text)[1..] == [LF] + text;
    assert ([LF] + text)[1..] == text;
  }

  /** The number of a Content-Length without a value is the one that what follows its line starts with. */
  lemma ReadsOnTakes(head: Head, f: Field, rest: string)
    requires ReadsOn(f)
    ensures ReadField(head, f.name, Taken(f.value, CRLF + rest)) == head.(contentLength := Atoi(rest))
  {
    AtoiSkipsNewline(rest);
  }

  /** If that field is the last one, its number is read from the body. */
  lemma LastReadsOn(head: Head, fields: seq<Field>, f: Field, more: string)
    requires fields == [f] && ReadsOn(f)
    ensures ReadFieldsBefore(head, fields, more) == head.(contentLength := Atoi(more))
  {
    assert fields[1..] == [];
    assert Block(FieldLines([])) == CRLF;
    ReadsOnTakes(head, f, CRLF + more);
    AtoiSkipsNewline(more);
  }

  lemma {:induction false} FieldsThenReadsOn(head: Head, fields: seq<Field>, f: Field, more: string)
    requires NoneReadsOn(fields) && ReadsOn(f)
    ensures ReadFieldsBefore(head, fields + [f], more) == ReadFields(head, fields).(contentLength := Atoi(more))
    decreases |fields|
  {
    var all := fields + [f];
    if fields == [] {
      LastReadsOn(head, all, f, more);
    } else {
      assert all[0] == fields[0] && all[1..] == fields[1..] + [f];
      NotChunked(head, fields[0], Block(FieldLines(all[1..])) + more);
      FieldsThenReadsOn(ReadField(head, fields[0].name, fields[0].value), fields[1..], f, more);
    }
  }

  /** If a field follows whose name starts like no number, it counts as a length of 0. */
  lemma NextNameIsTaken(head: Head, f: Field, fields: seq<Field>, more: string)
    requires ReadsOn(f) && fields != [] && fields[0].name != ""
    requires var c := fields[0].name[0]; !IsSpace(c) && !IsDigit(c) && c != '-' && c != '+'
    ensures var rest := Block(FieldLines(fields)) + more;
      ReadField(head, f.name, Taken(f.value, CRLF + rest)) == head.(contentLength := 0)
  {
    var rest := Block(FieldLines(fields)) + more;
    ReadsOnTakes(head, f, rest);
    assert FieldLines(fields)[0] == FieldLine(fields[0]);
    assert rest[0] == fields[0].name[0];
  }

  lemma FieldIsLine(f: Field)
    requires FieldOk(f)
    ensures IsLine(FieldLine(f))
  {
    var line := FieldLine(f);
    forall k | 0 <= k < |line|
      ensures !IsNewline(line[k])
    {
      var c := |f.name|;
      assert line[k] == if k < c then f.name[k] else if k == c then ':'
        else if k < c + 1 + |f.blanks| then f.blanks[k - c - 1] else f.value[k - c - 1 - |f.blanks|];
    }
  }

  lemma {:induction false} FieldsAreLines(fields: seq<Field>)
    requires FieldsOk(fields)
    ensures AreLines(FieldLines(fields))
  {
    if fields != [] {
      FieldIsLine(fields[0]);
      FieldsAreLines(fields[1..]);
      assert FieldLines(fields) == [FieldLine(fields[0])] + FieldLines(fields[1..]);
    }
  }

  /** Characters that are neither a newline nor the colon looked for are passed over. */
  lemma {:induction false} ParseSkips(h: string, end: nat, p: Parser, i: nat, j: nat)
    requires i <= j < end <= |h| && ParserOk(h, p)
    requires forall k | i <= k < j :: !IsNewline(h[k]) && (h[k] != ':' || p.lineStart == 0 || p.colon > p.lineStart)
    ensures Parse(h, end, p, i) == Parse(h, end, p, j)
    decreases j - i
  {
    if i < j {
      ParseSkips(h, end, p, i + 1, j);
    }
  }

  lemma {:induction false} SkipsAllBlanks(h: string, i: nat, end: nat, n: nat)
    requires i + n + 1 < end <= |h| && (forall k | i < k <= i + n :: IsBlank(h[k])) && !IsBlank(h[i + n + 1])
    ensures SkipBlanks(h, i, end) == i + n
    decreases n
  {
    if n > 0 {
      assert IsBlank(h[i + 1]);
      SkipsAllBlanks(h, i + 1, end, n - 1);
    }
  }

  /** The parts of a field line, where they stand in the buffer. */
  lemma FieldParts(h: string, at: nat, f: Field)
    requires TextAt(h, at, FieldLine(f)) && FieldOk(f)
    ensures var c := at + |f.name|; var v := c + 1 + |f.blanks|; var e := v + |f.value|;
      && e == at + |FieldLine(f)|
      && h[at..c] == f.name && h[c] == ':' && TextAt(h, c + 1, f.blanks) && h[v..e] == f.value
      && (forall k | at <= k < c :: !IsNewline(h[k]) && h[k] != ':')
      && (forall k | v <= k < e :: !IsNewline(h[k]))
  {
    var c := at + |f.name|;
    TextSplit(h, at, f.name, ":" + (f.blanks + f.value));
    TextSplit(h, c, ":", f.blanks + f.value);
    TextSplit(h, c + 1, f.blanks, f.value);
    assert h[c] == ":"[0];
    forall k | at <= k < c
      ensures h[k] in f.name
    {
      assert f.name[k - at] == h[k];
    }
  }

  lemma ValueIsRead(head: Head, name: string, value: string, rest: string)
    requires (value != "" ==> !IsSpace(value[0])) && rest != "" && IsNewline(rest[0])
    ensures ReadField(head, name, value + rest) == ReadField(head, name, Taken(value, rest))
  {
    if value == "" {
      assert value + rest == rest;
    } else {
      AtoiStopsAt(value, rest);
      ComparisonStopsAt(value, rest, "chunked", 7);
    }
  }

  /** At the colon the loop remembers it and moves to the value. */
  lemma ParseColon(h: string, end: nat, at: nat, c: nat, v: nat, head: Head)
    requires 0 < at <= c < v < end <= |h| && h[c] == ':'
    requires (forall k | c < k < v :: IsBlank(h[k])) && !IsBlank(h[v])
    ensures Parse(h, end, Parser(at, at, 0, head), c) == Parse(h, end, Parser(at, c, v, head), v)
  {
    SkipsAllBlanks(h, c, end, v - c - 1);
  }

  /** A name, a colon, blanks and a value, seen by position. */
  ghost predicate FieldShape(h: string, at: nat, c: nat, v: nat, e: nat) {
    && 0 < at < c < v <= e < |h| && h[c] == ':' && !IsBlank(h[v])
    && (forall k | at <= k < c :: !IsNewline(h[k]) && h[k] != ':')
    && (forall k | c < k < v :: IsBlank(h[k]))
    && (forall k | v <= k < e :: !IsNewline(h[k]))
  }

  /** Parsing a field line up to its CR remembers where the name and the value are. */
  lemma ParseField(h: string, end: nat, at: nat, c: nat, v: nat, e: nat, head: Head)
    requires FieldShape(h, at, c, v, e) && e < end <= |h|
    ensures Parse(h, end, Parser(at, at, 0, head), at + 1) == Parse(h, end, Parser(at, c, v, head), e)
  {
    ParseSkips(h, end, Parser(at, at, 0, head), at + 1, c);
    ParseColon(h, end, at, c, v, head);
    ParseSkips(h, end, Parser(at, c, v, head), v, e);
  }

  lemma FieldHasShape(h: string, at: nat, f: Field)
    requires 0 < at && FieldOk(f) && TextAt(h, at, FieldLine(f))
    requires at + |FieldLine(f)| < |h| && h[at + |FieldLine(f)|] == CR
    ensures var c := at + |f.name|; FieldShape(h, at, c, c + 1 + |f.blanks|, at + |FieldLine(f)|)
  {
    FieldParts(h, at, f);
    var c := at + |f.name|;
    var v := c + 1 + |f.blanks|;
    assert f.value != "" ==> h[v] == h[v..v + |f.value|][0];
    forall k | c < k < v
      ensures IsBlank(h[k])
    {
      assert h[k] == f.blanks[k - c - 1];
    }
  }

  lemma LineIsLeft(h: string, end: nat, p: Parser, e: nat)
    requires ParserOk(h, p) && e + 1 < end <= |h| && h[e] == CR && h[e + 1] == LF
    ensures var next := SkipNewlines(h, e + 2);
      Parse(h, end, p, e) == Parse(h, end, Parser(next, next, 0, EndOfLine(h, p, e)), next + 1)
  {
    assert SkipNewlines(h, e) == SkipNewlines(h, e + 1) == SkipNewlines(h, e + 2);
  }

  lemma NamedLineEnds(h: string, at: nat, c: nat, v: nat, e: nat, head: Head)
    requires 0 < at < c < v <= e < |h|
    ensures EndOfLine(h, Parser(at, c, v, head), e) == ReadField(head, h[at..c], h[v..])
  {
  }

  lemma ValueThenRest(h: string, v: nat, e: nat, value: string)
    requires v <= e <= |h| && h[v..e] == value
    ensures h[v..] == value + h[e..]
  {
  }

  /** A name up to `c`, and a value from `v` up to the CR at `e`. */
  ghost predicate PartsAt(h: string, at: nat, c: nat, v: nat, e: nat, name: string, value: string) {
    && 0 < at < c < v <= e < |h| && h[at..c] == name && h[v..e] == value && h[e] == CR
    && (value != "" ==> !IsSpace(value[0]))
  }

  lemma PartsInPlace(h: string, at: nat, f: Field)
    requires 0 < at && FieldOk(f) && TextAt(h, at, FieldLine(f)) && at + |FieldLine(f)| < |h|
    requires h[at + |FieldLine(f)|] == CR
    ensures var c, e := at + |f.name|, at + |FieldLine(f)|;
      PartsAt(h, at, c, c + 1 + |f.blanks|, e, f.name, f.value)
  {
    FieldParts(h, at, f);
  }

  lemma FieldIsRead(h: string, at: nat, f: Field, head: Head)
    requires 0 < at && FieldOk(f) && TextAt(h, at, FieldLine(f)) && at + |FieldLine(f)| < |h|
    requires h[at + |FieldLine(f)|] == CR
    ensures var c, e := at + |f.name|, at + |FieldLine(f)|;
      EndOfLine(h, Parser(at, c, c + 1 + |f.blanks|, head), e) == ReadField(head, f.name, Taken(f.value, h[e..]))
  {
    PartsInPlace(h, at, f);
    EndReads(h, at, at + |f.name|, at + |f.name| + 1 + |f.blanks|, at + |FieldLine(f)|, head, f.name, f.value);
  }

  lemma EndReads(h: string, at: nat, c: nat, v: nat, e: nat, head: Head, name: string, value: string)
    requires PartsAt(h, at, c, v, e, name, value)
    ensures EndOfLine(h, Parser(at, c, v, head), e) == ReadField(head, name, Taken(value, h[e..]))
  {
    NamedLineEnds(h, at, c, v, e, head);
    ValueThenRest(h, v, e, value);
    ValueIsRead(head, name, value, h[e..]);
  }

  /** A field line in the buffer: where its colon and its value are, and what its end makes of it. */
  lemma FieldInPlace(h: string, at: nat, e: nat, f: Field, head: Head) returns (c: nat, v: nat)
    requires 0 < at && FieldOk(f) && TextAt(h, at, FieldLine(f)) && e == at + |FieldLine(f)| < |h| && h[e] == CR
    ensures FieldShape(h, at, c, v, e)
    ensures EndOfLine(h, Parser(at, c, v, head), e) == ReadField(head, f.name, Taken(f.value, h[e..]))
  {
    c := at + |f.name|;
    v := c + 1 + |f.blanks|;
    FieldHasShape(h, at, f);
    FieldIsRead(h, at, f, head);
  }

  lemma ParseShape(h: string, end: nat, at: nat, c: nat, v: nat, e: nat, head: Head, read: Head)
    requires FieldShape(h, at, c, v, e) && e + 1 < end <= |h| && h[e] == CR && h[e + 1] == LF
    requires EndOfLine(h, Parser(at, c, v, head), e) == read
    ensures var next := SkipNewlines(h, e + 2);
      Parse(h, end, Parser(at, at, 0, head), at + 1) == Parse(h, end, Parser(next, next, 0, read), next + 1)
  {
    ParseField(h, end, at, c, v, e, head);
    LineIsLeft(h, end, Parser(at, c, v, head), e);
  }

  /** What the loop makes of the lines from a position on. */
  ghost function LinesFrom(h: string, at: nat, end: nat, head: Head): Head
    requires at <= |h| && end <= |h|
  {
    var next := SkipNewlines(h, at);
    Parse(h, end, Parser(next, next, 0, head), next + 1)
  }

  /** Field lines in the buffer, with the empty line behind them. */
  ghost predicate FieldsAt(h: string, at: nat, end: nat, fields: seq<Field>) {
    && 0 < at && FieldsOk(fields) && TextAt(h, at, Block(FieldLines(fields)))
    && end == at + |Block(FieldLines(fields))| <= |h|
  }

  /** One field line in the buffer, ending at `e`. */
  ghost predicate FieldAt(h: string, at: nat, e: nat, end: nat, f: Field) {
    && 0 < at && FieldOk(f) && TextAt(h, at, FieldLine(f)) && e == at + |FieldLine(f)| && SkipNewlines(h, at) == at
    && e + 1 < end <= |h| && h[e] == CR && h[e + 1] == LF
  }

  /** A field line is parsed to what its field says, then the lines after it. */
  lemma ParseFieldLine(h: string, at: nat, e: nat, end: nat, f: Field, head: Head)
    requires at <= |h| && FieldAt(h, at, e, end, f)
    ensures LinesFrom(h, at, end, head) == LinesFrom(h, e + 2, end, ReadField(head, f.name, Taken(f.value, h[e..])))
  {
    var c, v := FieldInPlace(h, at, e, f, head);
    ParseShape(h, end, at, c, v, e, head, ReadField(head, f.name, Taken(f.value, h[e..])));
  }

  /** The first field is read, then the others. */
  lemma ReadsFirst(h: string, at: nat, e: nat, end: nat, fields: seq<Field>, head: Head)
    requires fields != [] && FieldAt(h, at, e, end, fields[0]) && FieldsAt(h, e + 2, end, fields[1..])
    ensures ReadFieldsBefore(head, fields, h[end..]) ==
      ReadFieldsBefore(ReadField(head, fields[0].name, Taken(fields[0].value, h[e..])), fields[1..], h[end..])
  {
    BehindLine(h, e, end, Block(FieldLines(fields[1..])));
  }

  /** From a position on, the loop reads the fields in turn. */
  ghost predicate Parses(h: string, at: nat, end: nat, fields: seq<Field>, head: Head) {
    at <= |h| && end <= |h| && LinesFrom(h, at, end, head) == ReadFieldsBefore(head, fields, h[end..])
  }

  lemma ParsesNone(h: string, at: nat, end: nat, fields: seq<Field>, head: Head)
    requires fields == [] && FieldsAt(h, at, end, fields)
    ensures Parses(h, at, end, fields, head)
  {
    EmptyBlock(h, at);
    ParseIsOver(h, end, at, head);
  }

  lemma ParsesFirst(h: string, at: nat, e: nat, end: nat, fields: seq<Field>, head: Head)
    requires fields != [] && at <= e && FieldAt(h, at, e, end, fields[0]) && FieldsAt(h, e + 2, end, fields[1..])
    requires Parses(h, e + 2, end, fields[1..], ReadField(head, fields[0].name, Taken(fields[0].value, h[e..])))
    ensures Parses(h, at, end, fields, head)
  {
    ParseFieldLine(h, at, e, end, fields[0], head);
    ReadsFirst(h, at, e, end, fields, head);
  }

  lemma {:induction false} ParseFields(h: string, at: nat, end: nat, fields: seq<Field>, head: Head)
    requires FieldsAt(h, at, end, fields)
    ensures Parses(h, at, end, fields, head)
    decreases |fields|
  {
    if fields == [] {
      ParsesNone(h, at, end, fields, head);
    } else {
      var e := NextField(h, at, end, fields);
      ParseFields(h, e + 2, end, fields[1..], ReadField(head, fields[0].name, Taken(fields[0].value, h[e..])));
      ParsesFirst(h, at, e, end, fields, head);
    }
  }

  /** What follows a field line: its CR LF, the other lines, and whatever the buffer has behind the header. */
  lemma BehindLine(h: string, e: nat, end: nat, block: string)
    requires e + 1 < |h| && h[e] == CR && h[e + 1] == LF && TextAt(h, e + 2, block) && end == e + 2 + |block|
    ensures h[e..] == CRLF + (block + h[end..])
  {
    TextIsSlice(h, e + 2, block);
  }

  lemma EmptyBlock(h: string, at: nat)
    requires TextAt(h, at, Block([]))
    ensures |Block([])| == 2 && at + 2 <= |h| && h[at] == CR
  {
    assert Block([])[0] == CR;
  }

  lemma ParseIsOver(h: string, end: nat, next: nat, head: Head)
    requires end == next + 2 <= |h| && h[next] == CR
    ensures LinesFrom(h, next, end, head) == head
  {
    assert SkipNewlines(h, next) >= next + 1;
  }

  /** The first field line of a block, its end, and what follows it. */
  lemma NextField(h: string, at: nat, end: nat, fields: seq<Field>) returns (e: nat)
    requires fields != [] && FieldsAt(h, at, end, fields)
    ensures FieldAt(h, at, e, end, fields[0]) && FieldsAt(h, e + 2, end, fields[1..])
  {
    var lines := FieldLines(fields);
    FieldsAreLines(fields);
    LineOfBlock(h, at, lines);
    BlockStart(lines[1..]);
    assert lines[0] == FieldLine(fields[0]) && lines[1..] == FieldLines(fields[1..]);
    assert h[at] == lines[0][0];
    e := at + |lines[0]|;
  }

  /** A status line: version, code and reason. */
  datatype StatusLine = StatusLine(version: string, code: string, reason: string)

  ghost function StatusText(s: StatusLine): string {
    s.version + (" " + (s.code + (" " + s.reason)))
  }

  ghost predicate StatusOk(s: StatusLine) {
    && IsLine(StatusText(s)) && ' ' !in s.version
    && s.code != "" && forall k | 0 <= k < |s.code| :: IsDigit(s.code[k])
  }

  lemma {:induction false} NoSpaceYet(h: string, sp: nat, j: nat, end: nat, status: int)
    requires sp <= j <= end <= |h| && forall k | sp <= k < j :: h[k] != ' '
    ensures StatusOf(h, sp, end, status) == StatusOf(h, j, end, status)
    decreases j - sp
  {
    if sp < j {
      NoSpaceYet(h, sp + 1, j, end, status);
    }
  }

  lemma StatusIsRead(h: string, s: StatusLine)
    requires StatusOk(s) && TextAt(h, 0, StatusText(s))
    ensures StatusOf(h, 0, |StatusText(s)|, -1) == LeadingDigits(s.code, 0)
  {
    var v, c := |s.version|, |s.version| + 1 + |s.code|;
    TextSplit(h, 0, s.version, " " + (s.code + (" " + s.reason)));
    TextSplit(h, v, " ", s.code + (" " + s.reason));
    TextSplit(h, v + 1, s.code, " " + s.reason);
    TextSplit(h, c, " ", s.reason);
    assert h[v] == " "[0] && h[c] == " "[0];
    forall k | 0 <= k < v
      ensures h[k] in s.version
    {
      assert s.version[k] == h[k];
    }
    var end := |StatusText(s)|;
    NoSpaceYet(h, 0, v, end, -1);
    assert h[v + 1..] == s.code + h[c..];
    AtoiStopsAt(s.code, h[c..]);
    assert IsDigit(s.code[0]);
    forall k | v + 1 <= k < c
      ensures h[k] != ' '
    {
      assert IsDigit(s.code[k - v - 1]);
    }
    NoSpaceYet(h, v + 1, c, end, Atoi(s.code));
  }

  ghost function HeaderText(s: StatusLine, fields: seq<Field>): string {
    Block([StatusText(s)] + FieldLines(fields))
  }

  /** A header in which no field without a value is taken for Content-Length. */
  ghost predicate HeaderOk(s: StatusLine, fields: seq<Field>) {
    StatusOk(s) && FieldsOk(fields) && NoneReadsOn(fields)
  }

  /** The head as the status line leaves it. */
  ghost function Coded(s: StatusLine): Head {
    NO_HEAD.(status := LeadingDigits(s.code, 0))
  }

  /** What a header says. */
  ghost function Says(s: StatusLine, fields: seq<Field>): Head {
    ReadFields(Coded(s), fields)
  }

  lemma HeaderLines(s: StatusLine, fields: seq<Field>)
    requires StatusOk(s) && FieldsOk(fields)
    ensures AreLines([StatusText(s)] + FieldLines(fields))
  {
    FieldsAreLines(fields);
  }

  /** What a header says with `more` behind it. */
  ghost function SaysBefore(s: StatusLine, fields: seq<Field>, more: string): Head {
    ReadFieldsBefore(Coded(s), fields, more)
  }

  /** A header in the buffer: its status line ends at `e`, its field lines at `end`. */
  ghost predicate HeaderAt(h: string, e: nat, end: nat, s: StatusLine, fields: seq<Field>) {
    && StatusOk(s) && TextAt(h, 0, StatusText(s)) && e == |StatusText(s)|
    && e + 1 < end <= |h| && h[e] == CR && h[e + 1] == LF && FieldsAt(h, e + 2, end, fields)
  }

  lemma StatusIsParsed(h: string, e: nat, end: nat, s: StatusLine, fields: seq<Field>)
    requires HeaderAt(h, e, end, s, fields)
    ensures ParseHeader(h, end) == LinesFrom(h, e + 2, end, Coded(s))
  {
    StatusEnds(h, end, s, e);
  }

  lemma FieldsAreParsed(h: string, e: nat, end: nat, s: StatusLine, fields: seq<Field>)
    requires HeaderAt(h, e, end, s, fields)
    ensures LinesFrom(h, e + 2, end, Coded(s)) == SaysBefore(s, fields, h[end..])
  {
    ParseFields(h, e + 2, end, fields, Coded(s));
  }

  lemma ParsedInPlace(h: string, e: nat, end: nat, s: StatusLine, fields: seq<Field>)
    requires HeaderAt(h, e, end, s, fields)
    ensures ParseHeader(h, end) == SaysBefore(s, fields, h[end..])
  {
    StatusIsParsed(h, e, end, s, fields);
    FieldsAreParsed(h, e, end, s, fields);
  }

  /** Parsing a header finds what its fields say with the rest of the buffer behind them. */
  lemma HeaderIsParsedBefore(h: string, s: StatusLine, fields: seq<Field>)
    requires StatusOk(s) && FieldsOk(fields) && HeaderText(s, fields) <= h
    ensures var end := |HeaderText(s, fields)|; ParseHeader(h, end) == SaysBefore(s, fields, h[end..])
  {
    HeaderInPlace(h, s, fields);
    ParsedInPlace(h, |StatusText(s)|, |HeaderText(s, fields)|, s, fields);
  }

  /** Parsing a header followed by any body finds what the header says. */
  lemma HeaderIsParsed(h: string, s: StatusLine, fields: seq<Field>)
    requires HeaderOk(s, fields) && HeaderText(s, fields) <= h
    ensures ParseHeader(h, |HeaderText(s, fields)|) == Says(s, fields)
  {
    HeaderIsParsedBefore(h, s, fields);
    ReadsAsSaid(Coded(s), fields, h[|HeaderText(s, fields)|..]);
  }

  lemma HeaderInPlace(h: string, s: StatusLine, fields: seq<Field>)
    requires StatusOk(s) && FieldsOk(fields) && HeaderText(s, fields) <= h
    ensures HeaderAt(h, |StatusText(s)|, |HeaderText(s, fields)|, s, fields)
  {
    var lines := [StatusText(s)] + FieldLines(fields);
    HeaderLines(s, fields);
    LineOfBlock(h, 0, lines);
    assert lines[1..] == FieldLines(fields);
  }

  lemma StatusEnds(h: string, end: nat, s: StatusLine, e: nat)
    requires StatusOk(s) && TextAt(h, 0, StatusText(s)) && e == |StatusText(s)| && e + 1 < end <= |h|
    requires h[e] == CR && h[e + 1] == LF
    ensures ParseHeader(h, end) == LinesFrom(h, e + 2, end, Coded(s))
  {
    forall k | 0 <= k < e
      ensures !IsNewline(h[k])
    {
      assert StatusText(s)[k] == h[k];
    }
    ParseSkips(h, end, Parser(0, 0, 0, NO_HEAD), 0, e);
    StatusIsRead(h, s);
    LineIsLeft(h, end, Parser(0, 0, 0, NO_HEAD), e);
  }

  /** However the header is cut, its end is found when all of it is there, and not before. */
  lemma HeaderIsFound(b: string, stream: string, s: StatusLine, fields: seq<Field>)
    requires StatusOk(s) && FieldsOk(fields) && HeaderText(s, fields) <= stream && b <= stream
    ensures HeaderEnd(b, 0) == if HeaderText(s, fields) <= b then |HeaderText(s, fields)| else 0
  {
    HeaderLines(s, fields);
    BlockIsFound(b, stream, 0, [StatusText(s)] + FieldLines(fields), 0);
    var text := HeaderText(s, fields);
    if |b| >= |text| {
      assert b[..|text|] == stream[..|text|] == text;
    }
  }
}
