/**
 Responses that `getHTTPResponse` reads otherwise than they are meant, each with what it makes of them.
 */
module HttpFindings {
  import opened HttpChunks
  import opened HttpPlaces
  import opened HttpExtensions
  import opened HttpHeader
  import opened HttpPieces
  import opened HttpBody
  import opened HttpServer

  // ------------------------------------------------------------- names cut to their beginning

  /**
   A field whose name is any beginning of Content-Length counts as one: with a positive number it cuts
   every longer body, however it arrives.
   */
  lemma ForeignFieldTruncates(segments: seq<string>, s: StatusLine, f: Field, body: string)
    requires HeaderOk(s, [f]) && Concat(segments) == HeaderText(s, [f]) + body
    requires '\0' !in f.name && |f.name| <= |"content-length"|
    requires forall k | 0 <= k < |f.name| :: Lower(f.name[k]) == Lower("content-length"[k])
    ensures var n := Atoi(f.value);
      Respond(segments).content == if 0 < n < |body| then body[..n] else body
  {
    NameIsAccepted(f.name, "content-length");
    OneField(NO_HEAD.(status := LeadingDigits(s.code, 0)), f);
    PlainBodyIsRecovered(segments, s, [f], body);
  }

  lemma OneField(head: Head, f: Field)
    ensures ReadFields(head, [f]) == ReadField(head, f.name, f.value)
  {
    assert [f][1..] == [];
    assert ReadFields(ReadField(head, f.name, f.value), []) == ReadField(head, f.name, f.value);
  }

  /** The field `C: 3` leaves three bytes of any longer body. */
  lemma OneLetterTruncates(segments: seq<string>, body: string)
    requires |body| > 3 && Concat(segments) == HeaderText(OK_STATUS, [Field("C", " ", "3")]) + body
    ensures Respond(segments).content == body[..3]
  {
    var f := Field("C", " ", "3");
    ServerStatusIsOk();
    assert IsLine("C") && IsLine("3") && FieldOk(f);
    assert Lower("C"[0]) == Lower("content-length"[0]);
    ThreeIsThree();
    ForeignFieldTruncates(segments, OK_STATUS, f, body);
  }

  lemma ThreeIsThree()
    ensures Atoi("3") == 3
  {
    assert "3"[1..] == "";
    assert LeadingDigits("", 3) == 3;
  }

  // ------------------------------------------------------------------ a length without a value

  /**
   A header whose last field is taken for Content-Length and has no value: its number is read from what
   came of the body with the header, and a positive one cuts every longer body.
   */
  lemma EmptyLengthIsReadFromBody(segments: seq<string>, s: StatusLine, fields: seq<Field>, f: Field, body: string)
    requires StatusOk(s) && FieldsOk(fields + [f]) && NoneReadsOn(fields) && ReadsOn(f) && !Says(s, fields).chunked
    requires Concat(segments) == HeaderText(s, fields + [f]) + body
    ensures var pieces := PiecesOf(segments, s, fields + [f]);
      && pieces != []
      && var n := Atoi(pieces[0]);
         Respond(segments).content == if 0 < n < |body| then body[..n] else body
  {
    var pieces := PiecesOf(segments, s, fields + [f]);
    if pieces != [] {
      FieldsThenReadsOn(Coded(s), fields, f, pieces[0]);
    }
    PlainBodyIsRead(segments, s, fields + [f], body);
  }

  const EMPTY_LENGTH := Field("Content-Length", "", "")

  /** With nothing behind `Content-Length:`, a body that starts with a 3 and no other digit is cut to three bytes. */
  lemma EmptyLengthCutsBody(rest: string)
    requires rest != "" && !IsDigit(rest[0]) && |rest| > 2
    ensures Respond([HeaderText(OK_STATUS, [EMPTY_LENGTH]) + ("3" + rest)]).content == "3" + rest[..2]
  {
    var header, body := HeaderText(OK_STATUS, [EMPTY_LENGTH]), "3" + rest;
    var segments := [header + body];
    ServerStatusIsOk();
    EmptyLengthReadsOn();
    assert [] + [EMPTY_LENGTH] == [EMPTY_LENGTH] && Concat(segments[1..]) == "";
    assert PiecesOf(segments, OK_STATUS, [EMPTY_LENGTH])[0] == body;
    AtoiStopsAt("3", rest);
    ThreeIsThree();
    EmptyLengthIsReadFromBody(segments, OK_STATUS, [], EMPTY_LENGTH, body);
    assert body[..3] == "3" + rest[..2];
  }

  lemma EmptyLengthReadsOn()
    ensures FieldOk(EMPTY_LENGTH) && ReadsOn(EMPTY_LENGTH)
  {
    LengthIsLine();
    LengthIsTold(EMPTY_LENGTH.name, "content-length");
  }

  lemma LengthIsLine()
    ensures IsLine("Content-Length") && ':' !in "Content-Length"
  {
    assert "Content-Length" == "Content" + "-Length";
  }

  lemma LengthIsTold(name: string, literal: string)
    requires name == "Content-Length" && literal == "content-length"
    ensures EqualNoCase(name, literal, |name|)
  {
    assert name == "Content" + "-Length" && literal == "content" + "-length";
    NameIsAccepted("Content", "content");
    NameIsAccepted("-Length", "-length");
    EqualPieces("Content", "-Length", "content", "-length");
  }

  // ------------------------------------------------------------------------- an extension cut

  /**
   The chunk `5;a` with its size line cut before the `a`, which is read as a second digit: ninety bytes are
   awaited, and what should be data, CR LF and the last chunk all becomes content.
   */
  lemma CutExtensionMisread(s: StatusLine, fields: seq<Field>, rest: string)
    requires HeaderOk(s, fields) && Says(s, fields).chunked && Says(s, fields).contentLength <= 0 && |rest| <= 90
    ensures Respond([HeaderText(s, fields) + "5;", "a\r\n" + rest]) == Response(rest, Says(s, fields).status)
  {
    var header, head := HeaderText(s, fields), Says(s, fields);
    var first, second := header + "5;", "a\r\n" + rest;
    assert "" + first == first && first[|header|..] == "5;" && header <= first;
    HeaderIsFound(first, first, s, fields);
    HeaderIsParsed(first, s, fields);
    DigitsSoFar();
    MisreadData(rest);
    TwoSegments(first, second);
  }

  lemma TwoSegments(first: string, second: string)
    ensures Respond([first, second]) == ResponseOf(Receive(Receive(InHeader(""), first), second))
  {
    var st := Receive(InHeader(""), first);
    assert [first, second][1..] == [second] && [second][1..] == [];
    assert ReceiveFrom(st, [second]) == ReceiveFrom(Receive(st, second), []);
  }

  lemma DigitsSoFar()
    ensures ReadBuffer(START_READER, "5;") == Reader(0, "5", "", false)
  {
    var line := Line("", "5", ";a");
    assert line == "5;a\r\n" && line[0..] == "5;" + "a\r\n";
    SoundPiece("5", ";a", 0, "5;", "a\r\n");
    assert ReadSize("5;", 0, "") == SizeLine(2, "5", false);
    ReadInOneTurn("5;", START_READER, Reader(0, "5", "", false));
  }

  lemma MisreadLine(buf: string, rest: string)
    requires buf == "a\r\n" + rest
    ensures |buf| == 3 + |rest| && buf[3..] == rest && AllHex("5a") && SizeOf("5a") == 90
    ensures ReadSize(buf, 0, "5") == SizeLine(3, "5a", true)
  {
    assert buf[0] == 'a' && buf[1] == CR && buf[2] == LF;
    assert DigitsEnd(buf, 1, 29) == 1 && DigitsEnd(buf, 0, 30) == 1;
    assert buf[0..1] == "a" && "5" + "a" == "5a";
    assert "5a"[..1] == "5" && "5"[..0] == "";
  }

  lemma MisreadCopy(buf: string, rest: string)
    requires |buf| == 3 + |rest| && buf[3..] == rest && |rest| <= 90
    ensures StartChunk(buf, 3, Reader(0, "5", "", false), 90) == Progress(Reader(90 - |rest|, "", rest, false), |buf|)
  {
    assert "" + buf[3..3 + |rest|] == rest;
  }

  lemma ReadInOneTurn(buf: string, r: Reader, s: Reader)
    requires buf != "" && ReaderOk(r) && ReaderOk(s) && !r.ended && Turn(buf, 0, r) == Progress(s, |buf|)
    ensures ReadBuffer(r, buf) == s
  {
    OneTurn(buf, 0, r);
    BufferIsChunks(r, buf);
    assert ReadChunks(buf, |buf|, s) == s;
  }

  lemma MisreadData(rest: string)
    requires |rest| <= 90
    ensures ReadBuffer(Reader(0, "5", "", false), "a\r\n" + rest) == Reader(90 - |rest|, "", rest, false)
  {
    var buf, r := "a\r\n" + rest, Reader(0, "5", "", false);
    MisreadLine(buf, rest);
    TurnWithSize(buf, 0, r, 3, "5a", 90);
    MisreadCopy(buf, rest);
    ReadInOneTurn(buf, r, Reader(90 - |rest|, "", rest, false));
  }

  /** What was sent in those two segments is the chunk `hello` and the last chunk. */
  lemma CutExtensionWasValid()
    ensures BodyOk(More(";a", "hello", Last(""))) && Content(More(";a", "hello", Last(""))) == "hello"
    ensures "5;" + ("a\r\n" + "hello\r\n0\r\n\r\n") == Encode(More(";a", "hello", Last("")))
  {
    var last := Last("");
    LastChunkText();
    FirstLineText();
    assert "hello" + "" == "hello";
    assert Encode(More(";a", "hello", last)) == "5;a\r\n" + ("hello" + (CRLF + "0\r\n\r\n"));
  }

  lemma LastChunkText()
    ensures BodyOk(Last("")) && Content(Last("")) == "" && Encode(Last("")) == "0\r\n\r\n"
  {
    assert Line("", Hex(0), "") + CRLF == "0\r\n\r\n";
  }

  lemma FirstLineText()
    ensures Line("", Hex(5), ";a") == "5;a\r\n"
  {
  }

  // ----------------------------------------------------------- chunked, with a Content-Length

  /** A segment that ends with the first chunk, and that chunk as long as the Content-Length: the rest is lost. */
  lemma LengthLosesChunks(s: StatusLine, fields: seq<Field>, data: string, rest: Body)
    requires HeaderOk(s, fields) && Says(s, fields).chunked && 0 < Says(s, fields).contentLength <= |data|
    requires BodyOk(More("", data, rest)) && Content(rest) != ""
    ensures var first := HeaderText(s, fields) + (Line("", Hex(|data|), "") + data);
      && first + (CRLF + Encode(rest)) == HeaderText(s, fields) + Encode(More("", data, rest))
      && Respond([first, CRLF + Encode(rest)]).content == data != Content(More("", data, rest))
  {
    var b, header, line := More("", data, rest), HeaderText(s, fields), Line("", Hex(|data|), "");
    var first, second := header + (line + data), CRLF + Encode(rest);
    assert first + second == header + Encode(b);
    assert [first, second][1..] == [second] && [second][1..] == [];
    assert Concat([first, second]) == first + Concat([second]) == first + second;
    var pieces := [line + data, second];
    assert first[|header|..] == line + data;
    assert BodyPieces(|header|, [first, second]) == [first[|header|..]] + [second] == pieces;
    FirstChunkOnly(b, pieces, Says(s, fields).contentLength);
    ChunkedBodyIsRead([first, second], s, fields, b);
    assert Content(b)[..|data|] == data;
  }

  lemma {:induction false} FirstChunkOnly(b: Body, pieces: seq<string>, limit: int)
    requires b.More? && b.extension == "" && BodyOk(b) && |pieces| == 2 && 0 < limit <= |b.data|
    requires |pieces[0]| == |LineOf(b, "")| + |b.data| && pieces[1] != ""
    ensures SafeCuts(b, 0, pieces) && Stop(limit, DataOf(b), 0, pieces) == |b.data|
  {
    assert pieces[1..][1..] == [];
    assert SafeCuts(b, |pieces[0]|, pieces[1..]);
  }
}
