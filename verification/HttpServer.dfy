/**
 The test server of the HTTP reader: its response header, its chunked encoder,
 and its way of sending a response in pieces.
 */
module HttpServer {
  import opened HttpChunks
  import opened HttpHeader
  import opened HttpBody

  const OK_STATUS := StatusLine("HTTP/1.1", "200", "OK")
  const TEXT_FIELD := Field("Content-Type", " ", "text/plain")
  const CHUNKED_FIELD := Field("Transfer-Encoding", " ", "chunked")

  lemma ServerHeaderIsOk()
    ensures HeaderOk(OK_STATUS, [TEXT_FIELD, CHUNKED_FIELD])
    ensures Says(OK_STATUS, [TEXT_FIELD, CHUNKED_FIELD]) == Head(200, -1, true)
  {
    ServerFieldsAreOk();
    ServerStatusIsOk();
    TextIsPassedOver(Head(200, -1, false));
    ChunkedIsTold(Head(200, -1, false));
    TwoFields(Head(200, -1, false), TEXT_FIELD, CHUNKED_FIELD);
  }

  lemma TwoFields(head: Head, f: Field, g: Field)
    ensures ReadFields(head, [f, g]) == ReadField(ReadField(head, f.name, f.value), g.name, g.value)
  {
    assert [f, g][1..] == [g] && [g][1..] == [];
    assert ReadFields(ReadField(head, f.name, f.value), [g]) ==
      ReadField(ReadField(head, f.name, f.value), g.name, g.value);
  }

  lemma TextIsPassedOver(head: Head)
    ensures ReadField(head, TEXT_FIELD.name, TEXT_FIELD.value) == head
  {
    TypeIsPassedOver("Content-Type", "content-length");
    assert "Content-Type"[0] != "transfer-encoding"[0];
  }

  lemma ChunkedIsTold(head: Head)
    ensures ReadField(head, CHUNKED_FIELD.name, CHUNKED_FIELD.value) == head.(chunked := true)
  {
    CodingIsTold("Transfer-Encoding", "transfer-encoding");
    assert "Transfer-Encoding"[0] != "content-length"[0];
    assert EqualNoCase("chunked", "chunked", 7);
  }

  lemma ServerFieldsAreOk()
    ensures FieldOk(TEXT_FIELD) && FieldOk(CHUNKED_FIELD)
  {
    TypeIsLine();
    PrintedFieldIsOk("Content-Type", "text/plain");
    CodingIsLine();
    PrintedFieldIsOk("Transfer-Encoding", "chunked");
  }

  lemma PrintedFieldIsOk(name: string, value: string)
    requires IsLine(name) && ':' !in name && IsLine(value) && !IsSpace(value[0])
    ensures FieldOk(Field(name, " ", value))
  {
  }

  lemma TypeIsLine()
    ensures IsLine("Content-Type") && ':' !in "Content-Type" && IsLine("text/plain")
  {
  }

  lemma CodingIsLine()
    ensures IsLine("Transfer-Encoding") && ':' !in "Transfer-Encoding"
  {
    assert "Transfer-Encoding" == "Transfer" + "-Encoding";
  }

  lemma ServerStatusIsOk()
    ensures StatusOk(OK_STATUS) && LeadingDigits("200", 0) == 200
  {
    assert StatusText(OK_STATUS) == "HTTP/1.1 200 OK";
    assert LeadingDigits("0", 20) == LeadingDigits("", 200);
    assert LeadingDigits("00", 2) == LeadingDigits("0", 20);
    assert "200"[1..] == "00";
  }

  lemma TypeIsPassedOver(name: string, literal: string)
    requires name == "Content-Type" && literal == "content-length"
    ensures !EqualNoCase(name, literal, |name|)
  {
    NameIsAccepted(name, literal);
    assert name[8] == 'T' && literal[8] == 'l';
  }

  lemma CodingIsTold(name: string, literal: string)
    requires name == "Transfer-Encoding" && literal == "transfer-encoding"
    ensures EqualNoCase(name, literal, |name|)
  {
    assert name == "Transfer" + "-Encoding" && literal == "transfer" + "-encoding";
    TransferIsTold();
    EncodingIsTold();
    EqualPieces("Transfer", "-Encoding", "transfer", "-encoding");
  }

  lemma TransferIsTold()
    ensures EqualNoCase("Transfer", "transfer", 8)
  {
    NameIsAccepted("Transfer", "transfer");
  }

  lemma EncodingIsTold()
    ensures EqualNoCase("-Encoding", "-encoding", 9)
  {
    NameIsAccepted("-Encoding", "-encoding");
  }

  lemma {:induction false} EqualPieces(a: string, b: string, literalA: string, literalB: string)
    requires |a| == |literalA| && EqualNoCase(a, literalA, |a|) && EqualNoCase(b, literalB, |b|)
    ensures EqualNoCase(a + b, literalA + literalB, |a + b|)
  {
    if a == "" {
      assert a + b == b && literalA + literalB == literalB;
    } else {
      assert (a + b)[1..] == a[1..] + b && (literalA + literalB)[1..] == literalA[1..] + literalB;
      EqualPieces(a[1..], b, literalA[1..], literalB);
    }
  }

  /** The chunks written so far, without the last one. */
  ghost function Written(chunks: seq<string>): string {
    if chunks == [] then "" else
      var last := chunks[|chunks| - 1];
      Written(chunks[..|chunks| - 1]) + (Hex(|last|) + CRLF + last + CRLF)
  }

  lemma {:induction false} WrittenThenEncoded(chunks: seq<string>, rest: seq<string>)
    ensures Written(chunks) + Encode(Plain(rest)) == Encode(Plain(chunks + rest))
    decreases |chunks|
  {
    if chunks == [] {
      assert chunks + rest == rest;
    } else {
      var n := |chunks| - 1;
      var last := chunks[n];
      WrittenThenEncoded(chunks[..n], [last] + rest);
      assert chunks[..n] + ([last] + rest) == chunks + rest;
      OneChunk(last, rest);
      assert Written(chunks) + Encode(Plain(rest)) ==
        Written(chunks[..n]) + ((Hex(|last|) + CRLF + last + CRLF) + Encode(Plain(rest)));
    }
  }

  lemma OneChunk(c: string, rest: seq<string>)
    ensures (Hex(|c|) + CRLF + c + CRLF) + Encode(Plain(rest)) == Encode(Plain([c] + rest))
  {
    assert ([c] + rest)[1..] == rest;
    assert (Hex(|c|) + CRLF + c + CRLF) + Encode(Plain(rest)) ==
      ("" + Hex(|c|) + "" + CRLF) + (c + (CRLF + Encode(Plain(rest))));
  }

  lemma {:induction false} ConcatOneMore(parts: seq<string>, last: string)
    ensures Concat(parts + [last]) == Concat(parts) + last
  {
    if parts == [] {
      assert parts + [last] == [last];
    } else {
      assert (parts + [last])[1..] == parts[1..] + [last];
      ConcatOneMore(parts[1..], last);
    }
  }

  /** `build_chunked_response` on a given content; `rand` lists the results of rand(). */
  method BuildChunkedResponse(content: string, rand: nat -> nat) returns (response: string, ghost chunks: seq<string>)
    ensures ChunksOk(chunks) && Concat(chunks) == content
    ensures response == HeaderText(OK_STATUS, [TEXT_FIELD, CHUNKED_FIELD]) + Encode(Plain(chunks))
  {
    response := "HTTP/1.1 200 OK\r\n" + ("Content-Type: text/plain\r\n" + ("Transfer-Encoding: chunked\r\n" + "\r\n"));
    ServerHeaderText();
    ghost var header := response;
    chunks := [];
    var i, calls := 0, 0;
    assert header + "" == header;
    while i < |content|
      invariant i <= |content| && ChunksOk(chunks) && Concat(chunks) == content[..i]
      invariant response == header + Written(chunks)
    {
      var n := rand(calls) % 199 + 1;
      calls := calls + 1;
      if i + n > |content| {
        n := |content| - i;
      }
      response, chunks := AppendChunk(response, content, i, n, header, chunks);
      i := i + n;
    }
    assert content[..i] == content;
    response := response + "0\r\n\r\n";
    LastChunk(header, chunks);
  }

  /** One chunk more: its size line, its bytes and a CR LF. */
  method AppendChunk(before: string, content: string, i: nat, n: nat, ghost header: string, ghost chunks: seq<string>)
    returns (response: string, ghost more: seq<string>)
    requires 0 < n < TWO_TO_THE_32 && i + n <= |content|
    requires ChunksOk(chunks) && Concat(chunks) == content[..i] && before == header + Written(chunks)
    ensures ChunksOk(more) && Concat(more) == content[..i + n] && response == header + Written(more)
  {
    response := before + Hex(n) + CRLF;
    response := response + content[i..i + n];
    response := response + CRLF;
    more := chunks + [content[i..i + n]];
    NextChunk(content, i, n, chunks);
    WrittenOneMore(header, chunks, content[i..i + n]);
  }

  lemma NextChunk(content: string, i: nat, n: nat, chunks: seq<string>)
    requires i + n <= |content| && Concat(chunks) == content[..i]
    ensures Concat(chunks + [content[i..i + n]]) == content[..i + n]
  {
    ConcatOneMore(chunks, content[i..i + n]);
    assert content[..i] + content[i..i + n] == content[..i + n];
  }

  lemma WrittenOneMore(header: string, chunks: seq<string>, chunk: string)
    ensures header + Written(chunks + [chunk]) == header + Written(chunks) + Hex(|chunk|) + CRLF + chunk + CRLF
  {
    assert (chunks + [chunk])[..|chunks|] == chunks;
  }

  lemma LastChunk(header: string, chunks: seq<string>)
    ensures header + Written(chunks) + "0\r\n\r\n" == header + Encode(Plain(chunks))
  {
    WrittenThenEncoded(chunks, []);
    assert chunks + [] == chunks;
    NoMoreChunks();
    SameGroup(header, Written(chunks), "0\r\n\r\n");
  }

  lemma NoMoreChunks()
    ensures Encode(Plain([])) == "0\r\n\r\n"
  {
    assert "" + Hex(0) + "" + CRLF + CRLF == "0\r\n\r\n";
  }

  lemma SameGroup(a: string, b: string, c: string)
    ensures a + b + c == a + (b + c)
  {
  }

  lemma ServerHeaderText()
    ensures HeaderText(OK_STATUS, [TEXT_FIELD, CHUNKED_FIELD]) ==
      "HTTP/1.1 200 OK\r\n" + ("Content-Type: text/plain\r\n" + ("Transfer-Encoding: chunked\r\n" + "\r\n"))
  {
    var status, text, coding := StatusText(OK_STATUS), FieldLine(TEXT_FIELD), FieldLine(CHUNKED_FIELD);
    TwoLines(status, TEXT_FIELD, CHUNKED_FIELD);
    assert status + CRLF == "HTTP/1.1 200 OK\r\n";
    assert text + CRLF == "Content-Type: text/plain\r\n";
    assert coding + CRLF == "Transfer-Encoding: chunked\r\n";
    SameGroup(status, CRLF, text + (CRLF + (coding + (CRLF + CRLF))));
    SameGroup(text, CRLF, coding + (CRLF + CRLF));
    SameGroup(coding, CRLF, CRLF);
  }

  lemma TwoLines(status: string, f: Field, g: Field)
    ensures Block([status] + FieldLines([f, g])) ==
      status + (CRLF + (FieldLine(f) + (CRLF + (FieldLine(g) + (CRLF + CRLF)))))
  {
    assert [f, g][1..] == [g] && [g][1..] == [];
    assert FieldLines([g]) == [FieldLine(g)];
    assert FieldLines([f, g]) == [FieldLine(f), FieldLine(g)];
    var lines := [status] + FieldLines([f, g]);
    assert lines[1..] == [FieldLine(f), FieldLine(g)] && lines[1..][1..] == [FieldLine(g)];
    assert Block([FieldLine(g)]) == FieldLine(g) + (CRLF + CRLF);
  }

  lemma NextPiece(segments: seq<string>, rest: string, n: nat)
    requires n <= |rest|
    ensures Concat(segments + [rest[..n]]) + rest[n..] == Concat(segments) + rest
  {
    ConcatOneMore(segments, rest[..n]);
    SameGroup(Concat(segments), rest[..n], rest[n..]);
    assert rest[..n] + rest[n..] == rest;
  }

  /** `send_response`: pieces of 1 to 99 bytes, each taken whole by write(). */
  method SendResponse(buffer: string, rand: nat -> nat) returns (segments: seq<string>)
    ensures SegmentsOk(segments) && Concat(segments) == buffer
  {
    segments := [];
    var rest, calls := buffer, 0;
    while rest != ""
      invariant SegmentsOk(segments) && Concat(segments) + rest == buffer
      decreases |rest|
    {
      var n := rand(calls) % 99 + 1;
      calls := calls + 1;
      if n > |rest| {
        n := |rest|;
      }
      NextPiece(segments, rest, n);
      segments := segments + [rest[..n]];
      rest := rest[n..];
    }
  }
}
