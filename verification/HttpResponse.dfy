/**
 `getHTTPResponse`: the loops over header and body, proved against what `HttpBody` says of them, and the round
 trip with the test server.
 */
module HttpResponse {
  import opened HttpChunks
  import opened HttpHeader
  import opened HttpBody
  import opened HttpServer

  method FindHeaderEnd(h: string) returns (end: nat)
    ensures end == HeaderEnd(h, 0)
  {
    end := 0;
    var i := 0;
    while i + 1 < |h| && end == 0
      invariant end == 0 ==> HeaderEnd(h, 0) == HeaderEnd(h, i)
      invariant end > 0 ==> HeaderEnd(h, 0) == end
      decreases |h| - i
    {
      if h[i] == CR {
        i := i + 1;
        if h[i] == LF {
          i := i + 1;
          if i < |h| && h[i] == CR {
            i := i + 1;
            if i < |h| && h[i] == LF {
              end := i + 1;
            }
          }
        }
      } else if h[i] == LF {
        i := i + 1;
        if h[i] == LF {
          end := i + 1;
        }
      }
      i := i + 1;
    }
  }

  /** The loop over the header lines, up to `end`. */
  method ReadHeader(h: string, end: nat) returns (head: Head)
    requires end <= |h|
    ensures head == ParseHeader(h, end)
  {
    head := NO_HEAD;
    var lineStart: nat, colon: nat, valueStart: nat, i: nat := 0, 0, 0, 0;
    while i + 1 < end
      invariant ParserOk(h, Parser(lineStart, colon, valueStart, head))
      invariant ParseHeader(h, end) == Parse(h, end, Parser(lineStart, colon, valueStart, head), i)
      decreases end - i
    {
      if lineStart > 0 && colon <= lineStart && h[i] == ':' {
        colon := i;
        i := PassBlanks(h, i, end);
        valueStart := i + 1;
      } else if IsNewline(h[i]) {
        head := FinishHeaderLine(h, Parser(lineStart, colon, valueStart, head), i);
        i := PassNewlines(h, i);
        lineStart := i;
        colon := lineStart;
        valueStart := 0;
      }
      i := i + 1;
    }
  }

  method PassBlanks(h: string, from: nat, end: nat) returns (i: nat)
    requires from < end <= |h|
    ensures i == SkipBlanks(h, from, end)
  {
    i := from;
    while i + 1 < end && IsBlank(h[i + 1])
      invariant from <= i < end && SkipBlanks(h, from, end) == SkipBlanks(h, i, end)
    {
      i := i + 1;
    }
  }

  method PassNewlines(h: string, from: nat) returns (i: nat)
    requires from <= |h|
    ensures i == SkipNewlines(h, from)
  {
    i := from;
    while i < |h| && IsNewline(h[i])
      invariant from <= i <= |h| && SkipNewlines(h, from) == SkipNewlines(h, i)
    {
      i := i + 1;
    }
  }

  /** The status line, or a field if the line has a colon and a value. */
  method FinishHeaderLine(h: string, p: Parser, i: nat) returns (head: Head)
    requires i < |h| && ParserOk(h, p)
    ensures head == EndOfLine(h, p, i)
  {
    head := p.head;
    if p.lineStart == 0 {
      var status := ReadStatus(h, i, head.status);
      head := head.(status := status);
    } else if p.colon > p.lineStart && p.valueStart > p.colon {
      head := ReadField(head, h[p.lineStart..p.colon], h[p.valueStart..]);
    }
  }

  /** The loop over the spaces of the status line. */
  method ReadStatus(h: string, end: nat, before: int) returns (status: int)
    requires end <= |h|
    ensures status == StatusOf(h, 0, end, before)
  {
    status := before;
    var sp := 0;
    while sp < end
      invariant sp <= end && StatusOf(h, 0, end, before) == StatusOf(h, sp, end, status)
    {
      if h[sp] == ' ' {
        if status < 0 {
          status := Atoi(h[sp + 1..]);
        } else {
          break;
        }
      }
      sp := sp + 1;
    }
  }

  /** The digits of `chunksize_buf` as an unsigned int. */
  method ParseSize(digits: string) returns (size: nat)
    requires AllHex(digits)
    ensures size == SizeOf(digits)
  {
    size := 0;
    for j := 0 to |digits|
      invariant size == SizeOf(digits[..j])
    {
      assert digits[..j + 1][..j] == digits[..j];
      size := (size * 16 + DigitValue(digits[j])) % TWO_TO_THE_32;
    }
    assert digits[..|digits|] == digits;
  }

  /** The part of the loop that reads a chunk size. */
  method ReadSizeLine(buf: string, from: nat, before: string) returns (i: nat, digits: string, complete: bool)
    requires from < |buf| && |before| <= MAX_DIGITS && AllHex(before)
    ensures SizeLine(i, digits, complete) == ReadSize(buf, from, before)
  {
    i := from;
    if |before| == 0 {
      if buf[i] == CR { i := i + 1; }
      if i < |buf| && buf[i] == LF { i := i + 1; }
    }
    i, digits := CollectDigits(buf, i, before);
    i := SkipExtension(buf, i);
    i, complete := LeaveLine(buf, i, digits);
  }

  method LeaveLine(buf: string, from: nat, ghost digits: string) returns (i: nat, complete: bool)
    requires from <= |buf|
    ensures SizeLine(i, digits, complete) == FinishLine(buf, from, digits)
  {
    i := from;
    if i < |buf| && buf[i] == CR { i := i + 1; }
    complete := i < |buf| && buf[i] == LF;
    if complete { i := i + 1; }
  }

  method CollectDigits(buf: string, start: nat, before: string) returns (i: nat, digits: string)
    requires start <= |buf| && |before| <= MAX_DIGITS
    ensures i == DigitsEnd(buf, start, MAX_DIGITS - |before|) && digits == before + buf[start..i]
  {
    i, digits := start, before;
    assert before + buf[start..i] == before;
    while i < |buf| && IsHexDigit(buf[i]) && |digits| < MAX_DIGITS
      invariant start <= i <= |buf| && |digits| <= MAX_DIGITS && digits == before + buf[start..i]
      invariant DigitsEnd(buf, start, MAX_DIGITS - |before|) == DigitsEnd(buf, i, MAX_DIGITS - |digits|)
    {
      OneMoreDigit(before, buf, start, i);
      digits := digits + [buf[i]];
      i := i + 1;
    }
  }

  lemma OneMoreDigit(before: string, buf: string, start: nat, i: nat)
    requires start <= i < |buf|
    ensures before + buf[start..i] + [buf[i]] == before + buf[start..i + 1]
  {
    assert buf[start..i + 1] == buf[start..i] + [buf[i]];
  }

  method SkipExtension(buf: string, start: nat) returns (i: nat)
    requires start <= |buf|
    ensures i == LineEnd(buf, start)
  {
    i := start;
    while i < |buf| && buf[i] != CR && buf[i] != LF
      invariant start <= i <= |buf| && LineEnd(buf, start) == LineEnd(buf, i)
    {
      i := i + 1;
    }
  }

  /** One turn of the chunk loop: a size line unless data is due, then the data at hand. */
  method ChunkTurn(buf: string, from: nat, before: Reader) returns (r: Reader, i: nat)
    requires from < |buf| && ReaderOk(before) && !before.ended
    ensures Progress(r, i) == Turn(buf, from, before)
  {
    r, i := before, from;
    if r.size == 0 {
      var next, digits, complete := ReadSizeLine(buf, i, r.digits);
      i := next;
      if !complete {
        r := r.(digits := digits);
        return;
      }
      var size := ParseSize(digits);
      r := r.(size := size, digits := "");
      if size == 0 {
        r := r.(ended := true);
        return;
      }
    }
    var bytesToCopy := if r.size < |buf| - i then r.size else |buf| - i;
    r := r.(content := r.content + buf[i..i + bytesToCopy], size := r.size - bytesToCopy);
    i := i + bytesToCopy;
  }

  method ReadChunkBuffer(buf: string, before: Reader) returns (r: Reader)
    requires ReaderOk(before) && !before.ended
    ensures r == ReadBuffer(before, buf)
  {
    r := before;
    BufferIsChunks(before, buf);
    var i := 0;
    while i < |buf| && !r.ended
      invariant i <= |buf| && ReaderOk(r) && ReadChunks(buf, 0, before) == ReadChunks(buf, i, r)
      decreases |buf| - i
    {
      OneTurn(buf, i, r);
      r, i := ChunkTurn(buf, i, r);
    }
  }

  /** A body that is not chunked: the bytes of a buffer up to the Content-Length. */
  method ReadPlainBuffer(head: Head, buf: string, before: Reader) returns (r: Reader)
    requires BelowLength(head, before.content)
    ensures r == before.(content := before.content + buf[..Wanted(head, before.content, buf)])
  {
    var n := |buf|;
    if head.contentLength > 0 && |before.content| + n > head.contentLength {
      n := head.contentLength - |before.content|;
    }
    r := before.(content := before.content + buf[..n]);
  }

  /** getHTTPResponse over what the socket delivers. */
  method GetHTTPResponse(segments: seq<string>) returns (content: string, status: int)
    requires SegmentsOk(segments)
    ensures Response(content, status) == Respond(segments)
  {
    var headerBuf, head, r := "", NO_HEAD, START_READER;
    var endOfHeaders: nat := 0;
    var k, over := 0, false;
    ghost var st := InHeader("");
    while k < |segments| && !over
      invariant k <= |segments| && StateOk(st) && Respond(segments) == ResponseOf(ReceiveFrom(st, segments[k..]))
      invariant !over && endOfHeaders == 0 ==> st == InHeader(headerBuf) && HeaderEnd(headerBuf, 0) == 0
      invariant !over && endOfHeaders > 0 ==> st == InBody(head, r) && !r.ended
      invariant over ==> st == Finished(head, r.content)
      invariant endOfHeaders == 0 ==> head == NO_HEAD && r == START_READER && !over
      decreases |segments| - k, !over
    {
      var buf := segments[k];
      k := k + 1;
      st := Receive(st, buf);
      assert segments[k - 1..][1..] == segments[k..];
      if endOfHeaders == 0 {
        ghost var before := headerBuf;
        headerBuf := headerBuf + buf;
        endOfHeaders := FindHeaderEnd(headerBuf);
        if endOfHeaders > 0 {
          head := ReadHeader(headerBuf, endOfHeaders);
          LeftoverIsFromLastSegment(before, buf);
          buf := headerBuf[endOfHeaders..];
          assert |buf| <= BUFFER_SIZE;
          r, over := ReadBodyBuffer(head, r, buf);
        }
      } else {
        r, over := ReadBodyBuffer(head, r, buf);
      }
    }
    if over {
      FinishedStays(st, segments[k..]);
    } else {
      assert segments[k..] == [];
    }
    return r.content, head.status;
  }

  /** The content part of the loop, with the checks that end it. */
  method ReadBodyBuffer(head: Head, before: Reader, buf: string) returns (r: Reader, over: bool)
    requires ReaderOk(before) && !before.ended && BelowLength(head, before.content)
    ensures ReadBody(head, before, buf) == if over then Finished(head, r.content) else InBody(head, r)
    ensures !over ==> !r.ended
  {
    if head.chunked {
      r := ReadChunkBuffer(buf, before);
    } else {
      r := ReadPlainBuffer(head, buf, before);
    }
    over := r.ended || (head.contentLength > 0 && |r.content| >= head.contentLength);
  }

  /** The test of the library: the server's chunked response, sent in any pieces, is read back. */
  method ChunkedRoundTrip(content: string, chunkRand: nat -> nat, sendRand: nat -> nat)
    returns (received: string, status: int)
    ensures received == content && status == 200
  {
    var response, chunks := BuildChunkedResponse(content, chunkRand);
    var segments := SendResponse(response, sendRand);
    ServerHeaderIsOk();
    ChunkedBodyIsRecovered(segments, OK_STATUS, [TEXT_FIELD, CHUNKED_FIELD], chunks);
    received, status := GetHTTPResponse(segments);
  }
}
