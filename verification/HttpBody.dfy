/** What `getHTTPResponse` makes of a stream, however the body is chunked and the stream is cut. */
module HttpBody {
  import opened HttpChunks
  import opened HttpPlaces
  import opened HttpPieces
  import opened HttpHeader

  /** The size of `buf`: one segment holds at most that much. */
  const BUFFER_SIZE := 2048

  /** What receivedata returned before its first result that is not positive. */
  ghost predicate SegmentsOk(segments: seq<string>) {
    forall k | 0 <= k < |segments| :: 0 < |segments[k]| <= BUFFER_SIZE
  }

  // ----------------------------------------------------------------------- one segment at a time

  datatype State = InHeader(buffer: string) | InBody(head: Head, reader: Reader) | Finished(head: Head, content: string)

  /** The returned buffer, empty for NULL, and the status code. */
  datatype Response = Response(content: string, status: int)

  const START_READER := Reader(0, "", "", false)

  ghost predicate StateOk(st: State) {
    st.InBody? ==> ReaderOk(st.reader) && BelowLength(st.head, st.reader.content)
  }

  /** The Content-Length, if there is one, is not reached yet. */
  ghost predicate BelowLength(head: Head, content: string) {
    head.contentLength > 0 ==> |content| < head.contentLength
  }

  ghost function AfterBuffer(head: Head, r: Reader): State {
    if head.contentLength > 0 && |r.content| >= head.contentLength then Finished(head, r.content) else InBody(head, r)
  }

  /** How many bytes of a buffer belong to a body that is not chunked. */
  ghost function Wanted(head: Head, content: string, buf: string): nat
    requires BelowLength(head, content)
  {
    if head.contentLength > 0 && |content| + |buf| > head.contentLength then head.contentLength - |content| else |buf|
  }

  ghost function ReadBody(head: Head, r: Reader, buf: string): (st: State)
    requires ReaderOk(r) && BelowLength(head, r.content)
    ensures StateOk(st)
  {
    if head.chunked then
      var s := ReadBuffer(r, buf);
      if s.ended then Finished(head, s.content) else AfterBuffer(head, s)
    else AfterBuffer(head, r.(content := r.content + buf[..Wanted(head, r.content, buf)]))
  }

  ghost function Receive(st: State, segment: string): (next: State)
    requires StateOk(st)
    ensures StateOk(next)
  {
    match st
    case InHeader(buffer) =>
      var h := buffer + segment;
      var end := HeaderEnd(h, 0);
      if end == 0 then InHeader(h) else ReadBody(ParseHeader(h, end), START_READER, h[end..])
    case InBody(head, reader) => ReadBody(head, reader, segment)
    case Finished(_, _) => st
  }

  ghost function ReceiveFrom(st: State, segments: seq<string>): (last: State)
    requires StateOk(st)
    ensures StateOk(last)
    decreases |segments|
  {
    if segments == [] then st else ReceiveFrom(Receive(st, segments[0]), segments[1..])
  }

  ghost function ResponseOf(st: State): Response {
    match st
    case InHeader(_) => Response("", -1)
    case InBody(head, reader) => Response(reader.content, head.status)
    case Finished(head, content) => Response(content, head.status)
  }

  ghost function Respond(segments: seq<string>): Response {
    ResponseOf(ReceiveFrom(InHeader(""), segments))
  }

  // ------------------------------------------------------------------------- body recovery

  lemma {:induction false} FinishedStays(st: State, segments: seq<string>)
    requires st.Finished?
    ensures ReceiveFrom(st, segments) == st
  {
    if segments != [] {
      FinishedStays(st, segments[1..]);
    }
  }

  /** No piece starts inside an extension, past its first character, with a hexadecimal digit. */
  ghost predicate SafeCuts(b: Body, pos: nat, pieces: seq<string>)
    decreases |pieces|
  {
    pieces != [] ==>
      && (pieces[0] != "" && InExtension(b, pos) ==> !IsHexDigit(pieces[0][0]))
      && SafeCuts(b, pos + |pieces[0]|, pieces[1..])
  }

  /** The reader, at a place of the encoding, with the pieces it is about to receive. */
  ghost predicate Awaits(b: Body, r: Reader, p: Place, pos: nat, pieces: seq<string>) {
    && BodyOk(b) && IsAt(r, p) && Reached(b, p, pos)
    && Concat(pieces) == Unread(p) && SafeCuts(b, pos, pieces)
  }

  lemma {:induction false} SomethingComes(b: Body, r: Reader, p: Place, pos: nat, pieces: seq<string>)
    requires Awaits(b, r, p, pos, pieces)
    ensures pieces != []
  {
    SomethingIsUnread(p);
  }

  /** The bytes up to `more` take a reader from one place to another, or to the end of the content. */
  ghost predicate Moves(b: Body, r: Reader, p: Place, pos: nat, more: string, s: Reader, q: Place)
    requires PlaceOk(p)
  {
    if s.ended then s.content == r.content + ToCome(p) && |more| <= 2
    else IsAt(s, q) && Reached(b, q, pos) && more == Unread(q) && s.content + ToCome(q) == r.content + ToCome(p)
  }

  /** A buffer is read from one place to another, unless it starts inside an extension with a digit. */
  lemma {:induction false} NextPlace(b: Body, r: Reader, p: Place, pos: nat, buf: string, more: string)
    returns (s: Reader, q: Place)
    requires IsAt(r, p) && Reached(b, p, pos) && buf + more == Unread(p)
    requires buf != "" && InExtension(b, pos) ==> !IsHexDigit(buf[0])
    ensures ReaderOk(r) && s == ReadBuffer(r, buf) && Moves(b, r, p, pos + |buf|, more, s, q)
  {
    PlaceAt(b, p, pos);
    assert buf[0..] == buf;
    q := BufferKeepsPlace(buf, 0, r, p, more);
    BufferIsChunks(r, buf);
    s := ReadBuffer(r, buf);
    assert |buf| + |more| == |Unread(p)|;
    if !s.ended {
      RestOfRest(q.body, p.body, b);
    }
  }

  /** One piece more: at the end of the content, or at the next place. */
  lemma {:induction false} NextPiece(b: Body, r: Reader, p: Place, pos: nat, pieces: seq<string>)
    returns (s: Reader, q: Place)
    requires Awaits(b, r, p, pos, pieces) && pieces != []
    ensures ReaderOk(r) && s == ReadBuffer(r, pieces[0])
    ensures s.ended ==> s.content == r.content + ToCome(p) && pos + |pieces[0]| + 2 >= |Encode(b)|
    ensures !s.ended ==>
      Awaits(b, s, q, pos + |pieces[0]|, pieces[1..]) && s.content + ToCome(q) == r.content + ToCome(p)
  {
    s, q := NextPlace(b, r, p, pos, pieces[0], Concat(pieces[1..]));
    assert |pieces[0]| + |Concat(pieces[1..])| == |Unread(p)|;
  }

  /** The reader is in step, with this content in all. */
  ghost predicate InTime(b: Body, r: Reader, pos: nat, pieces: seq<string>, content: string) {
    exists p :: Awaits(b, r, p, pos, pieces) && r.content + ToCome(p) == content
  }

  /** What one piece does to a reader in time: it completes the content, or leaves the reader in time. */
  ghost predicate PieceDone(b: Body, r: Reader, pos: nat, pieces: seq<string>, content: string, s: Reader) {
    && pieces != [] && ReaderOk(r) && s == ReadBuffer(r, pieces[0])
    && (s.ended ==> s.content == content && pos + |pieces[0]| + 2 >= |Encode(b)|)
    && (!s.ended ==> InTime(b, s, pos + |pieces[0]|, pieces[1..], content))
  }

  lemma {:induction false} OnePiece(b: Body, r: Reader, pos: nat, pieces: seq<string>, content: string)
    returns (s: Reader)
    requires InTime(b, r, pos, pieces, content)
    ensures PieceDone(b, r, pos, pieces, content, s)
  {
    var p :| Awaits(b, r, p, pos, pieces) && r.content + ToCome(p) == content;
    SomethingComes(b, r, p, pos, pieces);
    var q;
    s, q := NextPiece(b, r, p, pos, pieces);
  }

  lemma SameLength(a: string, b: string, c: string)
    requires a + b == c
    ensures |a| + |b| == |c|
  {
    assert |a + b| == |c|;
  }

  lemma {:induction false} InTimeLength(b: Body, r: Reader, pos: nat, pieces: seq<string>, content: string)
    requires InTime(b, r, pos, pieces, content) && |content| == |Content(b)|
    ensures |r.content| == DataOf(b)(pos)
  {
    var p :| Awaits(b, r, p, pos, pieces) && r.content + ToCome(p) == content;
    SameLength(r.content, ToCome(p), content);
    PlaceAt(b, p, pos);
  }

  /** How much content the first bytes of an encoding bring. */
  ghost function DataOf(b: Body): Count {
    (pos: nat) => DataIn(b, pos)
  }

  /** The loop over the bytes of a buffer. */
  ghost function Chunks(): Reading {
    (r: Reader, buf: string) => if ReaderOk(r) then ReadBuffer(r, buf) else r
  }

  ghost function InTimeFor(b: Body, content: string): Invariant {
    (r: Reader, pos: nat, pieces: seq<string>) => InTime(b, r, pos, pieces, content)
  }

  ghost function Is(content: string): Goal {
    (c: string) => c == content
  }

  lemma ChunksRead(r: Reader, buf: string)
    requires ReaderOk(r)
    ensures Chunks()(r, buf) == ReadBuffer(r, buf)
  {
  }

  lemma ItIs(c: string, content: string)
    requires c == content
    ensures Is(content)(c)
  {
  }

  lemma StillInTime(b: Body, content: string, r: Reader, pos: nat, pieces: seq<string>)
    requires InTime(b, r, pos, pieces, content)
    ensures InTimeFor(b, content)(r, pos, pieces)
  {
  }

  lemma {:induction false} EndCount(b: Body, pos: nat, n: nat)
    requires pos + 2 >= |Encode(b)| && n == |Content(b)|
    ensures DataOf(b)(pos) == n
  {
    AllDataIn(b, pos);
  }

  /** The content is complete when the reader says so. */
  lemma {:induction false} EndsInTime(b: Body, s: Reader, now: nat, content: string)
    requires s.content == content && now + 2 >= |Encode(b)| && |content| == |Content(b)|
    ensures |s.content| == DataOf(b)(now) && Is(content)(s.content)
  {
    EndCount(b, now, |content|);
    ItIs(s.content, content);
  }

  lemma {:induction false} GoesOnInTime(b: Body, s: Reader, now: nat, pieces: seq<string>, content: string)
    requires InTime(b, s, now, pieces, content) && |content| == |Content(b)|
    ensures |s.content| == DataOf(b)(now) && InTimeFor(b, content)(s, now, pieces)
  {
    InTimeLength(b, s, now, pieces, content);
    StillInTime(b, content, s, now, pieces);
  }

  lemma {:induction false} PieceCounts(b: Body, r: Reader, pos: nat, pieces: seq<string>, content: string, s: Reader,
                                      now: nat)
    requires PieceDone(b, r, pos, pieces, content, s) && now == pos + |pieces[0]| && |content| == |Content(b)|
    ensures |s.content| == DataOf(b)(now)
    ensures if s.ended then Is(content)(s.content) else InTimeFor(b, content)(s, now, pieces[1..])
  {
    if s.ended {
      EndsInTime(b, s, now, content);
    } else {
      GoesOnInTime(b, s, now, pieces[1..], content);
    }
  }

  lemma {:induction false} InTimeAdvances(b: Body, r: Reader, pos: nat, pieces: seq<string>, content: string)
    requires InTime(b, r, pos, pieces, content) && |content| == |Content(b)|
    ensures Advances(Chunks(), InTimeFor(b, content), DataOf(b), Is(content), r, pos, pieces)
  {
    var s := OnePiece(b, r, pos, pieces, content);
    PieceAdvances(b, r, pos, pieces, content, s, pos + |pieces[0]|);
  }

  lemma {:induction false} PieceAdvances(b: Body, r: Reader, pos: nat, pieces: seq<string>, content: string, s: Reader,
                                        now: nat)
    requires PieceDone(b, r, pos, pieces, content, s) && now == pos + |pieces[0]| && |content| == |Content(b)|
    ensures Advances(Chunks(), InTimeFor(b, content), DataOf(b), Is(content), r, pos, pieces)
  {
    PieceCounts(b, r, pos, pieces, content, s, now);
    ChunksRead(r, pieces[0]);
    AdvancesTo(Chunks(), InTimeFor(b, content), DataOf(b), Is(content), r, pos, pieces, s, now);
  }

  lemma {:induction false} ChunksOnlyAdd(buf: string, i: nat, r: Reader)
    requires i <= |buf| && ReaderOk(r)
    ensures r.content <= ReadChunks(buf, i, r).content
    decreases |buf| - i
  {
    if i < |buf| && !r.ended {
      var t := Turn(buf, i, r);
      OneTurn(buf, i, r);
      ChunksOnlyAdd(buf, t.next, t.reader);
    }
  }

  lemma ChunksReadingOnlyAdds()
    ensures OnlyAdds(Chunks())
  {
    forall r: Reader, buf: string
      ensures r.content <= Chunks()(r, buf).content
    {
      if ReaderOk(r) {
        ChunksOnlyAdd(buf, 0, r);
        BufferIsChunks(r, buf);
      }
    }
  }

  lemma {:induction false} DataGrowsToContent(b: Body)
    ensures GrowsTo(DataOf(b), |Content(b)|)
    ensures CompletesAtEnd(DataOf(b), Is(Content(b)))
  {
    forall m: nat, n: nat | m <= n
      ensures DataOf(b)(m) <= DataOf(b)(n) <= |Content(b)|
    {
      DataGrows(b, m, n);
    }
  }

  /** A chunked response is what the loop over the pieces keeps. */
  lemma {:induction false} KeptIsAnswered(head: Head, r: Reader, pieces: seq<string>)
    requires head.chunked && ReaderOk(r) && BelowLength(head, r.content) && pieces != []
    ensures ResponseOf(ReceiveFrom(ReadBody(head, r, pieces[0]), pieces[1..])) ==
      Response(Keep(Chunks(), head.contentLength, r, pieces).content, head.status)
    decreases |pieces|
  {
    var s := ReadBuffer(r, pieces[0]);
    if Over(head.contentLength, s) {
      FinishedStays(Finished(head, s.content), pieces[1..]);
    } else if pieces[1..] != [] {
      KeptIsAnswered(head, s, pieces[1..]);
    }
  }

  lemma {:induction false} ChunkedIsKept(limit: int, b: Body, pieces: seq<string>)
    requires BodyOk(b) && Concat(pieces) == Encode(b) && SafeCuts(b, 0, pieces)
    ensures var kept := Stop(limit, DataOf(b), 0, pieces);
      kept <= |Content(b)| && Keep(Chunks(), limit, START_READER, pieces).content == Content(b)[..kept]
  {
    var content := Content(b);
    var inv := InTimeFor(b, content);
    StartsInTime(b, pieces);
    forall r, pos, at | inv(r, pos, at)
      ensures Advances(Chunks(), inv, DataOf(b), Is(content), r, pos, at)
    {
      InTimeAdvances(b, r, pos, at, content);
    }
    ChunksReadingOnlyAdds();
    DataGrowsToContent(b);
    Kept(Chunks(), inv, DataOf(b), Is(content), limit, START_READER, 0, pieces);
  }

  lemma {:induction false} StartsInTime(b: Body, pieces: seq<string>)
    requires BodyOk(b) && Concat(pieces) == Encode(b) && SafeCuts(b, 0, pieces)
    ensures InTime(b, START_READER, 0, pieces, Content(b))
  {
    assert LineOf(b, "")[0..] == LineOf(b, "");
    assert "" + ToCome(InLine(b, "", 0)) == Content(b);
    assert Awaits(b, START_READER, InLine(b, "", 0), 0, pieces);
  }

  lemma {:induction false} SomethingIsUnread(p: Place)
    requires PlaceOk(p)
    ensures Unread(p) != ""
  {
  }

  /** What a Content-Length keeps of a body. */
  ghost function Limited(head: Head, body: string): string {
    if head.contentLength > 0 && |body| > head.contentLength then body[..head.contentLength] else body
  }

  lemma {:induction false} PlainFrom(head: Head, r: Reader, buf: string, segments: seq<string>)
    requires !head.chunked && BelowLength(head, r.content) && ReaderOk(r)
    ensures ResponseOf(ReceiveFrom(ReadBody(head, r, buf), segments)) ==
      Response(Limited(head, r.content + (buf + Concat(segments))), head.status)
    decreases segments
  {
    var content := r.content + buf[..Wanted(head, r.content, buf)];
    PlainStep(head, r.content, buf, Concat(segments));
    if head.contentLength > 0 && |content| >= head.contentLength {
      FinishedStays(Finished(head, content), segments);
    } else if segments == [] {
    } else {
      PlainFrom(head, r.(content := content), segments[0], segments[1..]);
    }
  }

  lemma PlainStep(head: Head, content: string, buf: string, more: string)
    requires BelowLength(head, content)
    ensures var now := content + buf[..Wanted(head, content, buf)];
      && (head.contentLength > 0 && |now| >= head.contentLength ==> Limited(head, content + (buf + more)) == now)
      && (BelowLength(head, now) ==> now + more == content + (buf + more))
      && (BelowLength(head, now) && more == "" ==> Limited(head, content + (buf + more)) == now)
  {
    var now := content + buf[..Wanted(head, content, buf)];
    var all := content + (buf + more);
    if BelowLength(head, now) {
      assert buf[..|buf|] == buf;
      assert now + more == all;
      if more == "" {
        assert all == now;
      }
    } else {
      assert all[..|now|] == now;
    }
  }

  /** What the segments bring of the body: the rest of the one that completes the header, then the others. */
  ghost function BodyPieces(skip: nat, segments: seq<string>): seq<string>
    decreases |segments|
  {
    if segments == [] then []
    else if skip <= |segments[0]| then [segments[0][skip..]] + segments[1..]
    else BodyPieces(skip - |segments[0]|, segments[1..])
  }

  lemma HeaderPrefix(header: string, body: string, h: string, more: string)
    requires header + body == h + more
    ensures header <= h <==> |header| <= |h|
    ensures header <= h ==> h[|header|..] + more == body
  {
    var stream := header + body;
    if |header| <= |h| {
      assert h[..|header|] == stream[..|header|] == header;
      assert h[|header|..] + more == stream[|header|..] == body;
    }
  }

  /** What a header says with the bytes behind it that are in the buffer already. */
  type Heads = string -> Head

  /** Where a reader stands once its header is in: at the body, with the pieces still to come. */
  ghost predicate ReachesBody(st: State, segments: seq<string>, says: Heads, pieces: seq<string>, body: string)
    requires StateOk(st)
  {
    && pieces != [] && Concat(pieces) == body
    && ReceiveFrom(st, segments) == ReceiveFrom(ReadBody(says(pieces[0]), START_READER, pieces[0]), pieces[1..])
  }

  /** A beginning of a response is a complete header exactly if it has all of the header. */
  ghost predicate IsHeaderOf(h: string, header: string, says: Heads) {
    if header <= h then HeaderEnd(h, 0) == |header| && ParseHeader(h, |header|) == says(h[|header|..])
    else HeaderEnd(h, 0) == 0
  }

  ghost predicate Introduces(header: string, says: Heads, body: string) {
    forall h | h <= header + body :: IsHeaderOf(h, header, says)
  }

  ghost function Saying(s: StatusLine, fields: seq<Field>): Heads {
    (more: string) => SaysBefore(s, fields, more)
  }

  lemma HeaderIntroduces(s: StatusLine, fields: seq<Field>, body: string)
    requires StatusOk(s) && FieldsOk(fields)
    ensures HeaderText(s, fields) != "" && Introduces(HeaderText(s, fields), Saying(s, fields), body)
  {
    var header := HeaderText(s, fields);
    HeaderIsNotEmpty(s, fields);
    forall h | h <= header + body
      ensures IsHeaderOf(h, header, Saying(s, fields))
    {
      HeaderIsFound(h, header + body, s, fields);
      if header <= h {
        HeaderIsParsedBefore(h, s, fields);
      }
    }
  }

  /** While the header is incomplete the segments only fill the header buffer; `skip` of it is missing. */
  lemma {:induction false} HeaderThenBody(
      b: string, skip: nat, segments: seq<string>, header: string, says: Heads, body: string)
    requires Introduces(header, says, body) && b + Concat(segments) == header + body
    requires |b| + skip == |header| && skip > 0
    ensures ReachesBody(InHeader(b), segments, says, BodyPieces(skip, segments), body)
    decreases |segments|
  {
    SomeSegments(b, segments, |header + body|);
    var h := NextHeaderBuffer(b, segments, header, body);
    assert IsHeaderOf(h, header, says);
    if |header| <= |h| {
      LeftInSegment(b, segments[0], |header|);
      BodyIsReached(b, skip, segments, says, header, body);
    } else {
      HeaderThenBody(h, skip - |segments[0]|, segments[1..], header, says, body);
      StaysInHeader(b, segments, says, BodyPieces(skip - |segments[0]|, segments[1..]), body);
    }
  }

  lemma StaysInHeader(b: string, segments: seq<string>, says: Heads, pieces: seq<string>, body: string)
    requires segments != [] && HeaderEnd(b + segments[0], 0) == 0
    requires ReachesBody(InHeader(b + segments[0]), segments[1..], says, pieces, body)
    ensures ReachesBody(InHeader(b), segments, says, pieces, body)
  {
  }

  lemma BodyIsReached(b: string, skip: nat, segments: seq<string>, says: Heads, header: string, body: string)
    requires segments != [] && |b| + skip == |header| <= |b + segments[0]|
    requires segments[0][skip..] + Concat(segments[1..]) == body
    requires Receive(InHeader(b), segments[0]) ==
      ReadBody(says(segments[0][skip..]), START_READER, segments[0][skip..])
    ensures ReachesBody(InHeader(b), segments, says, BodyPieces(skip, segments), body)
  {
    assert BodyPieces(skip, segments)[1..] == segments[1..];
  }

  lemma NextHeaderBuffer(b: string, segments: seq<string>, header: string, body: string) returns (h: string)
    requires segments != [] && b + Concat(segments) == header + body
    ensures h == b + segments[0] && h + Concat(segments[1..]) == header + body && h <= header + body
    ensures (header <= h <==> |header| <= |h|) && (header <= h ==> h[|header|..] + Concat(segments[1..]) == body)
  {
    h := b + segments[0];
    assert header + body == h + Concat(segments[1..]);
    HeaderPrefix(header, body, h, Concat(segments[1..]));
  }

  lemma SomeSegments(b: string, segments: seq<string>, n: nat)
    requires |b + Concat(segments)| == n && |b| < n
    ensures segments != []
  {
  }

  lemma LeftInSegment(b: string, segment: string, n: nat)
    requires |b| <= n <= |b + segment|
    ensures (b + segment)[n..] == segment[n - |b|..]
  {
  }

  /** The pieces in which a response body arrives. */
  ghost function PiecesOf(segments: seq<string>, s: StatusLine, fields: seq<Field>): seq<string> {
    BodyPieces(|HeaderText(s, fields)|, segments)
  }

  /**
   A chunked response, however it is cut outside the letters of its extensions: the reader keeps the
   content, or under a Content-Length what is in at the end of the first piece that reaches it.
   */
  lemma ChunkedBodyIsRead(segments: seq<string>, s: StatusLine, fields: seq<Field>, b: Body)
    requires HeaderOk(s, fields) && Says(s, fields).chunked && BodyOk(b)
    requires Concat(segments) == HeaderText(s, fields) + Encode(b) && SafeCuts(b, 0, PiecesOf(segments, s, fields))
    ensures var kept := Stop(Says(s, fields).contentLength, DataOf(b), 0, PiecesOf(segments, s, fields));
      kept <= |Content(b)| && Respond(segments) == Response(Content(b)[..kept], Says(s, fields).status)
  {
    var pieces := PiecesOf(segments, s, fields);
    HeaderIsPassed(segments, s, fields, Encode(b));
    KeptIsAnswered(Says(s, fields), START_READER, pieces);
    ChunkedIsKept(Says(s, fields).contentLength, b, pieces);
  }

  /**
   Once the header is in, the rest of that segment and the segments after it are read as the body. The
   header is parsed with the first of these behind it.
   */
  lemma HeaderIsPassedBefore(segments: seq<string>, s: StatusLine, fields: seq<Field>, body: string)
    requires StatusOk(s) && FieldsOk(fields) && Concat(segments) == HeaderText(s, fields) + body
    ensures var pieces := PiecesOf(segments, s, fields);
      && pieces != [] && Concat(pieces) == body
      && var head := SaysBefore(s, fields, pieces[0]);
         Respond(segments) == ResponseOf(ReceiveFrom(ReadBody(head, START_READER, pieces[0]), pieces[1..]))
  {
    HeaderIntroduces(s, fields, body);
    IntroductionIsPassed(segments, HeaderText(s, fields), Saying(s, fields), body);
  }

  lemma HeaderIsPassed(segments: seq<string>, s: StatusLine, fields: seq<Field>, body: string)
    requires HeaderOk(s, fields) && Concat(segments) == HeaderText(s, fields) + body
    ensures var pieces := PiecesOf(segments, s, fields);
      && pieces != [] && Concat(pieces) == body
      && Respond(segments) == ResponseOf(ReceiveFrom(ReadBody(Says(s, fields), START_READER, pieces[0]), pieces[1..]))
  {
    HeaderIsPassedBefore(segments, s, fields, body);
    ReadsAsSaid(Coded(s), fields, PiecesOf(segments, s, fields)[0]);
  }

  lemma NothingBefore(text: string)
    ensures "" + text == text
  {
  }

  lemma IntroductionIsPassed(segments: seq<string>, header: string, says: Heads, body: string)
    requires Introduces(header, says, body) && |header| > 0 && Concat(segments) == header + body
    ensures ReachesBody(InHeader(""), segments, says, BodyPieces(|header|, segments), body)
  {
    NothingBefore(Concat(segments));
    HeaderThenBody("", |header|, segments, header, says, body);
  }

  lemma RestOfFirst(first: string, more: string, skip: nat)
    requires skip <= |first + more|
    ensures (first + more)[skip..] == if skip <= |first| then first[skip..] + more else more[skip - |first|..]
  {
  }

  lemma {:induction false} FirstPieceHoldsBody(skip: nat, segments: seq<string>)
    requires segments != [] && skip <= |segments[0]|
    ensures Concat(BodyPieces(skip, segments)) == segments[0][skip..] + Concat(segments[1..])
  {
    var pieces := BodyPieces(skip, segments);
    assert pieces[0] == segments[0][skip..] && pieces[1..] == segments[1..];
  }

  lemma {:induction false} PiecesHoldBody(skip: nat, segments: seq<string>)
    requires skip <= |Concat(segments)| && segments != []
    ensures Concat(BodyPieces(skip, segments)) == Concat(segments)[skip..]
    decreases |segments|
  {
    RestOfFirst(segments[0], Concat(segments[1..]), skip);
    if skip <= |segments[0]| {
      FirstPieceHoldsBody(skip, segments);
    } else {
      PiecesHoldBody(skip - |segments[0]|, segments[1..]);
    }
  }

  lemma PiecesAreTheBody(segments: seq<string>, s: StatusLine, fields: seq<Field>, b: Body)
    requires Concat(segments) == HeaderText(s, fields) + Encode(b)
    ensures DataOf(b)(Length(PiecesOf(segments, s, fields))) == |Content(b)|
  {
    HeaderIsNotEmpty(s, fields);
    PiecesHoldBody(|HeaderText(s, fields)|, segments);
    AllDataIn(b, Length(PiecesOf(segments, s, fields)));
  }

  lemma {:induction false} PlainCutsAreSafe(chunks: seq<string>, pos: nat, pieces: seq<string>)
    ensures SafeCuts(Plain(chunks), pos, pieces)
    decreases |pieces|
  {
    if pieces != [] {
      NoExtensionInside(chunks, pos);
      PlainCutsAreSafe(chunks, pos + |pieces[0]|, pieces[1..]);
    }
  }

  /**
   For every header that says chunked and gives no positive Content-Length, every chunking and
   every way to cut the stream, the response is the content.
   */
  lemma ChunkedBodyIsRecovered(segments: seq<string>, s: StatusLine, fields: seq<Field>, chunks: seq<string>)
    requires HeaderOk(s, fields) && Says(s, fields).chunked && Says(s, fields).contentLength <= 0
    requires ChunksOk(chunks) && Concat(segments) == HeaderText(s, fields) + Encode(Plain(chunks))
    ensures Respond(segments) == Response(Concat(chunks), Says(s, fields).status)
  {
    var b := Plain(chunks);
    PlainIsOk(chunks);
    PlainCutsAreSafe(chunks, 0, PiecesOf(segments, s, fields));
    ExtensionsArePassedOver(segments, s, fields, b);
  }

  /** The same with extensions, if no segment starts inside one, past its first character, with a digit. */
  lemma ExtensionsArePassedOver(segments: seq<string>, s: StatusLine, fields: seq<Field>, b: Body)
    requires HeaderOk(s, fields) && Says(s, fields).chunked && Says(s, fields).contentLength <= 0
    requires BodyOk(b) && Concat(segments) == HeaderText(s, fields) + Encode(b)
    requires SafeCuts(b, 0, PiecesOf(segments, s, fields))
    ensures Respond(segments) == Response(Content(b), Says(s, fields).status)
  {
    ChunkedBodyIsRead(segments, s, fields, b);
    PiecesAreTheBody(segments, s, fields, b);
    StopWithoutLimit(Says(s, fields).contentLength, DataOf(b), 0, PiecesOf(segments, s, fields));
    assert Content(b)[..|Content(b)|] == Content(b);
  }

  // ------------------------------------------------------- chunked under a Content-Length

  /**
   Chunked and a Content-Length of N > 0: the reader heeds the length, where section 6.3 of RFC 9112
   has the coding override it. It returns a beginning of the content of at least N bytes, or all of it;
   and it returns the content exactly if no segment ends with N bytes in and more to come.
   */
  lemma LengthOverridesCoding(segments: seq<string>, s: StatusLine, fields: seq<Field>, b: Body)
    requires HeaderOk(s, fields) && Says(s, fields).chunked && Says(s, fields).contentLength > 0 && BodyOk(b)
    requires Concat(segments) == HeaderText(s, fields) + Encode(b) && SafeCuts(b, 0, PiecesOf(segments, s, fields))
    ensures var limit, pieces := Says(s, fields).contentLength, PiecesOf(segments, s, fields);
      var got := Respond(segments).content;
      && got <= Content(b) && (got != Content(b) ==> |got| >= limit)
      && (got == Content(b) <==> NoEarlyEnd(limit, DataOf(b), |Content(b)|, 0, pieces))
  {
    ChunkedBodyIsRead(segments, s, fields, b);
    PiecesAreTheBody(segments, s, fields, b);
    DataGrowsToContent(b);
    StopsAtEnd(Says(s, fields).contentLength, DataOf(b), |Content(b)|, 0, PiecesOf(segments, s, fields));
  }

  lemma HeaderIsNotEmpty(s: StatusLine, fields: seq<Field>)
    ensures |HeaderText(s, fields)| > 0
  {
  }

  /**
   For every header that does not say chunked, whatever its fields, every body and every way to cut the
   stream, the response is the body, or its first N bytes under a length of N > 0.
   */
  lemma PlainBodyIsRead(segments: seq<string>, s: StatusLine, fields: seq<Field>, body: string)
    requires StatusOk(s) && FieldsOk(fields) && Concat(segments) == HeaderText(s, fields) + body
    requires var pieces := PiecesOf(segments, s, fields);
      pieces == [] || !SaysBefore(s, fields, pieces[0]).chunked
    ensures var pieces := PiecesOf(segments, s, fields);
      && pieces != []
      && var head := SaysBefore(s, fields, pieces[0]);
         Respond(segments) == Response(Limited(head, body), head.status)
  {
    HeaderIsPassedBefore(segments, s, fields, body);
    var pieces := PiecesOf(segments, s, fields);
    PlainFrom(SaysBefore(s, fields, pieces[0]), START_READER, pieces[0], pieces[1..]);
    assert "" + (pieces[0] + Concat(pieces[1..])) == body;
  }

  /**
   For every other header, every body and every way to cut the stream, the response is the body,
   or its first N bytes under a Content-Length of N > 0.
   */
  lemma PlainBodyIsRecovered(segments: seq<string>, s: StatusLine, fields: seq<Field>, body: string)
    requires HeaderOk(s, fields) && !Says(s, fields).chunked
    requires Concat(segments) == HeaderText(s, fields) + body
    ensures Respond(segments) == Response(Limited(Says(s, fields), body), Says(s, fields).status)
  {
    var pieces := PiecesOf(segments, s, fields);
    if pieces != [] {
      ReadsAsSaid(Coded(s), fields, pieces[0]);
    }
    PlainBodyIsRead(segments, s, fields, body);
  }
}
