/**
 A chunked response with a bad cut: a piece that starts inside an extension with a hexadecimal digit. What the
 reader takes for the size of that chunk, and when the response suffers.
 */
module HttpSpoilt {
  import opened HttpChunks
  import opened HttpPlaces
  import opened HttpExtensions
  import opened HttpPieces
  import opened HttpHeader
  import opened HttpBody

  // ------------------------------------------------------------------------- up to the bad cut

  /** The reader at a place of the encoding, with the pieces still to come, however they are cut. */
  ghost predicate Arrives(b: Body, r: Reader, p: Place, pos: nat, pieces: seq<string>) {
    BodyOk(b) && IsAt(r, p) && Reached(b, p, pos) && Concat(pieces) == Unread(p)
  }

  lemma FirstOfAll(safe: seq<string>, bad: seq<string>)
    requires safe != []
    ensures (safe + bad)[0] == safe[0] && (safe + bad)[1..] == safe[1..] + bad
    ensures Concat(safe + bad) == safe[0] + Concat(safe[1..] + bad)
  {
  }

  lemma {:induction false} ConcatBoth(safe: seq<string>, bad: seq<string>)
    ensures Concat(safe + bad) == Concat(safe) + Concat(bad)
    decreases |safe|
  {
    if safe == [] {
      assert safe + bad == bad;
    } else {
      FirstOfAll(safe, bad);
      ConcatBoth(safe[1..], bad);
    }
  }

  /** Where the safe pieces leave the reader. */
  ghost predicate Comes(b: Body, r: Reader, p: Place, pieces: seq<string>, s: Reader, q: Place, pos: nat,
                        bad: seq<string>)
    requires PlaceOk(p) && ReaderOk(r)
  {
    && Arrives(b, s, q, pos, bad) && s.content + ToCome(q) == r.content + ToCome(p)
    && Keep(Chunks(), 0, r, pieces) == Keep(Chunks(), 0, s, bad)
  }

  lemma {:induction false} KeepsReading(r: Reader, pieces: seq<string>)
    requires ReaderOk(r) && pieces != [] && !ReadBuffer(r, pieces[0]).ended
    ensures Keep(Chunks(), 0, r, pieces) == Keep(Chunks(), 0, ReadBuffer(r, pieces[0]), pieces[1..])
  {
    ChunksRead(r, pieces[0]);
  }

  /** Safe pieces, then others from `cut` on, still to be read. */
  ghost predicate Ahead(b: Body, r: Reader, p: Place, pos: nat, safe: seq<string>, bad: seq<string>, cut: nat) {
    && Arrives(b, r, p, pos, safe + bad) && StillSafe(b, pos, safe) && |Concat(bad)| > 2
    && cut == pos + |Concat(safe)|
  }

  /** These pieces are still safe. */
  ghost predicate StillSafe(b: Body, pos: nat, safe: seq<string>) {
    SafeCuts(b, pos, safe)
  }

  lemma SafeLater(b: Body, pos: nat, safe: seq<string>, next: nat)
    requires safe != [] && StillSafe(b, pos, safe) && next == pos + |safe[0]|
    ensures StillSafe(b, next, safe[1..])
  {
  }

  lemma LongerByFirst(safe: seq<string>)
    requires safe != []
    ensures |Concat(safe)| == |safe[0]| + |Concat(safe[1..])|
  {
  }

  lemma StillAhead(b: Body, t: Reader, q: Place, pos: nat, safe: seq<string>, bad: seq<string>, cut: nat, next: nat)
    requires safe != [] && Arrives(b, t, q, next, safe[1..] + bad) && StillSafe(b, pos, safe) && |Concat(bad)| > 2
    requires cut == pos + |Concat(safe)| && next == pos + |safe[0]|
    ensures Ahead(b, t, q, next, safe[1..], bad, cut)
  {
    SafeLater(b, pos, safe, next);
    LongerByFirst(safe);
  }

  lemma {:induction false} PiecePasses(b: Body, r: Reader, p: Place, pos: nat, safe: seq<string>, bad: seq<string>,
                                      cut: nat)
    returns (t: Reader, q: Place, next: nat)
    requires Ahead(b, r, p, pos, safe, bad, cut) && safe != []
    ensures ReaderOk(r) && ReaderOk(t) && Ahead(b, t, q, next, safe[1..], bad, cut)
    ensures t.content + ToCome(q) == r.content + ToCome(p)
    ensures Keep(Chunks(), 0, r, safe + bad) == Keep(Chunks(), 0, t, safe[1..] + bad)
  {
    FirstOfAll(safe, bad);
    ConcatBoth(safe[1..], bad);
    DigitsAtPlace(r, p);
    t, q := NextPlace(b, r, p, pos, safe[0], Concat(safe[1..] + bad));
    next := pos + |safe[0]|;
    StillAhead(b, t, q, pos, safe, bad, cut, next);
    KeepsReading(r, safe + bad);
  }

  lemma ComesFurther(b: Body, r: Reader, p: Place, pieces: seq<string>, t: Reader, at: Place, left: seq<string>,
                     s: Reader, q: Place, pos: nat, bad: seq<string>)
    requires PlaceOk(p) && PlaceOk(at) && ReaderOk(r) && ReaderOk(t) && t.content + ToCome(at) == r.content + ToCome(p)
    requires Keep(Chunks(), 0, r, pieces) == Keep(Chunks(), 0, t, left) && Comes(b, t, at, left, s, q, pos, bad)
    ensures Comes(b, r, p, pieces, s, q, pos, bad)
  {
  }

  lemma NoneSafe(safe: seq<string>, bad: seq<string>)
    requires safe == []
    ensures safe + bad == bad && Concat(safe) == ""
  {
  }

  lemma {:induction false} ComesAtOnce(b: Body, r: Reader, p: Place, pos: nat, safe: seq<string>, bad: seq<string>,
                                      cut: nat)
    requires Ahead(b, r, p, pos, safe, bad, cut) && safe == []
    ensures ReaderOk(r) && Comes(b, r, p, safe + bad, r, p, cut, bad)
  {
    NoneSafe(safe, bad);
    DigitsAtPlace(r, p);
  }

  lemma {:induction false} SafePiecesPass(b: Body, r: Reader, p: Place, pos: nat, safe: seq<string>, bad: seq<string>,
                                         cut: nat)
    returns (s: Reader, q: Place)
    requires Ahead(b, r, p, pos, safe, bad, cut)
    ensures ReaderOk(r) && Comes(b, r, p, safe + bad, s, q, cut, bad)
    decreases |safe|
  {
    if safe == [] {
      ComesAtOnce(b, r, p, pos, safe, bad, cut);
      s, q := r, p;
    } else {
      var t, at, next := PiecePasses(b, r, p, pos, safe, bad, cut);
      s, q := SafePiecesPass(b, t, at, next, safe[1..], bad, cut);
      ComesFurther(b, r, p, safe + bad, t, at, safe[1..] + bad, s, q, cut, bad);
    }
  }

  // ------------------------------------------------------------------------ a line gone wrong

  lemma {:induction false} BufferOnlyAdds(buf: string, i: nat, r: Reader, t: Progress)
    requires i < |buf| && ReaderOk(r) && !r.ended && t == Turn(buf, i, r)
    ensures t.reader.content <= ReadChunks(buf, i, r).content
  {
    OneTurn(buf, i, r);
    ChunksOnlyAdd(buf, t.next, t.reader);
  }

  /** What a piece adds stays in the response. */
  lemma {:induction false} PieceStays(r: Reader, pieces: seq<string>)
    requires ReaderOk(r) && pieces != []
    ensures ReadBuffer(r, pieces[0]).content <= Keep(Chunks(), 0, r, pieces).content
  {
    ChunksRead(r, pieces[0]);
    ChunksReadingOnlyAdds();
    KeepOnlyAdds(Chunks(), ReadBuffer(r, pieces[0]), pieces[1..]);
  }

  lemma BytesOfBoth(first: string, more: string, n: nat)
    requires n <= |first + more|
    ensures (first + more)[..n] == if n <= |first| then first[..n] else first + more[..n - |first|]
  {
  }

  lemma AddedBoth(content: string, first: string, more: string)
    ensures (content + first) + more == content + (first + more)
  {
  }

  /** Part of a chunk in a buffer of its own. */
  lemma {:induction false} DataBuffer(r: Reader, buf: string) returns (s: Reader)
    requires ReaderOk(r) && !r.ended && r.size > 0 && buf != ""
    ensures s == ReadBuffer(r, buf)
    ensures r.content + buf[..if r.size < |buf| then r.size else |buf|] <= s.content
    ensures |buf| < r.size ==> s == r.(size := r.size - |buf|, content := r.content + buf)
  {
    BufferIsChunks(r, buf);
    var t := Turn(buf, 0, r);
    OneTurn(buf, 0, r);
    BufferOnlyAdds(buf, 0, r, t);
    assert buf[0..|buf|] == buf;
    s := ReadBuffer(r, buf);
  }

  /** The bytes a chunk still lacks are taken for its data, whatever they are. */
  lemma {:induction false} DataIsTaken(r: Reader, pieces: seq<string>, n: nat)
    requires ReaderOk(r) && !r.ended && n <= r.size && n <= |Concat(pieces)| && NoneEmpty(pieces)
    ensures r.content + Concat(pieces)[..n] <= Keep(Chunks(), 0, r, pieces).content
    decreases |pieces|
  {
    if n == 0 {
      ChunksReadingOnlyAdds();
      KeepOnlyAdds(Chunks(), r, pieces);
    } else {
      var buf, more := pieces[0], Concat(pieces[1..]);
      BytesOfBoth(buf, more, n);
      var s := DataBuffer(r, buf);
      PieceStays(r, pieces);
      if n > |buf| {
        DataIsTaken(s, pieces[1..], n - |buf|);
        KeepsReading(r, pieces);
        AddedBoth(r.content, buf, more[..n - |buf|]);
      }
    }
  }

  /** The rest of a line with data behind it in the buffer: the line completes at its end. */
  lemma TailThenData(tail: string, data: string, digits: string)
    requires IsTail(tail) && digits != "" && |digits| <= MAX_DIGITS && AllHex(digits)
    ensures var line := ReadSize(tail + data, 0, digits);
      && line.complete && line.next == |tail| && digits <= line.digits
      && (IsHexDigit(tail[0]) && |digits| < MAX_DIGITS ==> |digits| < |line.digits|)
  {
    var buf := tail + data;
    assert forall k | 0 <= k < |tail| :: buf[k] == tail[k];
    var e := if |tail| == 1 then 0 else |tail| - 2;
    DigitsStopBefore(buf, MAX_DIGITS - |digits|, e);
    LineEndIs(buf, DigitsEnd(buf, 0, MAX_DIGITS - |digits|), e);
  }

  /** What comes of a line, and of what follows it, once wrong digits may be in. */
  ghost predicate Spoils(r: Reader, pieces: seq<string>, rest: string, n: nat)
    requires NoneEmpty(pieces) && ReaderOk(r)
  {
    var line := ReadPieces(pieces, r.digits);
    && line.complete && AllHex(line.digits) && r.digits <= line.digits
    && (Concat(pieces) != "" && IsHexDigit(Concat(pieces)[0]) && |r.digits| < MAX_DIGITS ==>
        |r.digits| < |line.digits|)
    && (SizeOf(line.digits) == 0 ==> Keep(Chunks(), 0, r, pieces).content == r.content)
    && (n <= |rest| && n <= SizeOf(line.digits) ==> r.content + rest[..n] <= Keep(Chunks(), 0, r, pieces).content)
  }

  /** The size the wrong digits stand for, and the bytes taken for data. */
  lemma {:induction false} LineAndData(r: Reader, tail: string, data: string) returns (s: Reader, size: nat)
    requires ReaderOk(r) && !r.ended && r.size == 0 && r.digits != "" && IsTail(tail)
    ensures var line := ReadSize(tail + data, 0, r.digits);
      && AllHex(line.digits) && size == SizeOf(line.digits)
    ensures s == ReadBuffer(r, tail + data)
    ensures size == 0 ==> s.ended && s.content == r.content
    ensures size > 0 ==> r.content + data[..if size < |data| then size else |data|] <= s.content
    ensures |data| < size ==> s == Reader(size - |data|, "", r.content + data, false)
  {
    var buf := tail + data;
    var line := ReadSize(buf, 0, r.digits);
    TailThenData(tail, data, r.digits);
    size := SizeOf(line.digits);
    TurnWithSize(buf, 0, r, |tail|, line.digits, size);
    DataStarts(r, tail, data, size);
    BufferIsChunks(r, buf);
    BufferOnlyAdds(buf, 0, r, Turn(buf, 0, r));
    OneTurn(buf, 0, r);
    s := ReadBuffer(r, buf);
  }

  lemma {:induction false} DataStarts(r: Reader, tail: string, data: string, size: nat)
    requires ReaderOk(r) && r.size == 0
    ensures var t := StartChunk(tail + data, |tail|, r, size);
      if size == 0 then t == Progress(r.(digits := "", ended := true), |tail|)
      else if |data| < size then
        t == Progress(Reader(size - |data|, "", r.content + data, r.ended), |tail + data|)
      else t.reader.content == r.content + data[..size]
  {
    var buf := tail + data;
    assert buf[|tail|..|tail| + |data|] == data;
    if size <= |data| {
      assert buf[|tail|..|tail| + size] == data[..size];
    }
  }

  /** The piece that has the end of the line. */
  lemma {:induction false} LastOfLine(r: Reader, pieces: seq<string>, tail: string, data: string, rest: string, n: nat)
    requires ReaderOk(r) && !r.ended && r.size == 0 && r.digits != "" && IsTail(tail) && NoneEmpty(pieces)
    requires pieces != [] && pieces[0] == tail + data && rest == data + Concat(pieces[1..]) && n <= |rest|
    ensures Spoils(r, pieces, rest, n)
  {
    TailThenData(tail, data, r.digits);
    var s, size := LineAndData(r, tail, data);
    ChunksRead(r, pieces[0]);
    assert ReadPieces(pieces, r.digits) == ReadSize(pieces[0], 0, r.digits);
    assert Concat(pieces)[0] == tail[0];
    if 0 < n <= size {
      BytesOfBoth(data, Concat(pieces[1..]), n);
      PieceStays(r, pieces);
      if n > |data| {
        DataIsTaken(s, pieces[1..], n - |data|);
        KeepsReading(r, pieces);
        AddedBoth(r.content, data, Concat(pieces[1..])[..n - |data|]);
      }
    } else if n == 0 {
      ChunksReadingOnlyAdds();
      KeepOnlyAdds(Chunks(), r, pieces);
      assert r.content + rest[..0] == r.content;
    }
  }

  /** A piece that ends before the line does. */
  lemma {:induction false} PartOfLine(r: Reader, buf: string, more: string) returns (s: Reader)
    requires ReaderOk(r) && !r.ended && r.size == 0 && r.digits != "" && buf != "" && more != "" && IsTail(buf + more)
    ensures var line := ReadSize(buf, 0, r.digits);
      && s == ReadBuffer(r, buf) == r.(digits := line.digits) && ReaderOk(s) && !line.complete && r.digits <= s.digits
      && (IsHexDigit(buf[0]) && |r.digits| < MAX_DIGITS ==> |r.digits| < |s.digits|)
  {
    TailPiece(buf, more, r.digits);
    var line := ReadSize(buf, 0, r.digits);
    TurnWithoutSize(buf, 0, r, |buf|, line.digits);
    BufferIsChunks(r, buf);
    OneTurn(buf, 0, r);
    s := ReadBuffer(r, buf);
  }

  lemma {:induction false} GoesOnSpoilt(r: Reader, s: Reader, pieces: seq<string>, rest: string, n: nat)
    requires pieces != [] && NoneEmpty(pieces) && ReaderOk(r) && !r.ended && s == ReadBuffer(r, pieces[0])
    requires ReadSize(pieces[0], 0, r.digits) == SizeLine(|pieces[0]|, s.digits, false) && r.digits <= s.digits
    requires IsHexDigit(pieces[0][0]) && |r.digits| < MAX_DIGITS ==> |r.digits| < |s.digits|
    requires !s.ended && s.content == r.content && ReaderOk(s) && Spoils(s, pieces[1..], rest, n)
    ensures Spoils(r, pieces, rest, n)
  {
    PiecePassed(pieces, r.digits, s.digits);
    KeepsReading(r, pieces);
    assert Concat(pieces)[0] == pieces[0][0];
  }

  lemma SplitTail(buf: string, more: string, tail: string, rest: string)
    requires buf + more == tail + rest
    ensures |buf| < |tail| ==> tail == buf + tail[|buf|..] && more == tail[|buf|..] + rest
    ensures |buf| >= |tail| ==> buf == tail + buf[|tail|..] && rest == buf[|tail|..] + more
  {
    var all := buf + more;
    if |buf| < |tail| {
      assert all[..|buf|] == buf && all[..|buf|] == tail[..|buf|];
      assert all[|buf|..] == more && all[|buf|..] == tail[|buf|..] + rest;
    } else {
      assert all[..|tail|] == tail && all[..|tail|] == buf[..|tail|];
      assert all[|tail|..] == rest && all[|tail|..] == buf[|tail|..] + more;
    }
  }

  lemma {:induction false} LineIsSpoilt(r: Reader, pieces: seq<string>, tail: string, rest: string, n: nat)
    requires ReaderOk(r) && !r.ended && r.size == 0 && r.digits != "" && IsTail(tail) && NoneEmpty(pieces)
    requires Concat(pieces) == tail + rest && n <= |rest|
    ensures Spoils(r, pieces, rest, n)
    decreases |pieces|
  {
    var buf, more := pieces[0], Concat(pieces[1..]);
    SplitTail(buf, more, tail, rest);
    if |buf| < |tail| {
      var s := PartOfLine(r, buf, tail[|buf|..]);
      RestIsTail(buf, tail[|buf|..]);
      TailPiece(buf, tail[|buf|..], r.digits);
      LineIsSpoilt(s, pieces[1..], tail[|buf|..], rest, n);
      GoesOnSpoilt(r, s, pieces, rest, n);
    } else {
      LastOfLine(r, pieces, tail, buf[|tail|..], rest, n);
    }
  }

  // -------------------------------------------------------------------- sizes of longer digits

  /** Digits that fit 32 bits stand for a number below a power of 16. */
  lemma {:induction false} SizeIsBounded(digits: string)
    requires AllHex(digits) && |digits| <= 8
    ensures SizeOf(digits) < Power16(|digits|) <= TWO_TO_THE_32
  {
    if digits != "" {
      var last := |digits| - 1;
      SizeIsBounded(digits[..last]);
      PowerOfEight(last);
      OneDigitMore(digits, last, Power16(last));
    }
  }

  lemma OneDigitMore(digits: string, last: nat, power: nat)
    requires AllHex(digits) && last + 1 == |digits|
    requires SizeOf(digits[..last]) < power && power * 16 <= TWO_TO_THE_32
    ensures SizeOf(digits) == SizeOf(digits[..last]) * 16 + DigitValue(digits[last]) < power * 16
  {
  }

  lemma PowerOfEight(k: nat)
    requires k < 8
    ensures Power16(k + 1) == Power16(k) * 16 <= TWO_TO_THE_32
  {
    assert Power16(0) == 1 && Power16(1) == 16 && Power16(2) == 0x100 && Power16(3) == 0x1000;
    assert Power16(4) == 0x1_0000 && Power16(5) == 0x10_0000 && Power16(6) == 0x100_0000;
    assert Power16(7) == 0x1000_0000 && Power16(8) == TWO_TO_THE_32;
  }

  lemma SizeOfOneMore(digits: string)
    requires AllHex(digits) && 0 < |digits| <= 8
    ensures var init := digits[..|digits| - 1];
      SizeOf(digits) == SizeOf(init) * 16 + DigitValue(digits[|digits| - 1])
  {
    var last := |digits| - 1;
    SizeIsBounded(digits[..last]);
    PowerOfEight(last);
  }

  /** More digits behind the size of a chunk with data make it larger. */
  lemma {:induction false} LongerIsLarger(hex: string, digits: string)
    requires AllHex(hex) && AllHex(digits) && hex <= digits && |hex| < |digits| <= 8
    ensures SizeOf(digits) >= 16 * SizeOf(hex)
    decreases |digits|
  {
    var init := digits[..|digits| - 1];
    SizeOfOneMore(digits);
    if |init| == |hex| {
      assert init == hex;
    } else {
      LongerIsLarger(hex, init);
    }
  }

  // ------------------------------------------------------------------------ the whole response

  /** The body from the chunk on whose extension the position is in. */
  ghost function ChunkAt(b: Body, pos: nat): Body
    requires InExtension(b, pos)
    decreases b
  {
    if pos < |LineOf(b, "")| then b else ChunkAt(b.rest, pos - |LineOf(b, "")| - |b.data| - 2)
  }

  lemma {:induction false} PlaceIsInChunk(b: Body, q: Place, pos: nat)
    requires Reached(b, q, pos) && InExtension(b, pos)
    ensures InsideExtension(q) && q.body == ChunkAt(b, pos)
    decreases b
  {
    PlaceAt(b, q, pos);
    EncodeLength(b);
    UnreadFits(b, q);
    if q.body != b {
      EncodeLength(b.rest);
      PlaceIsInChunk(b.rest, q, pos - |LineOf(b, "")| - |b.data| - 2);
    } else {
      EncodeLength(q.body);
    }
  }

  /** A bad cut: pieces read as they should be, then one that starts inside an extension with a digit. */
  ghost predicate BadCut(b: Body, pieces: seq<string>, safe: seq<string>, bad: seq<string>) {
    && pieces == safe + bad && SafeCuts(b, 0, safe) && NoneEmpty(bad) && bad != []
    && InExtension(b, |Concat(safe)|) && IsHexDigit(bad[0][0])
  }

  /** The digits the reader takes for the size of the chunk at a bad cut. */
  ghost function SizeRead(b: Body, safe: seq<string>, bad: seq<string>): string
    requires BodyOk(b) && NoneEmpty(bad) && InExtension(b, |Concat(safe)|)
  {
    var hex := Hex(NextSize(ChunkAt(b, |Concat(safe)|)));
    if |hex| <= MAX_DIGITS && AllHex(hex) then ReadPieces(bad, hex).digits else ""
  }

  lemma {:induction false} RoomInExtension(b: Body, pos: nat)
    requires InExtension(b, pos)
    ensures pos + 5 <= |Encode(b)|
    decreases b
  {
    EncodeLength(b);
    if pos >= |LineOf(b, "")| {
      RoomInExtension(b.rest, pos - |LineOf(b, "")| - |b.data| - 2);
    }
  }

  lemma TailOfLine(gap: string, hex: string, extension: string, at: nat)
    requires LineOk(gap, hex, extension) && |gap| + |hex| <= at < |Line(gap, hex, extension)|
    ensures IsTail(Line(gap, hex, extension)[at..])
  {
    LineLetters(gap, hex, extension);
  }

  /** The reader at a bad cut: it has the right digits, and the right content so far. */
  ghost predicate AtCut(b: Body, s: Reader, c: Body, tail: string, bad: seq<string>) {
    && BodyOk(c) && ReaderOk(s) && !s.ended && s.size == 0 && s.digits == Hex(NextSize(c)) != "" && |s.digits| <= 8
    && IsTail(tail) && Concat(bad) == tail + AfterSize(c) && s.content + Content(c) == Content(b)
  }

  lemma {:induction false} BadCutIsReached(b: Body, pieces: seq<string>, safe: seq<string>, bad: seq<string>)
    returns (s: Reader, tail: string)
    requires BodyOk(b) && Concat(pieces) == Encode(b) && BadCut(b, pieces, safe, bad)
    ensures AtCut(b, s, ChunkAt(b, |Concat(safe)|), tail, bad)
    ensures Keep(Chunks(), 0, START_READER, pieces) == Keep(Chunks(), 0, s, bad)
  {
    var p := InLine(b, "", 0);
    StartsAhead(b, pieces, safe, bad);
    var q;
    s, q := SafePiecesPass(b, START_READER, p, 0, safe, bad, |Concat(safe)|);
    PlaceIsInChunk(b, q, |Concat(safe)|);
    assert "" + ToCome(p) == Content(b);
    tail := LineOf(q.body, q.gap)[q.at..];
    CutIsInLine(b, s, q, bad);
  }

  lemma {:induction false} StartsAhead(b: Body, pieces: seq<string>, safe: seq<string>, bad: seq<string>)
    requires BodyOk(b) && Concat(pieces) == Encode(b) && BadCut(b, pieces, safe, bad)
    ensures Ahead(b, START_READER, InLine(b, "", 0), 0, safe, bad, |Concat(safe)|)
  {
    assert LineOf(b, "")[0..] == LineOf(b, "");
    ConcatBoth(safe, bad);
    RoomInExtension(b, |Concat(safe)|);
  }

  lemma {:induction false} CutIsInLine(b: Body, s: Reader, q: Place, bad: seq<string>)
    requires IsAt(s, q) && InsideExtension(q) && Concat(bad) == Unread(q) && s.content + ToCome(q) == Content(b)
    ensures AtCut(b, s, q.body, LineOf(q.body, q.gap)[q.at..], bad)
  {
    SizeLineIsOk(q.body, q.gap);
    TailOfLine(q.gap, Hex(NextSize(q.body)), q.body.extension, q.at);
    DigitsAtPlace(s, q);
  }

  /** The data of the chunk after this one starts with no CR. */
  ghost predicate NextStartsPlain(c: Body) {
    c.More? && c.rest.More? && c.rest.data != "" ==> c.rest.data[0] != CR
  }

  lemma {:induction false} ExtraByte(s: Reader, c: Body, content: string, got: string)
    requires BodyOk(c) && NextStartsPlain(c) && s.content + Content(c) == content
    requires NextSize(c) + 1 <= |AfterSize(c)| && s.content + AfterSize(c)[..NextSize(c) + 1] <= got
    ensures got != content
  {
    var n := NextSize(c);
    var k := |s.content| + n;
    var taken := s.content + AfterSize(c)[..n + 1];
    assert AfterSize(c)[n] == CR;
    assert taken[k] == CR && got[k] == taken[k];
    if k < |content| {
      assert content[k] == Content(c)[n] == Content(c.rest)[0] == c.rest.data[0];
    }
  }

  /** A size read too large adds at least the CR behind the chunk; a size of zero read for the last chunk is right. */
  lemma {:induction false} SpoiltContent(b: Body, pieces: seq<string>, safe: seq<string>, bad: seq<string>)
    requires BodyOk(b) && Concat(pieces) == Encode(b) && BadCut(b, pieces, safe, bad)
    ensures var c, digits := ChunkAt(b, |Concat(safe)|), SizeRead(b, safe, bad);
      var got := Keep(Chunks(), 0, START_READER, pieces).content;
      && AllHex(digits) && Hex(NextSize(c)) <= digits && |Hex(NextSize(c))| < |digits|
      && (SizeOf(digits) > NextSize(c) && NextStartsPlain(c) ==> got != Content(b))
      && (c.Last? && SizeOf(digits) == 0 ==> got == Content(b))
  {
    var c := ChunkAt(b, |Concat(safe)|);
    var s, tail := BadCutIsReached(b, pieces, safe, bad);
    var n := NextSize(c) + 1;
    LineIsSpoilt(s, bad, tail, AfterSize(c), n);
    assert Concat(bad)[0] == bad[0][0];
    var got := Keep(Chunks(), 0, s, bad).content;
    var digits := SizeRead(b, safe, bad);
    if SizeOf(digits) > NextSize(c) && NextStartsPlain(c) {
      ExtraByte(s, c, Content(b), got);
    }
    if c.Last? {
      assert s.content + "" == s.content;
    }
  }

  lemma {:induction false} KeepWithoutLimit(limit: int, r: Reader, pieces: seq<string>)
    requires limit <= 0
    ensures Keep(Chunks(), limit, r, pieces) == Keep(Chunks(), 0, r, pieces)
    decreases |pieces|
  {
    if pieces != [] {
      KeepWithoutLimit(limit, Chunks()(r, pieces[0]), pieces[1..]);
    }
  }

  /**
   A chunked response with a bad cut, whatever comes after it: if the digits read there fit 32 bits and the
   next chunk does not start with a CR, the response is the content exactly if those digits stand for the
   size of their chunk. That is the case only of the last chunk, followed by zeros.
   */
  lemma BadCutExactly(segments: seq<string>, s: StatusLine, fields: seq<Field>, b: Body, safe: seq<string>,
                      bad: seq<string>)
    requires HeaderOk(s, fields) && Says(s, fields).chunked && Says(s, fields).contentLength <= 0
    requires BodyOk(b) && Concat(segments) == HeaderText(s, fields) + Encode(b)
    requires BadCut(b, PiecesOf(segments, s, fields), safe, bad)
    requires |SizeRead(b, safe, bad)| <= 8 && NextStartsPlain(ChunkAt(b, |Concat(safe)|))
    ensures var c, digits := ChunkAt(b, |Concat(safe)|), SizeRead(b, safe, bad);
      && AllHex(digits)
      && (Respond(segments) == Response(Content(b), Says(s, fields).status) <==> SizeOf(digits) == NextSize(c))
      && (SizeOf(digits) == NextSize(c) ==> c.Last?)
  {
    var c, digits, pieces := ChunkAt(b, |Concat(safe)|), SizeRead(b, safe, bad), PiecesOf(segments, s, fields);
    HeaderIsPassed(segments, s, fields, Encode(b));
    KeptIsAnswered(Says(s, fields), START_READER, pieces);
    KeepWithoutLimit(Says(s, fields).contentLength, START_READER, pieces);
    SpoiltContent(b, pieces, safe, bad);
    SizesOrder(b, |Concat(safe)|, digits);
  }

  lemma {:induction false} SizesOrder(b: Body, pos: nat, digits: string)
    requires BodyOk(b) && InExtension(b, pos) && AllHex(digits) && |digits| <= 8
    requires var hex := Hex(NextSize(ChunkAt(b, pos))); hex <= digits && |hex| < |digits|
    ensures var n := NextSize(ChunkAt(b, pos));
      SizeOf(digits) >= n && (SizeOf(digits) == n ==> n == 0 && ChunkAt(b, pos).Last?)
  {
    ChunkIsOk(b, pos);
    var c := ChunkAt(b, pos);
    SizeLineIsOk(c, "");
    LongerIsLarger(Hex(NextSize(c)), digits);
  }

  lemma {:induction false} ChunkIsOk(b: Body, pos: nat)
    requires BodyOk(b) && InExtension(b, pos)
    ensures BodyOk(ChunkAt(b, pos))
    decreases b
  {
    if pos >= |LineOf(b, "")| {
      ChunkIsOk(b.rest, pos - |LineOf(b, "")| - |b.data| - 2);
    }
  }

  /** The first bad cut among pieces from a position on. */
  ghost predicate FirstBad(b: Body, pos: nat, pieces: seq<string>, safe: seq<string>, bad: seq<string>) {
    && pieces == safe + bad && SafeCuts(b, pos, safe) && NoneEmpty(bad) && bad != []
    && InExtension(b, pos + |Concat(safe)|) && IsHexDigit(bad[0][0])
  }

  lemma BadAtOnce(b: Body, pos: nat, pieces: seq<string>)
    requires pieces != [] && NoneEmpty(pieces[1..])
    requires pieces[0] != "" && InExtension(b, pos) && IsHexDigit(pieces[0][0])
    ensures FirstBad(b, pos, pieces, [], pieces)
  {
    assert forall k | 0 < k < |pieces| :: pieces[k] == pieces[1..][k - 1];
    assert [] + pieces == pieces;
  }

  lemma BadLater(b: Body, pos: nat, pieces: seq<string>, safe: seq<string>, bad: seq<string>)
    requires pieces != [] && FirstBad(b, pos + |pieces[0]|, pieces[1..], safe, bad)
    requires pieces[0] != "" && InExtension(b, pos) ==> !IsHexDigit(pieces[0][0])
    ensures FirstBad(b, pos, pieces, [pieces[0]] + safe, bad)
  {
    FirstInFront(pieces, safe, bad);
    SafeEarlier(b, pos, [pieces[0]] + safe);
  }

  lemma FirstInFront(pieces: seq<string>, safe: seq<string>, bad: seq<string>)
    requires pieces != [] && pieces[1..] == safe + bad
    ensures pieces == ([pieces[0]] + safe) + bad && ([pieces[0]] + safe)[1..] == safe
    ensures |Concat([pieces[0]] + safe)| == |pieces[0]| + |Concat(safe)|
  {
    assert pieces == [pieces[0]] + pieces[1..];
    assert ([pieces[0]] + safe)[1..] == safe;
  }

  lemma SafeEarlier(b: Body, pos: nat, safe: seq<string>)
    requires safe != [] && SafeCuts(b, pos + |safe[0]|, safe[1..])
    requires safe[0] != "" && InExtension(b, pos) ==> !IsHexDigit(safe[0][0])
    ensures SafeCuts(b, pos, safe)
  {
  }

  /** Cuts that are not all safe have a first bad one. */
  lemma {:induction false} FirstBadCut(b: Body, pos: nat, pieces: seq<string>)
    returns (safe: seq<string>, bad: seq<string>)
    requires !SafeCuts(b, pos, pieces) && NoneEmpty(pieces[1..])
    ensures FirstBad(b, pos, pieces, safe, bad)
    decreases |pieces|
  {
    if pieces[0] != "" && InExtension(b, pos) && IsHexDigit(pieces[0][0]) {
      BadAtOnce(b, pos, pieces);
      safe, bad := [], pieces;
    } else {
      var more;
      more, bad := FirstBadCut(b, pos + |pieces[0]|, pieces[1..]);
      BadLater(b, pos, pieces, more, bad);
      safe := [pieces[0]] + more;
    }
  }

  /** A bad cut decides whether the response is right, as long as the digits fit and no CR misleads. */
  ghost predicate Decides(right: bool, b: Body, safe: seq<string>, bad: seq<string>)
    requires BodyOk(b) && NoneEmpty(bad) && InExtension(b, |Concat(safe)|)
  {
    var c, digits := ChunkAt(b, |Concat(safe)|), SizeRead(b, safe, bad);
    AllHex(digits) && (|digits| <= 8 && NextStartsPlain(c) ==> (right <==> SizeOf(digits) == NextSize(c)))
  }

  lemma {:induction false} BadCutDecides(segments: seq<string>, s: StatusLine, fields: seq<Field>, b: Body,
                                        safe: seq<string>, bad: seq<string>)
    requires HeaderOk(s, fields) && Says(s, fields).chunked && Says(s, fields).contentLength <= 0
    requires BodyOk(b) && Concat(segments) == HeaderText(s, fields) + Encode(b)
    requires BadCut(b, PiecesOf(segments, s, fields), safe, bad)
    ensures Decides(Respond(segments) == Response(Content(b), Says(s, fields).status), b, safe, bad)
  {
    HeaderIsPassed(segments, s, fields, Encode(b));
    SpoiltContent(b, PiecesOf(segments, s, fields), safe, bad);
    if |SizeRead(b, safe, bad)| <= 8 && NextStartsPlain(ChunkAt(b, |Concat(safe)|)) {
      BadCutExactly(segments, s, fields, b, safe, bad);
    }
  }

  /**
   However a chunked response is cut: without a bad cut the response is the content, and with one, first bad
   as it is, the digits read there decide.
   */
  lemma ExtensionCutsExactly(segments: seq<string>, s: StatusLine, fields: seq<Field>, b: Body)
    returns (safe: seq<string>, bad: seq<string>)
    requires HeaderOk(s, fields) && Says(s, fields).chunked && Says(s, fields).contentLength <= 0
    requires BodyOk(b) && Concat(segments) == HeaderText(s, fields) + Encode(b) && NoneEmpty(segments)
    ensures var right := Respond(segments) == Response(Content(b), Says(s, fields).status);
      if SafeCuts(b, 0, PiecesOf(segments, s, fields)) then right
      else BadCut(b, PiecesOf(segments, s, fields), safe, bad) && Decides(right, b, safe, bad)
  {
    safe, bad := [], [];
    if SafeCuts(b, 0, PiecesOf(segments, s, fields)) {
      ExtensionsArePassedOver(segments, s, fields, b);
    } else {
      LaterPiecesAreSegments(|HeaderText(s, fields)|, segments);
      safe, bad := FirstBadCut(b, 0, PiecesOf(segments, s, fields));
      BadCutDecides(segments, s, fields, b, safe, bad);
    }
  }

  lemma {:induction false} LaterPiecesAreSegments(skip: nat, segments: seq<string>)
    requires NoneEmpty(segments)
    ensures BodyPieces(skip, segments) != [] ==> NoneEmpty(BodyPieces(skip, segments)[1..])
    decreases |segments|
  {
    if segments != [] {
      if skip <= |segments[0]| {
        assert BodyPieces(skip, segments)[1..] == segments[1..];
      } else {
        LaterPiecesAreSegments(skip - |segments[0]|, segments[1..]);
      }
    }
  }
}
