/**
 The chunked transfer coding: the encoder of the test server and the reader of `getHTTPResponse`,
 which sees the stream through a buffer that may end anywhere, even inside a size line.
 */
module HttpChunks {
  const CR := '\r'
  const LF := '\n'
  const CRLF: string := [CR, LF]

  /** Values of an unsigned int. */
  const TWO_TO_THE_32 := 0x1_0000_0000

  /** The digits `chunksize_buf` has room for, one byte being its terminator. */
  const MAX_DIGITS := 31

  // ---------------------------------------------------------------------------- hexadecimal

  predicate IsHexDigit(c: char) {
    '0' <= c <= '9' || 'a' <= c <= 'f' || 'A' <= c <= 'F'
  }

  function DigitValue(c: char): nat
    requires IsHexDigit(c)
  {
    if c <= '9' then c as int - '0' as int
    else if 'a' <= c then c as int - 'a' as int + 10
    else c as int - 'A' as int + 10
  }

  function HexDigit(d: nat): char
    requires d < 16
  {
    if d < 10 then '0' + d as char else 'a' + (d - 10) as char
  }

  /** What "%x" prints. */
  function Hex(n: nat): string {
    if n < 16 then [HexDigit(n)] else Hex(n / 16) + [HexDigit(n % 16)]
  }

  ghost predicate AllHex(s: string) {
    forall k | 0 <= k < |s| :: IsHexDigit(s[k])
  }

  /** The size that collected digits stand for, in 32-bit arithmetic. */
  ghost function SizeOf(digits: string): nat
    requires AllHex(digits)
  {
    if digits == "" then 0 else
      var last := |digits| - 1;
      (SizeOf(digits[..last]) * 16 + DigitValue(digits[last])) % TWO_TO_THE_32
  }

  lemma {:induction false} HexIsHex(n: nat)
    ensures AllHex(Hex(n)) && Hex(n) != ""
  {
    if n >= 16 {
      HexIsHex(n / 16);
    }
  }

  /** The reader's arithmetic undoes "%x" for every 32-bit size. */
  lemma {:induction false} SizeOfHex(n: nat)
    requires n < TWO_TO_THE_32
    ensures AllHex(Hex(n)) && SizeOf(Hex(n)) == n
  {
    HexIsHex(n);
    if n < 16 {
      assert Hex(n)[..0] == "";
    } else {
      SizeOfHex(n / 16);
      assert Hex(n)[..|Hex(n)| - 1] == Hex(n / 16);
    }
  }

  lemma {:induction false} HexLength(n: nat, k: nat, bound: nat)
    requires n < bound && bound == Power16(k) && k > 0
    ensures |Hex(n)| <= k
  {
    if n >= 16 {
      var less := Power16(k - 1);
      assert bound == less * 16;
      HexLength(n / 16, k - 1, less);
    }
  }

  ghost function Power16(k: nat): nat {
    if k == 0 then 1 else Power16(k - 1) * 16
  }

  lemma SizeLineFits(n: nat)
    requires n < TWO_TO_THE_32
    ensures 0 < |Hex(n)| <= 8 && AllHex(Hex(n))
  {
    HexIsHex(n);
    assert Power16(4) == 0x1_0000;
    assert Power16(8) == TWO_TO_THE_32;
    HexLength(n, 8, TWO_TO_THE_32);
  }

  // -------------------------------------------------------------------------------- encoder

  ghost function Concat(parts: seq<string>): string {
    if parts == [] then "" else parts[0] + Concat(parts[1..])
  }

  /** A chunked body: each chunk, and the last one of size zero, may have an extension. */
  datatype Body = Last(extension: string) | More(extension: string, data: string, rest: Body)

  /** The size of the next chunk; the last chunk has size zero. */
  ghost function NextSize(b: Body): nat {
    if b.Last? then 0 else |b.data|
  }

  /** A size line, after the CR LF that ends the data before it, if any. */
  ghost function Line(gap: string, hex: string, extension: string): (line: string)
    ensures |line| == |gap| + |hex| + |extension| + 2
  {
    gap + hex + extension + CRLF
  }

  /** What follows the next size line. */
  ghost function AfterSize(b: Body): string
    decreases b, 0
  {
    if b.Last? then CRLF else b.data + (CRLF + Encode(b.rest))
  }

  ghost function Encode(b: Body): string
    decreases b, 1
  {
    Line("", Hex(NextSize(b)), b.extension) + AfterSize(b)
  }

  /** What the body carries. */
  ghost function Content(b: Body): string {
    if b.Last? then "" else b.data + Content(b.rest)
  }

  /** An extension is set off from the digits and stays on the line. */
  ghost predicate ExtensionOk(extension: string) {
    && (extension != "" ==> !IsHexDigit(extension[0]))
    && forall k | 0 <= k < |extension| :: extension[k] != CR && extension[k] != LF
  }

  ghost predicate BodyOk(b: Body) {
    ExtensionOk(b.extension) && (b.More? ==> 0 < |b.data| < TWO_TO_THE_32 && BodyOk(b.rest))
  }

  /** The body of a list of chunks, without extensions. */
  ghost function Plain(chunks: seq<string>): Body {
    if chunks == [] then Last("") else More("", chunks[0], Plain(chunks[1..]))
  }

  ghost predicate ChunksOk(chunks: seq<string>) {
    forall k | 0 <= k < |chunks| :: 0 < |chunks[k]| < TWO_TO_THE_32
  }

  lemma {:induction false} PlainIsOk(chunks: seq<string>)
    requires ChunksOk(chunks)
    ensures BodyOk(Plain(chunks)) && Content(Plain(chunks)) == Concat(chunks)
  {
    if chunks != [] {
      PlainIsOk(chunks[1..]);
    }
  }

  // --------------------------------------------------------------------------------- reader

  /** The variables chunksize, chunksize_buf and content_buf; `ended` once the last chunk is met. */
  datatype Reader = Reader(size: nat, digits: string, content: string, ended: bool)

  /** How far a size line was read: the next index, the digits so far, whether its LF was met. */
  datatype SizeLine = SizeLine(next: nat, digits: string, complete: bool)

  datatype Progress = Progress(reader: Reader, next: nat)

  /** Skips one CR and one LF. */
  ghost function Lead(buf: string, i: nat): nat
    requires i < |buf|
  {
    var j := if buf[i] == CR then i + 1 else i;
    if j < |buf| && buf[j] == LF then j + 1 else j
  }

  ghost function DigitsEnd(buf: string, i: nat, room: nat): (j: nat)
    requires i <= |buf|
    ensures i <= j <= |buf| && j - i <= room && AllHex(buf[i..j])
    decreases room
  {
    if i < |buf| && IsHexDigit(buf[i]) && room > 0 then
      var j := DigitsEnd(buf, i + 1, room - 1);
      assert buf[i..j] == [buf[i]] + buf[i + 1..j];
      j
    else i
  }

  ghost function LineEnd(buf: string, i: nat): (j: nat)
    requires i <= |buf|
    ensures i <= j <= |buf| && (j < |buf| ==> buf[j] == CR || buf[j] == LF)
    decreases |buf| - i
  {
    if i < |buf| && buf[i] != CR && buf[i] != LF then LineEnd(buf, i + 1) else i
  }

  /** Skips a CR, then says whether a LF follows. */
  ghost function FinishLine(buf: string, i: nat, digits: string): SizeLine
    requires i <= |buf|
  {
    var j := if i < |buf| && buf[i] == CR then i + 1 else i;
    if j < |buf| && buf[j] == LF then SizeLine(j + 1, digits, true) else SizeLine(j, digits, false)
  }

  ghost function ReadSize(buf: string, i: nat, digits: string): (line: SizeLine)
    requires i < |buf| && |digits| <= MAX_DIGITS && AllHex(digits)
    ensures i < line.next <= |buf| && |line.digits| <= MAX_DIGITS && AllHex(line.digits)
  {
    ReadDigits(buf, if digits == "" then Lead(buf, i) else i, digits)
  }

  /** Collects digits, discards up to the line end and looks for CR LF there. */
  ghost function ReadDigits(buf: string, start: nat, digits: string): SizeLine
    requires start <= |buf| && |digits| <= MAX_DIGITS
  {
    var end := DigitsEnd(buf, start, MAX_DIGITS - |digits|);
    FinishLine(buf, LineEnd(buf, end), digits + buf[start..end])
  }

  ghost predicate ReaderOk(r: Reader) {
    |r.digits| <= MAX_DIGITS && AllHex(r.digits)
  }

  ghost function Copy(buf: string, i: nat, r: Reader): Progress
    requires i <= |buf|
  {
    var n := if r.size < |buf| - i then r.size else |buf| - i;
    Progress(r.(size := r.size - n, content := r.content + buf[i..i + n]), i + n)
  }

  /** One turn of the loop over the bytes of a buffer. */
  ghost function Turn(buf: string, i: nat, r: Reader): (p: Progress)
    requires i < |buf| && ReaderOk(r)
    ensures i < p.next <= |buf| && ReaderOk(p.reader)
  {
    if r.size > 0 then Copy(buf, i, r) else
      var line := ReadSize(buf, i, r.digits);
      if line.complete then StartChunk(buf, line.next, r, SizeOf(line.digits))
      else Progress(r.(digits := line.digits), line.next)
  }

  ghost function StartChunk(buf: string, i: nat, r: Reader, size: nat): Progress
    requires i <= |buf|
  {
    if size == 0 then Progress(r.(digits := "", ended := true), i)
    else Copy(buf, i, r.(size := size, digits := ""))
  }

  /** The loop over the bytes of a buffer, until its end or the last chunk. */
  ghost function ReadChunks(buf: string, i: nat, r: Reader): (result: Reader)
    requires i <= |buf| && ReaderOk(r)
    ensures ReaderOk(result)
    decreases |buf| - i, 0
  {
    if i == |buf| || r.ended then r else ReadFrom(buf, Turn(buf, i, r))
  }

  ghost function ReadFrom(buf: string, p: Progress): (result: Reader)
    requires p.next <= |buf| && ReaderOk(p.reader)
    ensures ReaderOk(result)
    decreases |buf| - p.next, 1
  {
    ReadChunks(buf, p.next, p.reader)
  }

  /** The reader after a whole buffer. */
  ghost function ReadBuffer(r: Reader, buf: string): (s: Reader)
    requires ReaderOk(r)
    ensures ReaderOk(s)
  {
    ReadFrom(buf, Progress(r, 0))
  }

  lemma BufferIsChunks(r: Reader, buf: string)
    requires ReaderOk(r)
    ensures ReadBuffer(r, buf) == ReadChunks(buf, 0, r)
  {
  }

  lemma OneTurn(buf: string, i: nat, r: Reader)
    requires i < |buf| && ReaderOk(r) && !r.ended
    ensures var p := Turn(buf, i, r); ReadChunks(buf, i, r) == ReadChunks(buf, p.next, p.reader)
  {
    assert ReadChunks(buf, i, r) == ReadFrom(buf, Turn(buf, i, r));
  }
}
