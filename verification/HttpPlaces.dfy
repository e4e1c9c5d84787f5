/**
 The reader of a chunked body in step with the encoding: wherever a buffer ends, even inside a size
 line, and what goes wrong if it ends inside a chunk extension.
 */
module HttpPlaces {
  import opened HttpChunks

  /**
   A place in an encoding: inside the data of the first chunk, or `at` bytes into its size line, which
   every chunk but the first of the stream has after a gap of CR LF.
   */
  datatype Place = InData(body: Body, left: nat) | InLine(body: Body, gap: string, at: nat)

  ghost predicate LineOk(gap: string, hex: string, extension: string) {
    (gap == "" || gap == CRLF) && 0 < |hex| <= 8 && AllHex(hex) && ExtensionOk(extension)
  }

  /** The size line of the next chunk. */
  ghost function LineOf(b: Body, gap: string): (line: string)
    ensures |line| == |gap| + |Hex(NextSize(b))| + |b.extension| + 2
  {
    Line(gap, Hex(NextSize(b)), b.extension)
  }

  ghost predicate PlaceOk(p: Place) {
    && BodyOk(p.body)
    && match p
       case InData(b, left) => b.More? && 0 < left <= |b.data|
       case InLine(b, gap, at) => (gap == "" || gap == CRLF) && at < |LineOf(b, gap)|
  }

  /** The bytes of the stream from a place on. */
  ghost function Unread(p: Place): string
    requires PlaceOk(p)
  {
    match p
    case InData(b, left) => b.data[|b.data| - left..] + (CRLF + Encode(b.rest))
    case InLine(b, gap, at) => LineOf(b, gap)[at..] + AfterSize(b)
  }

  /** The content still to come from a place on. */
  ghost function ToCome(p: Place): string
    requires PlaceOk(p)
  {
    match p
    case InData(b, left) => b.data[|b.data| - left..] + Content(b.rest)
    case InLine(b, gap, at) => Content(b)
  }

  /** The digits among the first `at` bytes of a size line. */
  ghost function DigitsBefore(gap: string, hex: string, at: nat): string {
    if at <= |gap| then "" else if at - |gap| <= |hex| then hex[..at - |gap|] else hex
  }

  ghost predicate IsAt(r: Reader, p: Place) {
    && PlaceOk(p) && !r.ended
    && match p
       case InData(b, left) => r.size == left && r.digits == ""
       case InLine(b, gap, at) => r.size == 0 && r.digits == DigitsBefore(gap, Hex(NextSize(b)), at)
  }

  /** Past the first character of an extension and before its end. */
  ghost predicate Inside(gap: string, hex: string, extension: string, at: nat) {
    |gap| + |hex| < at < |gap| + |hex| + |extension|
  }

  ghost predicate InsideExtension(p: Place) {
    p.InLine? && Inside(p.gap, Hex(NextSize(p.body)), p.body.extension, p.at)
  }

  /** Reading may go on here: the rest of an extension does not look like a digit. */
  ghost predicate Safe(p: Place, buf: string, i: nat) {
    i < |buf| && InsideExtension(p) ==> !IsHexDigit(buf[i])
  }

  // ---------------------------------------------------------------------------- one size line

  /** The buffer shows the line from position `at` on, as far as both go. */
  ghost predicate Shows(buf: string, i: nat, line: string, at: nat)
    requires i <= |buf| && at <= |line|
  {
    forall j | at <= j < |line| && i + (j - at) < |buf| :: line[j] == buf[i + (j - at)]
  }

  lemma ShowsNext(buf: string, i: nat, line: string, at: nat, step: nat)
    requires i + step <= |buf| && at + step <= |line| && Shows(buf, i, line, at)
    ensures Shows(buf, i + step, line, at + step)
  {
  }

  lemma LineLetters(gap: string, hex: string, extension: string)
    requires LineOk(gap, hex, extension)
    ensures var line := Line(gap, hex, extension); var d := |gap| + |hex|; var e := d + |extension|;
      && (forall k | 0 <= k < |gap| :: line[k] == gap[k])
      && (forall k | |gap| <= k < d :: line[k] == hex[k - |gap|] && IsHexDigit(line[k]))
      && (forall k | d <= k < e :: line[k] == extension[k - d] && line[k] != CR && line[k] != LF)
      && !IsHexDigit(line[d]) && line[e] == CR && line[e + 1] == LF
  {
  }

  /** The leading CR LF is skipped as far as the buffer shows it. */
  lemma LeadSkipsGap(buf: string, i: nat, gap: string, hex: string, extension: string, at: nat)
    requires i < |buf| && LineOk(gap, hex, extension) && at <= |gap|
    requires Shows(buf, i, Line(gap, hex, extension), at)
    ensures Lead(buf, i) == if |buf| - i < |gap| - at then |buf| else i + |gap| - at
  {
    var line := Line(gap, hex, extension);
    LineLetters(gap, hex, extension);
    assert buf[i] == line[at];
    if i + 1 < |buf| {
      assert buf[i + 1] == line[at + 1];
    }
    if i + 2 < |buf| && at == 0 && gap == CRLF {
      assert buf[i + 2] == line[at + 2];
    }
  }

  /** The buffer shows the line from a position behind its gap. */
  ghost predicate OnLine(buf: string, i: nat, gap: string, hex: string, extension: string, at: nat) {
    && i <= |buf| && LineOk(gap, hex, extension) && |gap| <= at < |Line(gap, hex, extension)|
    && Shows(buf, i, Line(gap, hex, extension), at)
  }

  /** The number of digits of a size line that the buffer shows. */
  ghost function DigitsShown(buf: string, i: nat, gap: string, hex: string, at: nat): nat
    requires i <= |buf|
  {
    if at >= |gap| + |hex| then 0 else if |buf| - i < |gap| + |hex| - at then |buf| - i else |gap| + |hex| - at
  }

  /** The digits of a size line are collected as far as the buffer shows them. */
  lemma {:induction false} DigitsAreRead(buf: string, i: nat, gap: string, hex: string, extension: string, at: nat,
                                         room: nat)
    requires OnLine(buf, i, gap, hex, extension, at) && room >= |gap| + |hex| - at
    requires i < |buf| && Inside(gap, hex, extension, at) ==> !IsHexDigit(buf[i])
    ensures DigitsEnd(buf, i, room) == i + DigitsShown(buf, i, gap, hex, at)
    decreases |buf| - i
  {
    if i < |buf| {
      LineLetters(gap, hex, extension);
      assert buf[i] == Line(gap, hex, extension)[at];
      if at < |gap| + |hex| {
        ShowsNext(buf, i, Line(gap, hex, extension), at, 1);
        DigitsAreRead(buf, i + 1, gap, hex, extension, at + 1, room - 1);
      }
    }
  }

  /** An extension is passed over as far as the buffer shows it. */
  lemma {:induction false} ExtensionIsSkipped(buf: string, i: nat, gap: string, hex: string, extension: string, at: nat)
    requires i <= |buf| && LineOk(gap, hex, extension) && |gap| + |hex| <= at <= |gap| + |hex| + |extension|
    requires Shows(buf, i, Line(gap, hex, extension), at)
    ensures var e := |gap| + |hex| + |extension|;
      LineEnd(buf, i) == if |buf| - i < e - at then |buf| else i + (e - at)
    decreases |buf| - i
  {
    if i < |buf| {
      LineLetters(gap, hex, extension);
      assert buf[i] == Line(gap, hex, extension)[at];
      if at < |gap| + |hex| + |extension| {
        ShowsNext(buf, i, Line(gap, hex, extension), at, 1);
        ExtensionIsSkipped(buf, i + 1, gap, hex, extension, at + 1);
      }
    }
  }

  /** Whether a buffer shows a size line to its end. */
  ghost predicate ShowsEnd(buf: string, i: nat, line: string, at: nat) {
    |line| - at <= |buf| - i
  }

  /** Where reading a size line stops, once its digits are collected. */
  ghost function Stopped(buf: string, i: nat, line: string, at: nat, digits: string): SizeLine
    requires i <= |buf| && at <= |line|
  {
    if ShowsEnd(buf, i, line, at) then SizeLine(i + |line| - at, digits, true) else SizeLine(|buf|, digits, false)
  }

  /** At the CR LF the line end is recognised as far as the buffer shows it. */
  lemma EndIsRecognised(buf: string, i: nat, gap: string, hex: string, extension: string, at: nat, digits: string)
    requires i <= |buf| && LineOk(gap, hex, extension)
    requires |gap| + |hex| + |extension| <= at < |Line(gap, hex, extension)|
    requires Shows(buf, i, Line(gap, hex, extension), at)
    ensures FinishLine(buf, LineEnd(buf, i), digits) == Stopped(buf, i, Line(gap, hex, extension), at, digits)
  {
    var line := Line(gap, hex, extension);
    LineLetters(gap, hex, extension);
    if i < |buf| {
      assert buf[i] == line[at];
    }
    if i + 1 < |buf| && at + 2 == |line| {
      assert buf[i + 1] == line[at + 1];
    }
  }

  /** Past the digits, the rest of the line is read as far as the buffer shows it. */
  lemma LineIsFinished(buf: string, i: nat, gap: string, hex: string, extension: string, at: nat, digits: string)
    requires i <= |buf| && LineOk(gap, hex, extension) && |gap| + |hex| <= at < |Line(gap, hex, extension)|
    requires Shows(buf, i, Line(gap, hex, extension), at)
    ensures FinishLine(buf, LineEnd(buf, i), digits) == Stopped(buf, i, Line(gap, hex, extension), at, digits)
  {
    var line, e := Line(gap, hex, extension), |gap| + |hex| + |extension|;
    if at < e {
      ExtensionIsSkipped(buf, i, gap, hex, extension, at);
      if |buf| - i >= e - at {
        ShowsNext(buf, i, line, at, e - at);
        EndIsRecognised(buf, i + (e - at), gap, hex, extension, e, digits);
        LineEndStays(buf, i);
      }
    } else {
      EndIsRecognised(buf, i, gap, hex, extension, at, digits);
    }
  }

  lemma LineEndStays(buf: string, i: nat)
    requires i <= |buf|
    ensures LineEnd(buf, LineEnd(buf, i)) == LineEnd(buf, i)
  {
  }

  lemma DigitsGrow(buf: string, i: nat, gap: string, hex: string, extension: string, at: nat, step: nat)
    requires OnLine(buf, i, gap, hex, extension, at) && i + step <= |buf|
    requires step > 0 ==> at + step <= |gap| + |hex|
    ensures DigitsBefore(gap, hex, at) + buf[i..i + step] == DigitsBefore(gap, hex, at + step)
  {
    if step == 0 {
      assert DigitsBefore(gap, hex, at) + buf[i..i] == DigitsBefore(gap, hex, at);
    } else {
      LineLetters(gap, hex, extension);
      forall j | i <= j < i + step
        ensures buf[j] == hex[at - |gap| + (j - i)]
      {
        assert buf[j] == Line(gap, hex, extension)[at + (j - i)];
      }
      assert hex[..at - |gap|] + buf[i..i + step] == hex[..at - |gap| + step];
    }
  }

  lemma DigitsAreShort(gap: string, hex: string, at: nat)
    requires |hex| <= 8 && AllHex(hex)
    ensures |DigitsBefore(gap, hex, at)| <= |hex| && AllHex(DigitsBefore(gap, hex, at))
    ensures hex != "" ==> (DigitsBefore(gap, hex, at) == "" <==> at <= |gap|)
  {
  }

  /** How far a size line is read: to its end if the buffer shows it all, else to the end of the buffer. */
  ghost function LineRead(buf: string, i: nat, gap: string, hex: string, extension: string, at: nat): SizeLine
    requires i <= |buf| && at < |Line(gap, hex, extension)|
  {
    var line := Line(gap, hex, extension);
    Stopped(buf, i, line, at, if ShowsEnd(buf, i, line, at) then hex else DigitsBefore(gap, hex, at + |buf| - i))
  }

  lemma LineAfterDigits(buf: string, i: nat, gap: string, hex: string, extension: string, at: nat, step: nat)
    requires OnLine(buf, i, gap, hex, extension, at) && step == DigitsShown(buf, i, gap, hex, at)
    ensures FinishLine(buf, LineEnd(buf, i + step), DigitsBefore(gap, hex, at + step)) ==
      LineRead(buf, i, gap, hex, extension, at)
  {
    if at + step >= |gap| + |hex| {
      ShowsNext(buf, i, Line(gap, hex, extension), at, step);
      LineIsFinished(buf, i + step, gap, hex, extension, at + step, DigitsBefore(gap, hex, at + step));
      assert hex[..|hex|] == hex;
    }
  }

  lemma DigitsAreCollected(buf: string, i: nat, gap: string, hex: string, extension: string, at: nat)
    requires OnLine(buf, i, gap, hex, extension, at)
    requires i < |buf| && Inside(gap, hex, extension, at) ==> !IsHexDigit(buf[i])
    ensures |DigitsBefore(gap, hex, at)| <= MAX_DIGITS
    ensures ReadDigits(buf, i, DigitsBefore(gap, hex, at)) == LineRead(buf, i, gap, hex, extension, at)
  {
    var step := DigitsShown(buf, i, gap, hex, at);
    DigitsComeFirst(buf, i, gap, hex, extension, at, step);
    LineAfterDigits(buf, i, gap, hex, extension, at, step);
  }

  lemma DigitsComeFirst(buf: string, i: nat, gap: string, hex: string, extension: string, at: nat, step: nat)
    requires OnLine(buf, i, gap, hex, extension, at) && step == DigitsShown(buf, i, gap, hex, at)
    requires i < |buf| && Inside(gap, hex, extension, at) ==> !IsHexDigit(buf[i])
    ensures |DigitsBefore(gap, hex, at)| <= MAX_DIGITS && i + step <= |buf|
    ensures ReadDigits(buf, i, DigitsBefore(gap, hex, at)) ==
      FinishLine(buf, LineEnd(buf, i + step), DigitsBefore(gap, hex, at + step))
  {
    ThereIsRoom(buf, i, gap, hex, extension, at);
    var digits := DigitsBefore(gap, hex, at);
    DigitsAreRead(buf, i, gap, hex, extension, at, MAX_DIGITS - |digits|);
    DigitsGrow(buf, i, gap, hex, extension, at, step);
    DigitsThenEnd(buf, i, digits, i + step, DigitsBefore(gap, hex, at + step));
  }

  lemma ThereIsRoom(buf: string, i: nat, gap: string, hex: string, extension: string, at: nat)
    requires OnLine(buf, i, gap, hex, extension, at)
    ensures |DigitsBefore(gap, hex, at)| <= MAX_DIGITS
    ensures MAX_DIGITS - |DigitsBefore(gap, hex, at)| >= |gap| + |hex| - at
  {
    DigitsAreShort(gap, hex, at);
  }

  lemma DigitsThenEnd(buf: string, i: nat, digits: string, end: nat, after: string)
    requires i <= |buf| && |digits| <= MAX_DIGITS && DigitsEnd(buf, i, MAX_DIGITS - |digits|) == end
    requires digits + buf[i..end] == after
    ensures ReadDigits(buf, i, digits) == FinishLine(buf, LineEnd(buf, end), after)
  {
  }

  lemma NothingLeft(buf: string, digits: string)
    requires |digits| <= MAX_DIGITS
    ensures ReadDigits(buf, |buf|, digits) == SizeLine(|buf|, digits, false)
  {
    assert digits + buf[|buf|..|buf|] == digits;
  }

  /** Starting later in the buffer and in the line by the same step ends at the same place. */
  lemma LaterStart(buf: string, i: nat, gap: string, hex: string, extension: string, at: nat, j: nat, later: nat)
    requires i <= j <= |buf| && later < |Line(gap, hex, extension)| && j - i == later - at
    ensures LineRead(buf, j, gap, hex, extension, later) == LineRead(buf, i, gap, hex, extension, at)
  {
  }

  lemma GapThenDigits(buf: string, i: nat, gap: string, hex: string, extension: string, at: nat)
    requires i < |buf| && LineOk(gap, hex, extension) && at <= |gap| && |gap| - at <= |buf| - i
    requires Shows(buf, i, Line(gap, hex, extension), at)
    ensures ReadSize(buf, i, "") == LineRead(buf, i, gap, hex, extension, at)
  {
    var j := i + |gap| - at;
    LeadSkipsGap(buf, i, gap, hex, extension, at);
    GapIsPassed(buf, i, gap, hex, extension, at, j);
    DigitsFromGap(buf, j, gap, hex, extension);
    LaterStart(buf, i, gap, hex, extension, at, j, |gap|);
  }

  lemma DigitsFromGap(buf: string, i: nat, gap: string, hex: string, extension: string)
    requires OnLine(buf, i, gap, hex, extension, |gap|)
    ensures ReadDigits(buf, i, "") == LineRead(buf, i, gap, hex, extension, |gap|)
  {
    DigitsAreCollected(buf, i, gap, hex, extension, |gap|);
  }

  lemma GapIsPassed(buf: string, i: nat, gap: string, hex: string, extension: string, at: nat, j: nat)
    requires i < |buf| && LineOk(gap, hex, extension) && at <= |gap| && |gap| - at <= |buf| - i
    requires Shows(buf, i, Line(gap, hex, extension), at)
    requires j == i + |gap| - at
    ensures OnLine(buf, j, gap, hex, extension, |gap|)
  {
    ShowsNext(buf, i, Line(gap, hex, extension), at, |gap| - at);
  }

  /** From any position of a size line, reading goes to its end or to the end of the buffer. */
  lemma SizeLineIsRead(buf: string, i: nat, gap: string, hex: string, extension: string, at: nat)
    requires i < |buf| && LineOk(gap, hex, extension) && at < |Line(gap, hex, extension)|
    requires Shows(buf, i, Line(gap, hex, extension), at)
    requires Inside(gap, hex, extension, at) ==> !IsHexDigit(buf[i])
    ensures |DigitsBefore(gap, hex, at)| <= MAX_DIGITS && AllHex(DigitsBefore(gap, hex, at))
    ensures ReadSize(buf, i, DigitsBefore(gap, hex, at)) == LineRead(buf, i, gap, hex, extension, at)
  {
    DigitsAreShort(gap, hex, at);
    if at > |gap| {
      DigitsAreCollected(buf, i, gap, hex, extension, at);
    } else if |buf| - i < |gap| - at {
      LeadSkipsGap(buf, i, gap, hex, extension, at);
      NothingLeft(buf, "");
    } else {
      GapThenDigits(buf, i, gap, hex, extension, at);
    }
  }

  // ------------------------------------------------------------------------------- chunk data

  /** Where a reader stands after copying part of a chunk. */
  ghost function AfterData(b: Body, left: nat): Place
    requires b.More?
  {
    if left == 0 then InLine(b.rest, CRLF, 0) else InData(b, left)
  }

  lemma {:induction false} NextLine(b: Body)
    ensures LineOf(b, CRLF)[0..] + AfterSize(b) == CRLF + Encode(b)
  {
    var hex, rest := Hex(NextSize(b)), AfterSize(b);
    assert (CRLF + hex + b.extension + CRLF)[0..] + rest == CRLF + (("" + hex + b.extension + CRLF) + rest);
  }

  /** At that place all but the last `left` bytes of the chunk are read. */
  ghost predicate LeavesOff(p: Place, b: Body, left: nat)
    requires b.More? && left <= |b.data|
  {
    var data := b.data[|b.data| - left..];
    PlaceOk(p) && Unread(p) == data + (CRLF + Encode(b.rest)) && ToCome(p) == data + Content(b.rest)
  }

  lemma {:induction false} AfterDataOk(b: Body, left: nat)
    requires BodyOk(b) && b.More? && left <= |b.data|
    ensures LeavesOff(AfterData(b, left), b, left)
  {
    if left == 0 {
      AfterAllData(b);
    } else {
      AfterSomeData(b, left);
    }
  }

  lemma {:induction false} AfterSomeData(b: Body, left: nat)
    requires BodyOk(b) && b.More? && 0 < left <= |b.data|
    ensures LeavesOff(InData(b, left), b, left)
  {
  }

  lemma {:induction false} AfterAllData(b: Body)
    requires BodyOk(b) && b.More?
    ensures LeavesOff(InLine(b.rest, CRLF, 0), b, 0)
  {
    NextLine(b.rest);
    NoData(b.data, CRLF + Encode(b.rest));
    NoData(b.data, Content(b.rest));
  }

  lemma NoData(data: string, rest: string)
    ensures data[|data|..] + rest == rest
  {
  }

  /** Two ways to split a stream agree on any bytes both have in front. */
  lemma SameBytes(buf: string, i: nat, more: string, data: string, from: nat, rest: string, n: nat)
    requires i + n <= |buf| && from + n <= |data| && buf[i..] + more == data[from..] + rest
    ensures buf[i..i + n] == data[from..from + n] && buf[i + n..] + more == data[from + n..] + rest
  {
    var stream := buf[i..] + more;
    assert stream[..n] == buf[i..i + n] && stream[..n] == data[from..from + n];
    assert stream[n..] == buf[i + n..] + more && stream[n..] == data[from + n..] + rest;
  }

  lemma ContentGrows(content: string, data: string, from: nat, n: nat, rest: string)
    requires from + n <= |data|
    ensures (content + data[from..from + n]) + (data[from + n..] + rest) == content + (data[from..] + rest)
  {
    assert data[from..] == data[from..from + n] + data[from + n..];
  }

  lemma {:induction false} CopyMovesOn(buf: string, i: nat, r: Reader, b: Body, more: string)
    requires i <= |buf| && b.More? && BodyOk(b) && r.size <= |b.data|
    requires buf[i..] + more == b.data[|b.data| - r.size..] + (CRLF + Encode(b.rest))
    ensures var p := Copy(buf, i, r); var q := AfterData(b, p.reader.size);
      p.next <= |buf| && PlaceOk(q) && buf[p.next..] + more == Unread(q)
  {
    CopyLeaves(buf, i, r, b.data, CRLF + Encode(b.rest), more);
    AfterDataOk(b, Copy(buf, i, r).reader.size);
  }

  lemma CopyLeaves(buf: string, i: nat, r: Reader, data: string, rest: string, more: string)
    requires i <= |buf| && r.size <= |data| && buf[i..] + more == data[|data| - r.size..] + rest
    ensures var p := Copy(buf, i, r);
      p.next <= |buf| && p.reader.size <= r.size && buf[p.next..] + more == data[|data| - p.reader.size..] + rest
  {
    SameBytes(buf, i, more, data, |data| - r.size, rest, Copy(buf, i, r).next - i);
  }

  /** Copying takes the same bytes from the stream as it adds to the content. */
  lemma CopiedBytes(buf: string, i: nat, r: Reader, data: string, rest: string, more: string, after: string)
    requires i <= |buf| && r.size <= |data| && buf[i..] + more == data[|data| - r.size..] + rest
    ensures var p := Copy(buf, i, r);
      && p.reader.size <= r.size
      && p.reader.content + (data[|data| - p.reader.size..] + after) == r.content + (data[|data| - r.size..] + after)
  {
    var p := Copy(buf, i, r);
    SameBytes(buf, i, more, data, |data| - r.size, rest, p.next - i);
    ContentGrows(r.content, data, |data| - r.size, p.next - i, after);
  }

  lemma {:induction false} CopyAddsContent(buf: string, i: nat, r: Reader, b: Body, more: string)
    requires i <= |buf| && b.More? && BodyOk(b) && r.size <= |b.data|
    requires buf[i..] + more == b.data[|b.data| - r.size..] + (CRLF + Encode(b.rest))
    ensures var p := Copy(buf, i, r); var q := AfterData(b, p.reader.size);
      PlaceOk(q) && p.reader.content + ToCome(q) == r.content + (b.data[|b.data| - r.size..] + Content(b.rest))
  {
    CopiedBytes(buf, i, r, b.data, CRLF + Encode(b.rest), more, Content(b.rest));
    ToComeAfter(b, Copy(buf, i, r).reader.size);
  }

  lemma {:induction false} ToComeAfter(b: Body, left: nat)
    requires BodyOk(b) && b.More? && left <= |b.data|
    ensures PlaceOk(AfterData(b, left))
    ensures ToCome(AfterData(b, left)) == b.data[|b.data| - left..] + Content(b.rest)
  {
    AfterDataOk(b, left);
  }

  lemma {:induction false} CopyIsAt(buf: string, i: nat, r: Reader, b: Body)
    requires i <= |buf| && b.More? && IsAt(r, InData(b, r.size))
    ensures var p := Copy(buf, i, r); IsAt(p.reader, AfterData(b, p.reader.size))
  {
  }

  // --------------------------------------------------------------------- one turn, one buffer

  /** What is left of a body. */
  ghost predicate IsRest(q: Body, b: Body)
    decreases b
  {
    q == b || (b.More? && IsRest(q, b.rest))
  }

  lemma {:induction false} RestOfRest(p: Body, q: Body, b: Body)
    requires IsRest(p, q) && IsRest(q, b)
    ensures IsRest(p, b)
    decreases b
  {
    if q != b {
      RestOfRest(p, q, b.rest);
    }
  }

  /** A place and the bytes before it in the buffer and to come agree with the stream. */
  ghost predicate OnStream(buf: string, next: nat, q: Place, more: string) {
    && PlaceOk(q) && next <= |buf| && buf[next..] + more == Unread(q)
    && (next == |buf| || !InsideExtension(q))
  }

  /** After a turn the reader is in step with the stream, or has ended with all of its content. */
  ghost predicate InStep(buf: string, t: Progress, q: Place, more: string, content: string, b: Body) {
    if t.reader.ended then t.reader.content == content && |more| <= 2
    else
      && IsAt(t.reader, q) && OnStream(buf, t.next, q, more)
      && t.reader.content + ToCome(q) == content && IsRest(q.body, b)
  }

  /** Copying keeps a reader in step with the stream. */
  lemma {:induction false} CopyKeepsPlace(buf: string, i: nat, r: Reader, b: Body, more: string) returns (q: Place)
    requires i <= |buf| && b.More? && IsAt(r, InData(b, r.size))
    requires buf[i..] + more == Unread(InData(b, r.size))
    ensures InStep(buf, Copy(buf, i, r), q, more, r.content + ToCome(InData(b, r.size)), b)
  {
    var p := Copy(buf, i, r);
    q := AfterData(b, p.reader.size);
    CopyIsAt(buf, i, r, b);
    CopyMovesOn(buf, i, r, b, more);
    CopyAddsContent(buf, i, r, b, more);
  }

  lemma ShowsFromStream(buf: string, i: nat, more: string, line: string, at: nat, rest: string)
    requires i <= |buf| && at <= |line| && buf[i..] + more == line[at..] + rest
    ensures Shows(buf, i, line, at)
    ensures |line| - at <= |buf| - i ==> buf[i + |line| - at..] + more == rest
    ensures |buf| - i <= |line| - at ==> more == line[at + |buf| - i..] + rest
  {
    var stream := buf[i..] + more;
    forall j | at <= j < |line| && i + (j - at) < |buf|
      ensures line[j] == buf[i + (j - at)]
    {
      assert stream[j - at] == buf[i + (j - at)] && stream[j - at] == line[at..][j - at];
    }
    if |line| - at <= |buf| - i {
      assert stream[|line| - at..] == rest;
      assert stream[|line| - at..] == buf[i + |line| - at..] + more;
    }
    if |buf| - i <= |line| - at {
      assert stream[|buf| - i..] == more;
      assert stream[|buf| - i..] == line[at + |buf| - i..] + rest;
    }
  }

  lemma {:induction false} SizeLineIsOk(b: Body, gap: string)
    requires BodyOk(b) && (gap == "" || gap == CRLF)
    ensures LineOk(gap, Hex(NextSize(b)), b.extension) && SizeOf(Hex(NextSize(b))) == NextSize(b)
  {
    SizeLineFits(NextSize(b));
    SizeOfHex(NextSize(b));
  }

  /** The size line at a place is read to its end or to the end of the buffer. */
  lemma {:induction false} LineAtPlace(buf: string, i: nat, r: Reader, b: Body, gap: string, at: nat)
    requires i < |buf| && IsAt(r, InLine(b, gap, at)) && Safe(InLine(b, gap, at), buf, i)
    requires Shows(buf, i, LineOf(b, gap), at)
    ensures ReaderOk(r) && AllHex(Hex(NextSize(b))) && SizeOf(Hex(NextSize(b))) == NextSize(b)
    ensures ReadSize(buf, i, r.digits) == LineRead(buf, i, gap, Hex(NextSize(b)), b.extension, at)
  {
    SizeLineIsOk(b, gap);
    SizeLineIsRead(buf, i, gap, Hex(NextSize(b)), b.extension, at);
  }

  lemma TurnWithoutSize(buf: string, i: nat, r: Reader, next: nat, digits: string)
    requires i < |buf| && r.size == 0 && ReaderOk(r) && ReadSize(buf, i, r.digits) == SizeLine(next, digits, false)
    ensures Turn(buf, i, r) == Progress(r.(digits := digits), next)
  {
  }

  lemma TurnWithSize(buf: string, i: nat, r: Reader, next: nat, digits: string, size: nat)
    requires i < |buf| && r.size == 0 && ReaderOk(r) && ReadSize(buf, i, r.digits) == SizeLine(next, digits, true)
    requires AllHex(digits) && SizeOf(digits) == size
    ensures next <= |buf| && Turn(buf, i, r) == StartChunk(buf, next, r, size)
  {
  }

  /** A turn at a size line whose end the buffer does not show. */
  lemma {:induction false} LineGoesOn(buf: string, i: nat, r: Reader, b: Body, gap: string, at: nat, more: string)
    returns (t: Progress, q: Place)
    requires i < |buf| && IsAt(r, InLine(b, gap, at)) && Safe(InLine(b, gap, at), buf, i)
    requires Shows(buf, i, LineOf(b, gap), at) && !ShowsEnd(buf, i, LineOf(b, gap), at)
    requires more == LineOf(b, gap)[at + |buf| - i..] + AfterSize(b)
    ensures ReaderOk(r) && t == Turn(buf, i, r)
    ensures InStep(buf, t, q, more, r.content + Content(b), b)
  {
    var later := at + |buf| - i;
    t := TurnInPart(buf, i, r, b, gap, at, later);
    q := InLine(b, gap, later);
    StaysInLine(buf, t, r, b, gap, later, more);
  }

  lemma {:induction false} TurnInPart(buf: string, i: nat, r: Reader, b: Body, gap: string, at: nat, later: nat)
    returns (t: Progress)
    requires i < |buf| && IsAt(r, InLine(b, gap, at)) && Safe(InLine(b, gap, at), buf, i) && later == at + |buf| - i
    requires Shows(buf, i, LineOf(b, gap), at) && !ShowsEnd(buf, i, LineOf(b, gap), at)
    ensures ReaderOk(r) && t == Turn(buf, i, r)
    ensures t == Progress(r.(digits := DigitsBefore(gap, Hex(NextSize(b)), later)), |buf|)
  {
    var hex := Hex(NextSize(b));
    LineAtPlace(buf, i, r, b, gap, at);
    LineIsCut(buf, i, gap, hex, b.extension, at);
    TurnWithoutSize(buf, i, r, |buf|, DigitsBefore(gap, hex, later));
    t := Turn(buf, i, r);
  }

  lemma {:induction false} StaysInLine(buf: string, t: Progress, r: Reader, b: Body, gap: string, at: nat, more: string)
    requires PlaceOk(InLine(b, gap, at)) && r.size == 0 && !r.ended && more == LineOf(b, gap)[at..] + AfterSize(b)
    requires t == Progress(r.(digits := DigitsBefore(gap, Hex(NextSize(b)), at)), |buf|)
    ensures InStep(buf, t, InLine(b, gap, at), more, r.content + Content(b), b)
  {
    NoData(buf, more);
  }

  lemma LineIsCut(buf: string, i: nat, gap: string, hex: string, extension: string, at: nat)
    requires i <= |buf| && at < |Line(gap, hex, extension)| && !ShowsEnd(buf, i, Line(gap, hex, extension), at)
    ensures LineRead(buf, i, gap, hex, extension, at) == SizeLine(|buf|, DigitsBefore(gap, hex, at + |buf| - i), false)
  {
  }

  /** A turn at a size line whose end the buffer shows. */
  lemma {:induction false} LineEnds(buf: string, i: nat, r: Reader, b: Body, gap: string, at: nat, more: string)
    returns (q: Place)
    requires i < |buf| && IsAt(r, InLine(b, gap, at)) && Safe(InLine(b, gap, at), buf, i)
    requires Shows(buf, i, LineOf(b, gap), at) && ShowsEnd(buf, i, LineOf(b, gap), at)
    requires buf[i + |LineOf(b, gap)| - at..] + more == AfterSize(b)
    ensures ReaderOk(r) && InStep(buf, Turn(buf, i, r), q, more, r.content + Content(b), b)
  {
    var next := i + |LineOf(b, gap)| - at;
    LineAtPlace(buf, i, r, b, gap, at);
    TurnWithSize(buf, i, r, next, Hex(NextSize(b)), NextSize(b));
    q := ChunkStarts(buf, next, r, b, more);
  }

  /** After a size line comes the data of that chunk, or the end. */
  lemma {:induction false} ChunkStarts(buf: string, i: nat, r: Reader, b: Body, more: string) returns (q: Place)
    requires i <= |buf| && BodyOk(b) && r.size == 0 && !r.ended && buf[i..] + more == AfterSize(b)
    ensures InStep(buf, StartChunk(buf, i, r, NextSize(b)), q, more, r.content + Content(b), b)
  {
    if b.Last? {
      assert r.content + "" == r.content;
      q := InLine(b, "", 0);
    } else {
      assert b.data[0..] == b.data;
      q := CopyKeepsPlace(buf, i, r.(size := |b.data|, digits := ""), b, more);
    }
  }

  /** One turn of the loop keeps a reader in step, and ends it only with the whole content. */
  lemma {:induction false} TurnKeepsPlace(buf: string, i: nat, r: Reader, p: Place, more: string) returns (q: Place)
    requires i < |buf| && IsAt(r, p) && buf[i..] + more == Unread(p) && Safe(p, buf, i)
    ensures ReaderOk(r)
    ensures InStep(buf, Turn(buf, i, r), q, more, r.content + ToCome(p), p.body)
  {
    match p
    case InData(b, left) =>
      q := CopyKeepsPlace(buf, i, r, b, more);
    case InLine(b, gap, at) =>
      ShowsFromStream(buf, i, more, LineOf(b, gap), at, AfterSize(b));
      if ShowsEnd(buf, i, LineOf(b, gap), at) {
        q := LineEnds(buf, i, r, b, gap, at, more);
      } else {
        var t;
        t, q := LineGoesOn(buf, i, r, b, gap, at, more);
      }
  }

  lemma {:induction false} DigitsAtPlace(r: Reader, p: Place)
    requires IsAt(r, p)
    ensures ReaderOk(r)
  {
    if p.InLine? {
      SizeLineFits(NextSize(p.body));
      DigitsAreShort(p.gap, Hex(NextSize(p.body)), p.at);
    }
  }

  /** Where a whole buffer leaves the reader. */
  ghost predicate ReadTo(s: Reader, q: Place, more: string, content: string, b: Body) {
    if s.ended then s.content == content && |more| <= 2
    else IsAt(s, q) && more == Unread(q) && s.content + ToCome(q) == content && IsRest(q.body, b)
  }

  /** A whole buffer keeps a reader in step with the stream. */
  lemma {:induction false} BufferKeepsPlace(buf: string, i: nat, r: Reader, p: Place, more: string) returns (q: Place)
    requires i <= |buf| && IsAt(r, p) && buf[i..] + more == Unread(p) && Safe(p, buf, i)
    ensures ReaderOk(r)
    ensures ReadTo(ReadChunks(buf, i, r), q, more, r.content + ToCome(p), p.body)
    decreases |buf| - i
  {
    DigitsAtPlace(r, p);
    q := p;
    if i == |buf| {
      assert buf[i..] + more == more;
    } else {
      var at := TurnKeepsPlace(buf, i, r, p, more);
      var t := Turn(buf, i, r);
      OneTurn(buf, i, r);
      if !t.reader.ended {
        q := BufferKeepsPlace(buf, t.next, t.reader, at, more);
        if !ReadChunks(buf, i, r).ended {
          RestOfRest(q.body, at.body, p.body);
        }
      }
    }
  }

  // -------------------------------------------------------------- positions in the encoding

  /** How many bytes of content are among the first `pos` bytes of an encoding. */
  ghost function DataIn(b: Body, pos: nat): nat
    decreases b
  {
    var line := |LineOf(b, "")|;
    if b.Last? || pos <= line then 0
    else if pos <= line + |b.data| then pos - line
    else if pos <= line + |b.data| + 2 then |b.data|
    else |b.data| + DataIn(b.rest, pos - line - |b.data| - 2)
  }

  /** Whether the byte at a position of an encoding is inside an extension, past its first character. */
  ghost predicate InExtension(b: Body, pos: nat)
    decreases b
  {
    var line := |LineOf(b, "")|;
    if pos < line then Inside("", Hex(NextSize(b)), b.extension, pos)
    else b.More? && pos >= line + |b.data| + 2 && InExtension(b.rest, pos - line - |b.data| - 2)
  }

  /** The place is what remains of the body after its first `pos` bytes. */
  ghost predicate Reached(b: Body, q: Place, pos: nat) {
    PlaceOk(q) && IsRest(q.body, b) && pos + |Unread(q)| == |Encode(b)|
  }

  lemma {:induction false} UnreadFits(b: Body, q: Place)
    requires PlaceOk(q) && IsRest(q.body, b)
    ensures |Unread(q)| <= |Encode(b)| + 2
    ensures b.More? && q.body != b ==> |Unread(q)| <= |Encode(b.rest)| + 2
    ensures b.More? && q.body != b && q.body != b.rest ==> |Unread(q)| <= |Encode(b.rest)|
    decreases b
  {
    if q.body != b {
      UnreadFits(b.rest, q);
    }
  }

  lemma {:induction false} EncodeLength(b: Body)
    ensures |Encode(b)| == |LineOf(b, "")| + |AfterSize(b)| >= 4
    ensures b.More? ==> |AfterSize(b)| == |b.data| + 2 + |Encode(b.rest)|
  {
  }

  lemma {:induction false} PlaceAtFirst(b: Body, q: Place, pos: nat)
    requires Reached(b, q, pos) && q.body == b
    ensures DataIn(b, pos) + |ToCome(q)| == |Content(b)|
    ensures InsideExtension(q) <==> InExtension(b, pos)
  {
    EncodeLength(b);
  }

  lemma {:induction false} PlaceInGap(b: Body, q: Place, pos: nat)
    requires Reached(b, q, pos) && q.body != b && pos < |LineOf(b, "")| + |b.data| + 2
    ensures DataIn(b, pos) + |ToCome(q)| == |Content(b)|
    ensures !InsideExtension(q) && !InExtension(b, pos)
  {
    EncodeLength(b);
    UnreadFits(b, q);
    EncodeLength(b.rest);
    assert q.body == b.rest && q.InLine? && q.gap == CRLF && q.at < 2;
  }

  /** What has been read and what is to come make up the content; being inside an extension is a matter of position. */
  lemma {:induction false} PlaceAt(b: Body, q: Place, pos: nat)
    requires Reached(b, q, pos)
    ensures DataIn(b, pos) + |ToCome(q)| == |Content(b)|
    ensures InsideExtension(q) <==> InExtension(b, pos)
    decreases b
  {
    var skipped := |LineOf(b, "")| + (if b.More? then |b.data| else 0) + 2;
    if q.body == b {
      PlaceAtFirst(b, q, pos);
    } else if pos < skipped {
      PlaceInGap(b, q, pos);
    } else {
      EncodeLength(b);
      PlaceAt(b.rest, q, pos - skipped);
    }
  }

  lemma {:induction false} DataGrows(b: Body, pos: nat, later: nat)
    requires pos <= later
    ensures DataIn(b, pos) <= DataIn(b, later) <= |Content(b)|
    decreases b
  {
    var skipped := |LineOf(b, "")| + (if b.More? then |b.data| else 0) + 2;
    if b.More? && later > skipped {
      DataGrows(b.rest, if pos > skipped then pos - skipped else 0, later - skipped);
    }
  }

  /** Two bytes before the end all of the content is in. */
  lemma {:induction false} AllDataIn(b: Body, pos: nat)
    requires pos + 2 >= |Encode(b)|
    ensures DataIn(b, pos) == |Content(b)|
    decreases b
  {
    EncodeLength(b);
    if b.More? {
      EncodeLength(b.rest);
      AllDataIn(b.rest, pos - (|LineOf(b, "")| + |b.data| + 2));
    }
  }

  lemma {:induction false} NoExtensionInside(chunks: seq<string>, pos: nat)
    ensures !InExtension(Plain(chunks), pos)
    decreases |chunks|
  {
    if chunks != [] {
      var skipped := |LineOf(Plain(chunks), "")| + |chunks[0]| + 2;
      if pos >= skipped {
        NoExtensionInside(chunks[1..], pos - skipped);
      }
    }
  }
}
