/**
 A size line with an extension, read piece by piece: what spoils it is a piece that starts like a digit.
 */
module HttpExtensions {
  import opened HttpChunks
  import opened HttpPlaces

  ghost predicate NoneEmpty(pieces: seq<string>) {
    forall k | 0 <= k < |pieces| :: pieces[k] != ""
  }

  /** The reader of sizes, buffer after buffer, until a line is complete. */
  ghost function ReadPieces(pieces: seq<string>, digits: string): (line: SizeLine)
    requires NoneEmpty(pieces) && |digits| <= MAX_DIGITS && AllHex(digits)
    decreases |pieces|
  {
    if pieces == [] then SizeLine(0, digits, false) else
      var line := ReadSize(pieces[0], 0, digits);
      if line.complete then line else ReadPieces(pieces[1..], line.digits)
  }

  /** No piece starts inside the extension with a hexadecimal digit. */
  ghost predicate CutsAreSafe(hex: string, extension: string, at: nat, pieces: seq<string>)
    requires NoneEmpty(pieces)
    decreases |pieces|
  {
    pieces != [] ==>
      && (Inside("", hex, extension, at) ==> !IsHexDigit(pieces[0][0]))
      && CutsAreSafe(hex, extension, at + |pieces[0]|, pieces[1..])
  }

  // -------------------------------------------------------------------------- a line gone wrong

  /** The end of a line: letters, then CR LF, or what is left of it. */
  ghost predicate IsTail(tail: string) {
    var n := |tail|;
    && n >= 1 && tail[n - 1] == LF && (n >= 2 ==> tail[n - 2] == CR)
    && forall k | 0 <= k < n - 2 :: tail[k] != CR && tail[k] != LF
  }

  lemma {:induction false} LineEndIs(buf: string, i: nat, e: nat)
    requires i <= e <= |buf| && forall k | i <= k < e :: buf[k] != CR && buf[k] != LF
    requires e < |buf| ==> buf[e] == CR || buf[e] == LF
    ensures LineEnd(buf, i) == e
    decreases e - i
  {
    if i < e {
      LineEndIs(buf, i + 1, e);
    }
  }

  lemma DigitsStopBefore(buf: string, room: nat, e: nat)
    requires e < |buf| && !IsHexDigit(buf[e])
    ensures DigitsEnd(buf, 0, room) <= e
  {
    var j := DigitsEnd(buf, 0, room);
    assert forall k | 0 <= k < j :: buf[0..j][k] == buf[k];
  }

  /** Reading into a tail with some digits collected keeps those digits; the whole tail completes the line. */
  lemma TailPiece(buf: string, more: string, digits: string)
    requires buf != "" && IsTail(buf + more) && digits != "" && |digits| <= MAX_DIGITS && AllHex(digits)
    ensures var line := ReadSize(buf, 0, digits);
      && digits <= line.digits && (line.complete <==> more == "") && line.next == |buf|
      && (IsHexDigit(buf[0]) && |digits| < MAX_DIGITS ==> |digits| < |line.digits|)
  {
    var tail := buf + more;
    assert forall k | 0 <= k < |buf| :: tail[k] == buf[k];
    var e := if |tail| == 1 then 0 else if |buf| <= |tail| - 2 then |buf| else |tail| - 2;
    var end := DigitsEnd(buf, 0, MAX_DIGITS - |digits|);
    if e < |buf| {
      DigitsStopBefore(buf, MAX_DIGITS - |digits|, e);
    }
    LineEndIs(buf, end, e);
  }

  /** Once wrong digits are in, the line still completes, with them. */
  lemma {:induction false} TailCompletes(pieces: seq<string>, digits: string)
    requires NoneEmpty(pieces) && IsTail(Concat(pieces))
    requires digits != "" && |digits| <= MAX_DIGITS && AllHex(digits)
    ensures var line := ReadPieces(pieces, digits);
      && line.complete && |digits| <= |line.digits|
      && (IsHexDigit(Concat(pieces)[0]) && |digits| < MAX_DIGITS ==> |digits| < |line.digits|)
    decreases |pieces|
  {
    var more := Concat(pieces[1..]);
    TailPiece(pieces[0], more, digits);
    var line := ReadSize(pieces[0], 0, digits);
    if !line.complete {
      RestIsTail(pieces[0], more);
      TailCompletes(pieces[1..], line.digits);
    }
  }

  lemma RestIsTail(buf: string, more: string)
    requires IsTail(buf + more) && more != ""
    ensures IsTail(more)
  {
    var tail := buf + more;
    assert forall k | 0 <= k < |more| :: more[k] == tail[|buf| + k];
  }

  // ------------------------------------------------------------------------------ any cuts

  lemma LineIsTail(hex: string, extension: string, at: nat)
    requires LineOk("", hex, extension) && |hex| <= at < |Line("", hex, extension)|
    ensures IsTail(Line("", hex, extension)[at..])
  {
    LineLetters("", hex, extension);
  }

  lemma {:induction false} ConcatIsLonger(pieces: seq<string>)
    requires NoneEmpty(pieces)
    ensures |Concat(pieces)| >= |pieces|
    decreases |pieces|
  {
    if pieces != [] {
      ConcatIsLonger(pieces[1..]);
    }
  }

  /** A piece that starts inside the extension with a digit spoils the line. */
  lemma SpoiltPiece(hex: string, extension: string, at: nat, pieces: seq<string>)
    requires LineOk("", hex, extension) && NoneEmpty(pieces) && Inside("", hex, extension, at)
    requires Concat(pieces) == Line("", hex, extension)[at..] && pieces != [] && IsHexDigit(pieces[0][0])
    ensures ReadPieces(pieces, hex).complete && ReadPieces(pieces, hex).digits != hex
  {
    LineIsTail(hex, extension, at);
    assert Concat(pieces)[0] == pieces[0][0];
    TailCompletes(pieces, hex);
  }

  /** Any other piece is read to its end, or to the end of the line. */
  lemma SoundPiece(hex: string, extension: string, at: nat, buf: string, more: string)
    requires LineOk("", hex, extension) && at < |Line("", hex, extension)| && buf != ""
    requires buf + more == Line("", hex, extension)[at..] && (Inside("", hex, extension, at) ==> !IsHexDigit(buf[0]))
    ensures |DigitsBefore("", hex, at)| <= MAX_DIGITS && AllHex(DigitsBefore("", hex, at))
    ensures var line := Line("", hex, extension);
      var read := ReadSize(buf, 0, DigitsBefore("", hex, at));
      if more == "" then read == SizeLine(|buf|, hex, true) else
        && at + |buf| < |line| && more == line[at + |buf|..]
        && read == SizeLine(|buf|, DigitsBefore("", hex, at + |buf|), false)
  {
    WholePiece(buf, more, Line("", hex, extension), at);
    SizeLineIsRead(buf, 0, "", hex, extension, at);
  }

  ghost predicate ReadsRight(line: SizeLine, hex: string, safe: bool) {
    line.complete && (line.digits == hex <==> safe)
  }

  lemma PiecePassed(pieces: seq<string>, digits: string, next: string)
    requires pieces != [] && NoneEmpty(pieces) && |digits| <= MAX_DIGITS && AllHex(digits)
    requires ReadSize(pieces[0], 0, digits) == SizeLine(|pieces[0]|, next, false)
    ensures |next| <= MAX_DIGITS && AllHex(next) && ReadPieces(pieces, digits) == ReadPieces(pieces[1..], next)
  {
  }

  lemma SafeAfter(hex: string, extension: string, at: nat, pieces: seq<string>)
    requires pieces != [] && NoneEmpty(pieces) && (Inside("", hex, extension, at) ==> !IsHexDigit(pieces[0][0]))
    ensures CutsAreSafe(hex, extension, at, pieces) <==>
      CutsAreSafe(hex, extension, at + |pieces[0]|, pieces[1..])
  {
  }

  lemma NoPieces(pieces: seq<string>)
    requires NoneEmpty(pieces) && Concat(pieces) == ""
    ensures pieces == []
  {
    ConcatIsLonger(pieces);
  }

  /** Pieces that hold the line from some position on. */
  ghost predicate HoldLine(hex: string, extension: string, at: nat, pieces: seq<string>) {
    && LineOk("", hex, extension) && NoneEmpty(pieces) && at < |Line("", hex, extension)|
    && Concat(pieces) == Line("", hex, extension)[at..]
  }

  /** From that position on, the line completes, with the right digits exactly if no cut is unsafe. */
  ghost predicate LineReads(hex: string, extension: string, at: nat, pieces: seq<string>)
    requires NoneEmpty(pieces)
  {
    && |DigitsBefore("", hex, at)| <= MAX_DIGITS && AllHex(DigitsBefore("", hex, at))
    && ReadsRight(ReadPieces(pieces, DigitsBefore("", hex, at)), hex, CutsAreSafe(hex, extension, at, pieces))
  }

  lemma SpoiltReads(hex: string, extension: string, at: nat, pieces: seq<string>)
    requires HoldLine(hex, extension, at, pieces) && Inside("", hex, extension, at) && IsHexDigit(pieces[0][0])
    ensures LineReads(hex, extension, at, pieces)
  {
    DigitsAreShort("", hex, at);
    SpoiltPiece(hex, extension, at, pieces);
  }

  lemma LastReads(hex: string, extension: string, at: nat, pieces: seq<string>)
    requires HoldLine(hex, extension, at, pieces) && Concat(pieces[1..]) == ""
    requires Inside("", hex, extension, at) ==> !IsHexDigit(pieces[0][0])
    ensures LineReads(hex, extension, at, pieces)
  {
    SoundPiece(hex, extension, at, pieces[0], "");
    NoPieces(pieces[1..]);
  }

  lemma FirstReads(hex: string, extension: string, at: nat, pieces: seq<string>)
    requires HoldLine(hex, extension, at, pieces) && Concat(pieces[1..]) != ""
    requires Inside("", hex, extension, at) ==> !IsHexDigit(pieces[0][0])
    requires LineReads(hex, extension, at + |pieces[0]|, pieces[1..])
    ensures LineReads(hex, extension, at, pieces)
  {
    SoundPiece(hex, extension, at, pieces[0], Concat(pieces[1..]));
    PiecePassed(pieces, DigitsBefore("", hex, at), DigitsBefore("", hex, at + |pieces[0]|));
    SafeAfter(hex, extension, at, pieces);
  }

  lemma RestHoldsLine(hex: string, extension: string, at: nat, pieces: seq<string>)
    requires HoldLine(hex, extension, at, pieces) && pieces != [] && Concat(pieces[1..]) != ""
    ensures HoldLine(hex, extension, at + |pieces[0]|, pieces[1..])
  {
    WholePiece(pieces[0], Concat(pieces[1..]), Line("", hex, extension), at);
  }

  lemma {:induction false} LineFrom(hex: string, extension: string, at: nat, pieces: seq<string>)
    requires HoldLine(hex, extension, at, pieces)
    ensures LineReads(hex, extension, at, pieces)
    decreases |pieces|
  {
    if Inside("", hex, extension, at) && IsHexDigit(pieces[0][0]) {
      SpoiltReads(hex, extension, at, pieces);
    } else if Concat(pieces[1..]) == "" {
      LastReads(hex, extension, at, pieces);
    } else {
      RestHoldsLine(hex, extension, at, pieces);
      LineFrom(hex, extension, at + |pieces[0]|, pieces[1..]);
      FirstReads(hex, extension, at, pieces);
    }
  }

  /** A piece shows the line, and the others hold what is left of it. */
  lemma WholePiece(buf: string, more: string, line: string, at: nat)
    requires at < |line| && buf + more == line[at..]
    ensures Shows(buf, 0, line, at)
    ensures at + |buf| < |line| ==> more == line[at + |buf|..]
    ensures at + |buf| >= |line| ==> buf == line[at..] && more == ""
  {
    assert buf[0..] + more == line[at..] + "";
    ShowsFromStream(buf, 0, more, line, at, "");
    assert |buf| + |more| == |line| - at;
  }

  /**
   A size line with an extension, cut into any pieces, always completes, and with the right digits
   exactly if no piece starts inside the extension, past its first character, with a digit.
   */
  lemma LineInPieces(hex: string, extension: string, pieces: seq<string>)
    requires LineOk("", hex, extension) && NoneEmpty(pieces) && Concat(pieces) == hex + extension + CRLF
    ensures var line := ReadPieces(pieces, "");
      line.complete && (line.digits == hex <==> CutsAreSafe(hex, extension, 0, pieces))
  {
    assert Line("", hex, extension)[0..] == hex + extension + CRLF;
    LineFrom(hex, extension, 0, pieces);
  }
}
