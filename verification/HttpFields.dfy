/**
 What the header reader makes of numbers, codings, codes and line ends, said without its functions.
 */
module HttpFields {
  import opened HttpChunks
  import opened HttpHeader
  import opened HttpBody

  // ------------------------------------------------------------------------------ numbers

  ghost predicate AllDigits(s: string) {
    forall k | 0 <= k < |s| :: IsDigit(s[k])
  }

  /** The number a decimal text stands for: its last digit counts one, the others ten times as much. */
  ghost function Decimal(s: string): nat
    requires AllDigits(s)
    decreases |s|
  {
    if s == "" then 0 else Decimal(s[..|s| - 1]) * 10 + (s[|s| - 1] as int - '0' as int)
  }

  lemma {:induction false} DigitsGoOn(s: string, rest: string, value: nat)
    requires AllDigits(s)
    ensures LeadingDigits(s + rest, value) == LeadingDigits(rest, LeadingDigits(s, value))
    decreases |s|
  {
    if s == "" {
      assert s + rest == rest;
    } else {
      assert IsDigit(s[0]) && (s + rest)[1..] == s[1..] + rest;
      DigitsGoOn(s[1..], rest, value * 10 + (s[0] as int - '0' as int));
    }
  }

  lemma {:induction false} DigitsAreDecimal(s: string)
    requires AllDigits(s)
    ensures LeadingDigits(s, 0) == Decimal(s)
    decreases |s|
  {
    if s != "" {
      var front, last := s[..|s| - 1], s[|s| - 1..];
      assert s == front + last && last[1..] == "" && IsDigit(last[0]);
      DigitsAreDecimal(front);
      DigitsGoOn(front, last, 0);
    }
  }

  ghost predicate NoDigitNext(rest: string) {
    rest == "" || !IsDigit(rest[0])
  }

  lemma NumberIsRead(digits: string, rest: string)
    requires AllDigits(digits) && NoDigitNext(rest)
    ensures LeadingDigits(digits + rest, 0) == Decimal(digits)
  {
    DigitsAreDecimal(digits);
    DigitsGoOn(digits, rest, 0);
  }

  /** White space, a sign and digits, of which any may be missing, as far as atoi reads them. */
  ghost predicate StartsNumber(space: string, sign: string, digits: string, rest: string) {
    && (forall k | 0 <= k < |space| :: IsSpace(space[k]))
    && sign in {"", "-", "+"} && AllDigits(digits) && NoDigitNext(rest)
    && (sign == "" && digits == "" && rest != "" ==> !IsSpace(rest[0]) && rest[0] != '-' && rest[0] != '+')
  }

  ghost function Signed(sign: string, digits: string): int
    requires AllDigits(digits)
  {
    if sign == "-" then 0 - Decimal(digits) else Decimal(digits)
  }

  lemma {:induction false} AtoiSkipsSpace(space: string, text: string)
    requires forall k | 0 <= k < |space| :: IsSpace(space[k])
    ensures Atoi(space + text) == Atoi(text)
  {
    if space == "" {
      assert space + text == text;
    } else {
      assert (space + text)[1..] == space[1..] + text;
      AtoiSkipsSpace(space[1..], text);
    }
  }

  lemma SignedIsRead(sign: string, digits: string, rest: string)
    requires StartsNumber("", sign, digits, rest)
    ensures Atoi(sign + (digits + rest)) == Signed(sign, digits)
  {
    var text := digits + rest;
    NumberIsRead(digits, rest);
    if sign == "" {
      assert sign + text == text;
      assert text == "" || (!IsSpace(text[0]) && text[0] != '-' && text[0] != '+');
    } else if sign == "-" {
      assert ("-" + text)[1..] == text;
    } else {
      assert ("+" + text)[1..] == text;
    }
  }

  /** atoi gives the signed decimal number that a text starts with, or 0. */
  lemma AtoiReads(space: string, sign: string, digits: string, rest: string)
    requires StartsNumber(space, sign, digits, rest)
    ensures Atoi(space + (sign + (digits + rest))) == Signed(sign, digits)
  {
    AtoiSkipsSpace(space, sign + (digits + rest));
    SignedIsRead(sign, digits, rest);
  }

  // -------------------------------------------------------------------------------- fields

  /** Whether, in either case, one text is a beginning of the other. */
  ghost predicate Begins(text: string, whole: string) {
    |text| <= |whole| && forall k | 0 <= k < |text| :: Lower(text[k]) == Lower(whole[k])
  }

  /** A value is accepted exactly if the whole literal, in either case, is a beginning of it. */
  lemma {:induction false} ValueIsAccepted(value: string, literal: string)
    ensures EqualNoCase(value, literal, |literal|) <==> Begins(literal, value)
  {
    if value != "" && literal != "" {
      ValueIsAccepted(value[1..], literal[1..]);
      assert value == [value[0]] + value[1..] && literal == [literal[0]] + literal[1..];
    }
  }

  ghost predicate CountsAsLength(name: string) {
    Begins(name, "content-length")
  }

  ghost predicate CountsAsCoding(name: string) {
    Begins(name, "transfer-encoding") && !CountsAsLength(name)
  }

  /** A field changes the length, or says that the body is chunked, or nothing. */
  lemma FieldIsUnderstood(head: Head, name: string, value: string)
    requires '\0' !in name
    ensures ReadField(head, name, value) ==
      if CountsAsLength(name) then head.(contentLength := Atoi(value))
      else head.(chunked := head.chunked || (CountsAsCoding(name) && Begins("chunked", value)))
  {
    NameIsAccepted(name, "content-length");
    NameIsAccepted(name, "transfer-encoding");
    ValueIsAccepted(value, "chunked");
  }

  // -------------------------------------------------------------------------- status line

  /** The number after a space. */
  ghost function CodeAt(h: string, sp: nat): int
    requires sp < |h|
  {
    Atoi(h[sp + 1..])
  }

  /** The status is the number after the first space that has one of at least zero. */
  lemma {:induction false} StatusIsFirstCode(h: string, sp: nat, at: nat, end: nat, status: int)
    requires sp <= at < end <= |h| && status < 0 && h[at] == ' ' && CodeAt(h, at) >= 0
    requires forall k | sp <= k < at && h[k] == ' ' :: CodeAt(h, k) < 0
    ensures StatusOf(h, sp, end, status) == CodeAt(h, at)
    decreases at - sp
  {
    if sp == at {
      StatusStays(h, at + 1, end, CodeAt(h, at));
    } else if h[sp] == ' ' {
      StatusIsFirstCode(h, sp + 1, at, end, CodeAt(h, sp));
    } else {
      StatusIsFirstCode(h, sp + 1, at, end, status);
    }
  }

  lemma {:induction false} StatusStays(h: string, sp: nat, end: nat, status: int)
    requires end <= |h| && status >= 0
    ensures StatusOf(h, sp, end, status) == status
    decreases end - sp
  {
    if sp < end && h[sp] != ' ' {
      StatusStays(h, sp + 1, end, status);
    }
  }

  // ------------------------------------------------------------------------ end of header

  /** Two line feeds at `e` are the first such pair. */
  ghost predicate FirstEmptyLine(h: string, i: nat, e: nat) {
    && i <= e && e + 1 < |h| && h[e] == LF && h[e + 1] == LF
    && forall k | i <= k < e :: h[k] != CR && (h[k] == LF ==> h[k + 1] != LF)
  }

  /** A header whose lines end in a line feed alone ends at its first empty line. */
  lemma {:induction false} BareLinesEnd(h: string, i: nat, e: nat)
    requires FirstEmptyLine(h, i, e)
    ensures HeaderEnd(h, i) == e + 2
    decreases e - i
  {
    if i < e {
      BareLinesEnd(h, if h[i] == LF then i + 2 else i + 1, e);
    }
  }

  /** An end that is found stays where it is when more arrives. */
  lemma {:induction false} EndStays(h: string, more: string, i: nat)
    requires HeaderEnd(h, i) > 0
    ensures HeaderEnd(h + more, i) == HeaderEnd(h, i)
    decreases |h| - i
  {
    if h[i] == CR {
      if h[i + 1] != LF {
        EndStays(h, more, i + 2);
      } else if h[i + 2] != CR {
        EndStays(h, more, i + 3);
      } else if h[i + 3] != LF {
        EndStays(h, more, i + 4);
      }
    } else if h[i] == LF {
      if h[i + 1] != LF {
        EndStays(h, more, i + 2);
      }
    } else {
      EndStays(h, more, i + 1);
    }
  }

  lemma {:induction false} HeaderStaysOpen(buffer: string, segments: seq<string>)
    requires HeaderEnd(buffer + Concat(segments), 0) == 0
    ensures ReceiveFrom(InHeader(buffer), segments) == InHeader(buffer + Concat(segments))
    decreases |segments|
  {
    if segments == [] {
      assert buffer + Concat(segments) == buffer;
    } else {
      var h := buffer + segments[0];
      assert buffer + Concat(segments) == h + Concat(segments[1..]);
      if HeaderEnd(h, 0) > 0 {
        EndStays(h, Concat(segments[1..]), 0);
        assert false;
      }
      HeaderStaysOpen(h, segments[1..]);
    }
  }

  /** A stream that breaks off inside the header gives no content and no status. */
  lemma CutHeaderIsError(segments: seq<string>, s: StatusLine, fields: seq<Field>)
    requires StatusOk(s) && FieldsOk(fields)
    requires Concat(segments) <= HeaderText(s, fields) && Concat(segments) != HeaderText(s, fields)
    ensures Respond(segments) == Response("", -1)
  {
    HeaderIsFound(Concat(segments), HeaderText(s, fields), s, fields);
    assert "" + Concat(segments) == Concat(segments);
    HeaderStaysOpen("", segments);
  }
}
