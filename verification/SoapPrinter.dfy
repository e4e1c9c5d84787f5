/**
 The printer of `simpleUPnPcommand2`: a pointer moving through a fixed buffer,
 with a check against its end before each step.
 */
module SoapPrinter {
  import opened Options
  import opened NameValueList
  import opened MiniXml
  import opened XmlTags
  import opened SoapBody

  /** The pointer has moved over a text, as far as the buffer goes. */
  ghost predicate Holds(buf: array<char>, p: nat, t: string)
    reads buf
  {
    p <= buf.Length && p <= |t| && (p < buf.Length ==> p == |t|) && buf[..p] == t[..p]
  }

  /** The unchecked store of one character. */
  method PutChar(buf: array<char>, p: nat, c: char, ghost t: string) returns (q: nat)
    requires Holds(buf, p, t) && p < buf.Length
    modifies buf
    ensures q == p + 1 && Holds(buf, q, t + [c])
  {
    assert t[..p] == t;
    buf[p] := c;
    q := p + 1;
    assert buf[..q] == buf[..p] + [c];
    assert (t + [c])[..q] == t + [c];
  }

  /** The loop that copies a C string while there is room. */
  method CopyString(buf: array<char>, p: nat, s: string, ghost t: string) returns (q: nat)
    requires Holds(buf, p, t)
    modifies buf
    ensures Holds(buf, q, t + s)
  {
    q := p;
    var k := 0;
    assert t + s[..0] == t;
    while q < buf.Length && k < |s|
      invariant k <= |s| && Holds(buf, q, t + s[..k])
      decreases |s| - k
    {
      assert t + s[..k + 1] == (t + s[..k]) + [s[k]];
      q := PutChar(buf, q, s[k], t + s[..k]);
      k := k + 1;
    }
    assert t + s == (t + s[..k]) + s[k..];
  }

  lemma ArgInPieces(t: string, a: Arg)
    ensures t + ArgText(a, "") == (((((((t + ['<']) + a.elt) + ['>']) + ValueOf(a)) + ['<']) + ['/']) + a.elt) + ['>']
  {
  }

  /** One turn of the loop over the arguments; `full` where the source returns NULL. */
  method PutArg(buf: array<char>, p: nat, a: Arg, ghost t: string) returns (q: nat, full: bool)
    requires Holds(buf, p, t)
    modifies buf
    ensures full ==> |t + ArgText(a, "")| > buf.Length
    ensures !full ==> Holds(buf, q, t + ArgText(a, ""))
  {
    ArgInPieces(t, a);
    q, full := PutStartTag(buf, p, a.elt, t);
    if full {
      return;
    }
    ghost var t1 := ((t + ['<']) + a.elt) + ['>'];
    if a.val.Some? {
      q := CopyString(buf, q, a.val.value, t1);
    } else {
      assert t1 + "" == t1;
    }
    q, full := PutEndTag(buf, q, a.elt, t1 + ValueOf(a));
  }

  method PutStartTag(buf: array<char>, p: nat, elt: string, ghost t: string) returns (q: nat, full: bool)
    requires Holds(buf, p, t)
    modifies buf
    ensures full ==> |t| + |elt| + 2 > buf.Length
    ensures !full ==> Holds(buf, q, ((t + ['<']) + elt) + ['>'])
  {
    q, full := p, p >= buf.Length;
    if full { return; }
    q := PutChar(buf, q, '<', t);
    q := CopyString(buf, q, elt, t + ['<']);
    full := q >= buf.Length;
    if full { return; }
    q := PutChar(buf, q, '>', (t + ['<']) + elt);
  }

  method PutEndTag(buf: array<char>, p: nat, elt: string, ghost t: string) returns (q: nat, full: bool)
    requires Holds(buf, p, t)
    modifies buf
    ensures full ==> |t| + |elt| + 3 > buf.Length
    ensures !full ==> Holds(buf, q, (((t + ['<']) + ['/']) + elt) + ['>'])
  {
    q, full := p, p + 2 > buf.Length;
    if full { return; }
    q := PutChar(buf, q, '<', t);
    q := PutChar(buf, q, '/', t + ['<']);
    q := CopyString(buf, q, elt, (t + ['<']) + ['/']);
    full := q >= buf.Length;
    if full { return; }
    q := PutChar(buf, q, '>', ((t + ['<']) + ['/']) + elt);
  }

  /** strncpy to the end of the buffer: the string, then NULs. */
  method StrNCpy(buf: array<char>, p: nat, s: string, ghost t: string)
    requires Holds(buf, p, t)
    modifies buf
    ensures forall j | 0 <= j < buf.Length :: buf[j] == if j < |t + s| then (t + s)[j] else '\0'
  {
    var q := CopyString(buf, p, s, t);
    assert forall j | 0 <= j < q :: buf[j] == buf[..q][j];
    while q < buf.Length
      invariant q <= buf.Length
      invariant forall j | 0 <= j < q :: buf[j] == if j < |t + s| then (t + s)[j] else '\0'
      invariant q < buf.Length ==> q >= |t + s|
    {
      buf[q] := '\0';
      q := q + 1;
    }
  }

  /** What snprintf prints before the arguments. */
  function Opening(action: string, service: string): string {
    PROLOG + (OpenTag("s:", "Envelope", EnvelopeAttrs()) + (OpenTag("s:", "Body", [])
      + OpenTag("u:", action, [Attr("xmlns:u", service)])))
  }

  lemma FullBodyInPieces(action: string, service: string, args: seq<Arg>)
    ensures FullBody(action, service, args) == Opening(action, service) + (ArgsText(args) + Closing(action))
  {
    var a, b, c, d, e := PROLOG, OpenTag("s:", "Envelope", EnvelopeAttrs()), OpenTag("s:", "Body", []),
      OpenTag("u:", action, [Attr("xmlns:u", service)]), ArgsText(args) + Closing(action);
    Regroup(a, b, c, d, e);
  }

  lemma Regroup(a: string, b: string, c: string, d: string, e: string)
    ensures a + (b + (c + (d + e))) == (a + (b + (c + d))) + e
  {
  }

  /** snprintf: the length it wanted to print; the text is there if that was less than the size. */
  method SnPrintF(buf: array<char>, s: string) returns (length: nat)
    requires buf.Length > 0
    modifies buf
    ensures length == |s|
    ensures |s| < buf.Length ==> Holds(buf, |s|, s) && buf[|s|] == '\0'
  {
    length := |s|;
    var k := 0;
    while k < |s| && k < buf.Length - 1
      invariant k <= |s| && k < buf.Length && buf[..k] == s[..k]
    {
      buf[k] := s[k];
      k := k + 1;
      assert buf[..k] == buf[..k - 1] + [s[k - 1]];
    }
    buf[k] := '\0';
    assert s[..|s|] == s;
  }

  lemma {:induction false} CStringEnds(memory: string, text: string)
    requires '\0' !in text && |text| < |memory| && text <= memory && memory[|text|] == '\0'
    ensures CString(memory) == text
    decreases |text|
  {
    if text != "" {
      assert forall c | c in text[1..] :: c in text;
      CStringEnds(memory[1..], text[1..]);
      assert text == [text[0]] + text[1..];
    }
  }

  /** C strings hold no NUL. */
  ghost predicate AreCStrings(action: string, service: string, args: seq<Arg>) {
    '\0' !in FullBody(action, service, args)
  }

  ghost function ArgsOf(args: Option<seq<Arg>>): seq<Arg> {
    if args.Some? then args.value else []
  }

  /** The body that is sent: all of it if it fits with its NUL, else none. */
  method PrintBody(action: string, service: string, args: Option<seq<Arg>>) returns (body: Option<string>)
    requires AreCStrings(action, service, ArgsOf(args))
    ensures var full := FullBody(action, service, ArgsOf(args));
      body == if |full| < 2048 then Some(full) else None
  {
    FullBodyInPieces(action, service, ArgsOf(args));
    var buf := new char[BODY_SIZE];
    body := None;
    var fits := false;
    if args.None? {
      fits := PrintPlain(buf, action, service);
    } else {
      fits := PrintWithArgs(buf, action, service, args.value);
    }
    if fits {
      CStringEnds(buf[..], FullBody(action, service, ArgsOf(args)));
      body := Some(CString(buf[..]));
    }
  }

  /** The buffer holds the whole text and a NUL behind it. */
  ghost predicate Printed(buf: array<char>, text: string)
    reads buf
  {
    |text| < buf.Length && buf[..|text|] == text && buf[|text|] == '\0'
  }

  /** The branch for a missing argument list. */
  method PrintPlain(buf: array<char>, action: string, service: string) returns (fits: bool)
    requires buf.Length == BODY_SIZE
    modifies buf
    ensures fits <==> |FullBody(action, service, [])| < BODY_SIZE
    ensures fits ==> Printed(buf, FullBody(action, service, []))
  {
    FullBodyInPieces(action, service, []);
    assert ArgsText([]) + Closing(action) == Closing(action);
    var length := SnPrintF(buf, Opening(action, service) + Closing(action));
    fits := length < BODY_SIZE;
  }

  /** The branch for an argument list. */
  method PrintWithArgs(buf: array<char>, action: string, service: string, args: seq<Arg>) returns (fits: bool)
    requires buf.Length == BODY_SIZE && AreCStrings(action, service, args)
    modifies buf
    ensures fits <==> |FullBody(action, service, args)| < BODY_SIZE
    ensures fits ==> Printed(buf, FullBody(action, service, args))
  {
    FullBodyInPieces(action, service, args);
    ghost var full := FullBody(action, service, args);
    var length := SnPrintF(buf, Opening(action, service));
    fits := length < BODY_SIZE;
    if fits {
      fits := PrintArgs(buf, length, action, args, Opening(action, service));
      if fits {
        fits := buf[BODY_SIZE - 1] == '\0';
        LastByteTells(buf, full);
      }
    }
  }

  /** With as much of a C string printed as the buffer can hold, its last byte says whether that was all. */
  lemma LastByteTells(buf: array<char>, full: string)
    requires buf.Length == BODY_SIZE && '\0' !in full
    requires forall j | 0 <= j < buf.Length :: buf[j] == if j < |full| then full[j] else '\0'
    ensures buf[BODY_SIZE - 1] == '\0' <==> |full| < BODY_SIZE
    ensures |full| < BODY_SIZE ==> Printed(buf, full)
  {
    assert |full| >= BODY_SIZE ==> full[BODY_SIZE - 1] in full;
  }

  /** The arguments and the end tags; afterwards the buffer holds as much of the text as it can. */
  method PrintArgs(buf: array<char>, from: nat, action: string, args: seq<Arg>, ghost opening: string)
    returns (fits: bool)
    requires Holds(buf, from, opening)
    modifies buf
    ensures var full := opening + (ArgsText(args) + Closing(action));
      && (!fits ==> |full| >= buf.Length)
      && (fits ==> forall j | 0 <= j < buf.Length :: buf[j] == if j < |full| then full[j] else '\0')
  {
    ghost var full := opening + (ArgsText(args) + Closing(action));
    ghost var t := opening;
    var p, k := from, 0;
    fits := true;
    while k < |args|
      invariant k <= |args| && Holds(buf, p, t) && t + (ArgsText(args[k..]) + Closing(action)) == full
    {
      var q, over := PutArg(buf, p, args[k], t);
      NextArg(t, args, k, Closing(action));
      if over {
        fits := false;
        return;
      }
      t := t + ArgText(args[k], "");
      p := q;
      k := k + 1;
    }
    assert ArgsText(args[k..]) + Closing(action) == Closing(action);
    fits := PrintClosing(buf, p, action, t);
  }

  lemma NextArg(t: string, args: seq<Arg>, k: nat, closing: string)
    requires k < |args|
    ensures t + (ArgsText(args[k..]) + closing) == (t + ArgText(args[k], "")) + (ArgsText(args[k + 1..]) + closing)
  {
    var a, rest := args[k], ArgsText(args[k + 1..]);
    assert args[k..][1..] == args[k + 1..];
    var open, close := OpenTag("", a.elt, []), CloseTag(a.elt);
    assert open + (ValueOf(a) + (close + rest)) == (open + (ValueOf(a) + (close + ""))) + rest;
  }

  method PrintClosing(buf: array<char>, from: nat, action: string, ghost t: string) returns (fits: bool)
    requires Holds(buf, from, t)
    modifies buf
    ensures var full := t + Closing(action);
      && (!fits ==> |full| >= buf.Length)
      && (fits ==> forall j | 0 <= j < buf.Length :: buf[j] == if j < |full| then full[j] else '\0')
  {
    fits := from + 4 <= buf.Length;
    if !fits { return; }
    var p := PutChar(buf, from, '<', t);
    p := PutChar(buf, p, '/', t + ['<']);
    p := PutChar(buf, p, 'u', (t + ['<']) + ['/']);
    p := PutChar(buf, p, ':', ((t + ['<']) + ['/']) + ['u']);
    ghost var t4 := (((t + ['<']) + ['/']) + ['u']) + [':'];
    p := CopyString(buf, p, action, t4);
    StrNCpy(buf, p, "></s:Body></s:Envelope>\r\n", t4 + action);
    ClosingInPieces(t, action);
  }

  lemma ClosingInPieces(t: string, action: string)
    ensures (((((t + ['<']) + ['/']) + ['u']) + [':']) + action) + "></s:Body></s:Envelope>\r\n" == t + Closing(action)
  {
    TailIsTags();
    LettersInPieces(t);
    AroundAction(t, action, CloseTag("s:Body") + (CloseTag("s:Envelope") + "\r\n"));
  }

  lemma TailIsTags()
    ensures "></s:Body></s:Envelope>\r\n" == ">" + (CloseTag("s:Body") + (CloseTag("s:Envelope") + "\r\n"))
  {
  }

  lemma LettersInPieces(t: string)
    ensures (((t + ['<']) + ['/']) + ['u']) + [':'] == t + "</u:"
  {
  }

  lemma AroundAction(t: string, action: string, tags: string)
    ensures ((t + "</u:") + action) + (">" + tags) == t + (CloseTag("u:" + action) + tags)
  {
    assert "</u:" == "</" + "u:";
  }

  /** A body that fits is parsed back to the value of each of its arguments. */
  method PrintAndLookUp(action: string, service: string, args: seq<Arg>, k: nat) returns (found: Option<string>)
    requires k < |args|
    requires NameOk(action)
    requires ServiceOk(service)
    requires ArgsOk(args)
    requires AreCStrings(action, service, args)
    requires Distinct(args)
    requires args[k].elt != PORT_LISTING
    requires |ValueOf(args[k])| <= 127
    requires forall j | 0 <= j < |args| :: |args[j].elt| <= 63
    ensures found == if |FullBody(action, service, args)| < 2048 then Some(ValueOf(args[k])) else None
  {
    var body := PrintBody(action, service, Some(args));
    found := None;
    if body.Some? {
      var data := ParseNameValue(body.value);
      ValueIsReadBack(action, service, args, k);
      found := data.GetValueFromNameValueList(args[k].elt);
    }
  }
}
