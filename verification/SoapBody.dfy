/**
 The SOAP body that `simpleUPnPcommand2` prints into its fixed buffer, and what parsing such a body gives back.
 */
module SoapBody {
  import opened Options
  import opened Texts
  import opened NameValueList
  import opened MiniXml
  import opened XmlTags

  /** The size of `soapbody`, its final NUL included. */
  const BODY_SIZE := 2048

  /** `struct UPNParg`: an element name and a value, which may be missing. */
  datatype Arg = Arg(elt: string, val: Option<string>)

  function ValueOf(a: Arg): string {
    if a.val.Some? then a.val.value else ""
  }

  // -------------------------------------------------------------------------------- the text

  const PROLOG := "<?xml version=\"1.0\"?>\r\n"

  const ENVELOPE_URL := "http://schemas.xmlsoap.org/soap/envelope/"
  const ENCODING_URL := "http://schemas.xmlsoap.org/soap/encoding/"

  function EnvelopeAttrs(): seq<Attr> {
    [Attr("xmlns:s", ENVELOPE_URL), Attr("s:encodingStyle", ENCODING_URL)]
  }

  ghost function ArgText(a: Arg, more: string): string {
    OpenTag("", a.elt, []) + (ValueOf(a) + (CloseTag(a.elt) + more))
  }

  ghost function ArgsText(args: seq<Arg>): string {
    if args == [] then "" else ArgText(args[0], ArgsText(args[1..]))
  }

  function Closing(action: string): string {
    CloseTag("u:" + action) + (CloseTag("s:Body") + (CloseTag("s:Envelope") + "\r\n"))
  }

  ghost function ActionText(action: string, service: string, more: string): string {
    OpenTag("u:", action, [Attr("xmlns:u", service)]) + more
  }

  ghost function FullBody(action: string, service: string, args: seq<Arg>): string {
    PROLOG + (OpenTag("s:", "Envelope", EnvelopeAttrs()) + (OpenTag("s:", "Body", [])
      + ActionText(action, service, ArgsText(args) + Closing(action))))
  }

  ghost predicate ArgOk(a: Arg) {
    NameOk(a.elt) && '<' !in ValueOf(a) && '\0' !in ValueOf(a)
  }

  ghost predicate ArgsOk(args: seq<Arg>) {
    args == [] || (ArgOk(args[0]) && ArgsOk(args[1..]))
  }

  ghost predicate ServiceOk(service: string) {
    '"' !in service && '\0' !in service
  }

  // ------------------------------------------------------------------------ what parsing reports

  ghost function OpeningEvents(a: Arg): seq<Event> {
    [Start(a.elt)] + if ValueOf(a) != "" then [Data(ValueOf(a))] else []
  }

  ghost function ArgEvents(a: Arg): seq<Event> {
    OpeningEvents(a) + [End(a.elt)]
  }

  ghost function ArgsEvents(args: seq<Arg>): seq<Event> {
    if args == [] then [] else ArgEvents(args[0]) + ArgsEvents(args[1..])
  }

  lemma NameHasNoEnd(name: string)
    requires NameOk(name)
    ensures '>' !in name && '\0' !in name
  {
  }

  lemma CloseTagLetters(b: string, i: nat, name: string)
    requires TextAt(b, i, CloseTag(name))
    ensures i + 2 < |b| && b[i] == '<' && b[i + 1] == '/'
  {
    assert CloseTag(name)[0] == '<' && CloseTag(name)[1] == '/';
  }

  lemma ArgPieces(b: string, i: nat, a: Arg, more: string) returns (v: nat, c: nat)
    requires TextAt(b, i, ArgText(a, more))
    ensures v == i + |OpenTag("", a.elt, [])| && c == v + |ValueOf(a)|
    ensures TextAt(b, i, OpenTag("", a.elt, [])) && TextAt(b, v, ValueOf(a)) && TextAt(b, c, CloseTag(a.elt))
    ensures TextAt(b, c + |CloseTag(a.elt)|, more) && c + |CloseTag(a.elt)| == i + |ArgText(a, "")|
  {
    var open, close := OpenTag("", a.elt, []), CloseTag(a.elt);
    v := i + |open|;
    c := v + |ValueOf(a)|;
    TextSplit(b, i, open, ValueOf(a) + (close + more));
    TextSplit(b, v, ValueOf(a), close + more);
    TextSplit(b, c, close, more);
  }

  /** The start tag of an argument and its value, in front of its end tag. */
  lemma ArgIsOpened(b: string, i: nat, v: nat, c: nat, a: Arg, rest: seq<Event>)
    requires ArgOk(a) && v == i + |OpenTag("", a.elt, [])| && c == v + |ValueOf(a)|
    requires TextAt(b, i, OpenTag("", a.elt, [])) && TextAt(b, v, ValueOf(a)) && TextAt(b, c, CloseTag(a.elt))
    requires Events(b, c) == rest
    ensures Events(b, i) == OpeningEvents(a) + rest
  {
    CloseTagLetters(b, c, a.elt);
    OpenTagTurn(b, i, "", a.elt, [], ValueOf(a));
    OneTurnEvents(b, i, c, OpeningEvents(a));
  }

  lemma CloseTagIsReported(b: string, i: nat, next: nat, name: string, rest: seq<Event>)
    requires TextAt(b, i, CloseTag(name)) && '>' !in name && next == i + |CloseTag(name)| && Events(b, next) == rest
    ensures Events(b, i) == [End(name)] + rest
  {
    CloseTagLetters(b, i, name);
    CloseTagTurn(b, i, name);
    OneTurnEvents(b, i, next, [End(name)]);
  }

  lemma OneArgIsReported(b: string, i: nat, next: nat, a: Arg, more: string, rest: seq<Event>)
    requires ArgOk(a) && TextAt(b, i, ArgText(a, more)) && next == i + |ArgText(a, "")| && Events(b, next) == rest
    ensures Events(b, i) == ArgEvents(a) + rest
  {
    var v, c := ArgPieces(b, i, a, more);
    ArgIsRead(b, i, v, c, next, a, rest);
  }

  lemma ArgIsRead(b: string, i: nat, v: nat, c: nat, next: nat, a: Arg, rest: seq<Event>)
    requires ArgOk(a) && v == i + |OpenTag("", a.elt, [])| && c == v + |ValueOf(a)|
    requires TextAt(b, i, OpenTag("", a.elt, [])) && TextAt(b, v, ValueOf(a)) && TextAt(b, c, CloseTag(a.elt))
    requires next == c + |CloseTag(a.elt)| && Events(b, next) == rest
    ensures Events(b, i) == ArgEvents(a) + rest
  {
    NameHasNoEnd(a.elt);
    CloseTagIsReported(b, c, next, a.elt, rest);
    ArgIsOpened(b, i, v, c, a, [End(a.elt)] + rest);
    SameEvents(OpeningEvents(a), [End(a.elt)], rest);
  }

  lemma OneTurnEvents(b: string, i: nat, j: nat, first: seq<Event>)
    requires i + 1 < |b| && ParseTurn(b, i) == Turn(first, Some(j))
    ensures Events(b, i) == first + Events(b, j)
  {
  }

  lemma {:induction false} ArgsAreReported(b: string, i: nat, end: nat, args: seq<Arg>, more: string, rest: seq<Event>)
    requires ArgsOk(args) && TextAt(b, i, ArgsText(args) + more) && end == i + |ArgsText(args)|
    requires Events(b, end) == rest
    ensures Events(b, i) == ArgsEvents(args) + rest
    decreases |args|
  {
    if args != [] {
      var next := FirstArgPieces(b, i, args, more);
      ArgsAreReported(b, next, end, args[1..], more, rest);
      OneArgIsReported(b, i, next, args[0], ArgsText(args[1..]) + more, ArgsEvents(args[1..]) + rest);
      SameEvents(ArgEvents(args[0]), ArgsEvents(args[1..]), rest);
    }
  }

  lemma FirstArgPieces(b: string, i: nat, args: seq<Arg>, more: string) returns (next: nat)
    requires args != [] && TextAt(b, i, ArgsText(args) + more)
    ensures next == i + |ArgText(args[0], "")|
    ensures TextAt(b, i, ArgText(args[0], ArgsText(args[1..]) + more)) && TextAt(b, next, ArgsText(args[1..]) + more)
    ensures next + |ArgsText(args[1..])| == i + |ArgsText(args)|
  {
    var after := ArgsText(args[1..]);
    ArgTextGoesOn(args[0], after, more);
    var v, c := ArgPieces(b, i, args[0], after + more);
    next := i + |ArgText(args[0], "")|;
  }

  lemma ArgTextGoesOn(a: Arg, rest: string, more: string)
    ensures ArgText(a, rest) + more == ArgText(a, rest + more)
    ensures |ArgText(a, rest)| == |ArgText(a, "")| + |rest|
  {
    var open, close := OpenTag("", a.elt, []), CloseTag(a.elt);
    assert (open + (ValueOf(a) + (close + rest))) + more == open + (ValueOf(a) + (close + (rest + more)));
  }

  lemma SameEvents(a: seq<Event>, b: seq<Event>, c: seq<Event>)
    ensures a + (b + c) == a + b + c
  {
  }

  /** A start tag without text in front of another start tag, or of an end tag. */
  lemma TagIsReported(b: string, i: nat, e: nat, prefix: string, name: string, attrs: seq<Attr>, rest: seq<Event>)
    requires PrefixOk(prefix) && NameOk(name) && AttrsOk(attrs) && TextAt(b, i, OpenTag(prefix, name, attrs))
    requires e == i + |OpenTag(prefix, name, attrs)| && e + 1 < |b| && b[e] == '<' && b[e + 1] != '!'
    requires Events(b, e) == rest
    ensures Events(b, i) == [Start(name)] + rest
  {
    OpenTagTurn(b, i, prefix, name, attrs, "");
    OneTurnEvents(b, i, e, [Start(name)]);
  }

  ghost function ClosingEvents(action: string): seq<Event> {
    [End("u:" + action), End("s:Body"), End("s:Envelope")]
  }

  lemma ClosingPieces(b: string, i: nat, action: string)
    requires TextAt(b, i, Closing(action))
    ensures var j := i + |CloseTag("u:" + action)|; var k := j + |CloseTag("s:Body")|;
      var e := k + |CloseTag("s:Envelope")|;
      && TextAt(b, i, CloseTag("u:" + action)) && TextAt(b, j, CloseTag("s:Body"))
      && TextAt(b, k, CloseTag("s:Envelope"))
      && TextAt(b, e, "\r\n") && e + 2 == i + |Closing(action)|
  {
    var u, body, envelope := CloseTag("u:" + action), CloseTag("s:Body"), CloseTag("s:Envelope");
    TextSplit(b, i, u, body + (envelope + "\r\n"));
    TextSplit(b, i + |u|, body, envelope + "\r\n");
    TextSplit(b, i + |u| + |body|, envelope, "\r\n");
  }

  lemma NewlineIsSkipped(b: string, i: nat)
    requires TextAt(b, i, "\r\n") && |b| == i + 2
    ensures Events(b, i) == []
  {
    assert b[i] == "\r\n"[0] && b[i + 1] == "\r\n"[1];
    NothingReported(b, i, |b|);
  }

  lemma ClosingIsReported(b: string, i: nat, action: string)
    requires NameOk(action) && TextAt(b, i, Closing(action)) && i + |Closing(action)| == |b|
    ensures Events(b, i) == ClosingEvents(action)
  {
    ClosingPieces(b, i, action);
    NameHasNoEnd(action);
    var j := i + |CloseTag("u:" + action)|;
    var k := j + |CloseTag("s:Body")|;
    var e := k + |CloseTag("s:Envelope")|;
    NewlineIsSkipped(b, e);
    CloseTagIsReported(b, k, e, "s:Envelope", []);
    CloseTagIsReported(b, j, k, "s:Body", [End("s:Envelope")]);
    CloseTagIsReported(b, i, j, "u:" + action, [End("s:Body"), End("s:Envelope")]);
  }

  ghost function BodyEvents(action: string, args: seq<Arg>): seq<Event> {
    [Start("Envelope")] + ([Start("Body")] + ([Start(action)] + (ArgsEvents(args) + ClosingEvents(action))))
  }

  /** After the action's start tag come the arguments, then the end tags. */
  lemma ActionIsReported(b: string, i: nat, a: nat, action: string, service: string, args: seq<Arg>)
    requires NameOk(action) && ServiceOk(service) && ArgsOk(args)
    requires var tag := OpenTag("u:", action, [Attr("xmlns:u", service)]); a == i + |tag| && TextAt(b, i, tag)
    requires TextAt(b, a, ArgsText(args) + Closing(action)) && a + |ArgsText(args) + Closing(action)| == |b|
    ensures Events(b, i) == [Start(action)] + (ArgsEvents(args) + ClosingEvents(action))
  {
    ArgumentsThenClosing(b, a, action, args);
    TagFollows(b, a, action, args);
    ServiceAttr(service);
    TagIsReported(b, i, a, "u:", action, [Attr("xmlns:u", service)], ArgsEvents(args) + ClosingEvents(action));
  }

  lemma ActionPieces(b: string, i: nat, action: string, service: string, more: string)
    requires TextAt(b, i, ActionText(action, service, more))
    ensures var tag := OpenTag("u:", action, [Attr("xmlns:u", service)]);
      TextAt(b, i, tag) && TextAt(b, i + |tag|, more) && |ActionText(action, service, more)| == |tag| + |more|
  {
    TextSplit(b, i, OpenTag("u:", action, [Attr("xmlns:u", service)]), more);
  }

  lemma ArgumentsThenClosing(b: string, i: nat, action: string, args: seq<Arg>)
    requires NameOk(action) && ArgsOk(args)
    requires TextAt(b, i, ArgsText(args) + Closing(action)) && i + |ArgsText(args) + Closing(action)| == |b|
    ensures Events(b, i) == ArgsEvents(args) + ClosingEvents(action)
  {
    var end := i + |ArgsText(args)|;
    TextSplit(b, i, ArgsText(args), Closing(action));
    ClosingIsReported(b, end, action);
    ArgsAreReported(b, i, end, args, Closing(action), ClosingEvents(action));
  }

  lemma ServiceAttr(service: string)
    requires ServiceOk(service)
    ensures AttrsOk([Attr("xmlns:u", service)]) && PrefixOk("u:")
  {
    assert "u:"[..1] == "u";
    assert forall k | 0 <= k < |service| :: service[k] in service;
  }

  /** The arguments, or the end tags if there are none, start with a tag. */
  lemma TagFollows(b: string, i: nat, action: string, args: seq<Arg>)
    requires ArgsOk(args) && TextAt(b, i, ArgsText(args) + Closing(action))
    ensures i + 1 < |b| && b[i] == '<' && b[i + 1] != '!'
  {
    TextSplit(b, i, ArgsText(args), Closing(action));
    if args == [] {
      TextSplit(b, i, CloseTag("u:" + action), CloseTag("s:Body") + (CloseTag("s:Envelope") + "\r\n"));
      CloseTagLetters(b, i, "u:" + action);
    } else {
      var open := OpenTag("", args[0].elt, []);
      TextSplit(b, i, open, ValueOf(args[0]) + (CloseTag(args[0].elt) + ArgsText(args[1..])));
      assert open[0] == '<' && open[1] == args[0].elt[0];
    }
  }

  /** Parsing the full body reports its tags and the values of its arguments, and nothing else. */
  lemma {:induction false} BodyIsReported(action: string, service: string, args: seq<Arg>)
    requires NameOk(action) && ServiceOk(service) && ArgsOk(args)
    ensures Events(FullBody(action, service, args), 0) == BodyEvents(action, args)
  {
    var text := ActionText(action, service, ArgsText(args) + Closing(action));
    BodyPieces(FullBody(action, service, args), text);
    BodyIsReportedAt(FullBody(action, service, args), action, service, args);
  }

  lemma BodyIsReportedAt(b: string, action: string, service: string, args: seq<Arg>)
    requires NameOk(action) && ServiceOk(service) && ArgsOk(args)
    requires BodyAt(b, ActionText(action, service, ArgsText(args) + Closing(action)))
    ensures Events(b, 0) == BodyEvents(action, args)
  {
    var e := |PROLOG| + |OpenTag("s:", "Envelope", EnvelopeAttrs())|;
    var a := e + |OpenTag("s:", "Body", [])|;
    ActionPieces(b, a, action, service, ArgsText(args) + Closing(action));
    ActionIsReported(b, a, a + |OpenTag("u:", action, [Attr("xmlns:u", service)])|, action, service, args);
    FrontIsReported(b, e, a, ActionText(action, service, ArgsText(args) + Closing(action)),
      [Start(action)] + (ArgsEvents(args) + ClosingEvents(action)));
  }

  /** The two outer tags, in front of a text that starts with a start tag. */
  lemma FrontIsReported(b: string, e: nat, a: nat, text: string, rest: seq<Event>)
    requires BodyAt(b, text) && |text| >= 2 && text[0] == '<' && text[1] == 'u' && Events(b, a) == rest
    requires e == |PROLOG| + |OpenTag("s:", "Envelope", EnvelopeAttrs())| && a == e + |OpenTag("s:", "Body", [])|
    ensures Events(b, 0) == [Start("Envelope")] + ([Start("Body")] + rest)
  {
    BodyTagIsReported(b, e, a, text, rest);
    EnvelopeIsReported(b, |PROLOG|, e, OpenTag("s:", "Body", []), [Start("Body")] + rest);
    PrologIsSkipped(b);
  }

  ghost predicate BodyAt(b: string, text: string) {
    var e := |PROLOG| + |OpenTag("s:", "Envelope", EnvelopeAttrs())|;
    var a := e + |OpenTag("s:", "Body", [])|;
    && TextAt(b, 0, PROLOG) && TextAt(b, |PROLOG|, OpenTag("s:", "Envelope", EnvelopeAttrs()))
    && TextAt(b, e, OpenTag("s:", "Body", [])) && TextAt(b, a, text) && a + |text| == |b|
  }

  lemma BodyPieces(b: string, text: string)
    requires b == PROLOG + (OpenTag("s:", "Envelope", EnvelopeAttrs()) + (OpenTag("s:", "Body", []) + text))
    ensures BodyAt(b, text)
  {
    Pieces(b, PROLOG, OpenTag("s:", "Envelope", EnvelopeAttrs()), OpenTag("s:", "Body", []), text);
  }

  lemma Pieces(b: string, p: string, q: string, r: string, s: string)
    requires b == p + (q + (r + s))
    ensures TextAt(b, 0, p) && TextAt(b, |p|, q) && TextAt(b, |p| + |q|, r) && TextAt(b, |p| + |q| + |r|, s)
    ensures |b| == |p| + |q| + |r| + |s|
  {
    TextSplit(b, 0, p, q + (r + s));
    TextSplit(b, |p|, q, r + s);
    TextSplit(b, |p| + |q|, r, s);
  }

  lemma PrologIsSkipped(b: string)
    requires TextAt(b, 0, PROLOG)
    ensures Events(b, 0) == Events(b, |PROLOG|)
  {
    assert PROLOG[1..] == "?xml version=\"1.0\"?>\r\n";
    assert '<' !in PROLOG[1..];
    assert PROLOG[1] == '?' && PROLOG[1] == b[1];
    forall k | 0 < k < |PROLOG|
      ensures b[k] != '<'
    {
      assert PROLOG[k] == b[k];
      assert PROLOG[1..][k - 1] == b[k];
    }
    NothingReported(b, 0, |PROLOG|);
  }

  lemma EnvelopeAttrsOk()
    ensures AttrsOk(EnvelopeAttrs())
  {
    UrlsHaveNoQuote();
    NamesOfAttrs();
    assert EnvelopeAttrs()[1..] == [Attr("s:encodingStyle", ENCODING_URL)];
  }

  lemma UrlsHaveNoQuote()
    ensures AttrOk(Attr("x", ENVELOPE_URL)) && AttrOk(Attr("x", ENCODING_URL))
  {
    EnvelopeUrl();
    EncodingUrl();
    NoQuote(ENVELOPE_URL);
    NoQuote(ENCODING_URL);
  }

  lemma EnvelopeUrl()
    ensures '"' !in ENVELOPE_URL
  {
    assert ENVELOPE_URL == "http://schemas.xmlsoap.org" + "/soap/envelope/";
  }

  lemma EncodingUrl()
    ensures '"' !in ENCODING_URL
  {
    assert ENCODING_URL == "http://schemas.xmlsoap.org" + "/soap/encoding/";
  }

  lemma NoQuote(value: string)
    requires '"' !in value
    ensures AttrOk(Attr("x", value))
  {
  }

  lemma NamesOfAttrs()
    ensures AttrOk(Attr("xmlns:s", "")) && AttrOk(Attr("s:encodingStyle", ""))
  {
  }

  lemma EnvelopeIsReported(b: string, i: nat, e: nat, body: string, rest: seq<Event>)
    requires TextAt(b, i, OpenTag("s:", "Envelope", EnvelopeAttrs()))
    requires e == i + |OpenTag("s:", "Envelope", EnvelopeAttrs())|
    requires body == OpenTag("s:", "Body", []) && TextAt(b, e, body) && Events(b, e) == rest
    ensures Events(b, i) == [Start("Envelope")] + rest
  {
    EnvelopeAttrsOk();
    assert "s:"[..1] == "s";
    assert body[0] == '<' && body[1] == 's';
    TagIsReported(b, i, e, "s:", "Envelope", EnvelopeAttrs(), rest);
  }

  lemma BodyTagIsReported(b: string, i: nat, e: nat, text: string, rest: seq<Event>)
    requires TextAt(b, i, OpenTag("s:", "Body", [])) && e == i + |OpenTag("s:", "Body", [])| && TextAt(b, e, text)
    requires |text| >= 2 && text[0] == '<' && text[1] == 'u' && Events(b, e) == rest
    ensures Events(b, i) == [Start("Body")] + rest
  {
    assert "s:"[..1] == "s";
    TagIsReported(b, i, e, "s:", "Body", [], rest);
  }

  // -------------------------------------------------------------------------- what is read back

  /** The list after the arguments: last argument first, names and values cut to their fields. */
  ghost function Listed(args: seq<Arg>): seq<Entry> {
    if args == [] then [] else
      var name := AtMost(args[0].elt, MAX_NAME);
      Listed(args[1..]) + if name == PORT_LISTING then [] else [Entry(name, AtMost(ValueOf(args[0]), MAX_VALUE))]
  }

  /** The last port listing among the arguments that is not empty. */
  ghost function LastListing(args: seq<Arg>, before: Option<string>): Option<string> {
    if args == [] then before
    else
      var isListing := args[0].elt == PORT_LISTING && ValueOf(args[0]) != "";
      LastListing(args[1..], if isListing then Some(ValueOf(args[0])) else before)
  }

  lemma CutIsWhole(s: string, n: nat)
    requires '\0' !in s
    ensures CString(AtMost(s, n)) == AtMost(s, n)
  {
    assert forall c | c in AtMost(s, n) :: c in s;
    CStringIsWhole(AtMost(s, n));
  }

  lemma CutListing(s: string)
    ensures AtMost(s, MAX_NAME) == PORT_LISTING <==> s == PORT_LISTING
  {
  }

  lemma OneArgIsHandled(r: Reply, a: Arg)
    requires ArgOk(a)
    ensures HandleAll(r, ArgEvents(a)) ==
      Reply(Listed([a]) + r.list, AtMost(a.elt, MAX_NAME), LastListing([a], r.portListing), false, None)
  {
    NameHasNoEnd(a.elt);
    CutIsWhole(a.elt, MAX_NAME);
    CutIsWhole(ValueOf(a), MAX_VALUE);
    CutListing(a.elt);
    ArgEventsHandled(r, a);
    ListedAlone(a, r.portListing);
  }

  lemma ListedAlone(a: Arg, before: Option<string>)
    ensures var name := AtMost(a.elt, MAX_NAME);
      Listed([a]) == if name == PORT_LISTING then [] else [Entry(name, AtMost(ValueOf(a), MAX_VALUE))]
    ensures LastListing([a], before) == if a.elt == PORT_LISTING && ValueOf(a) != "" then Some(ValueOf(a)) else before
  {
    assert [a][1..] == [];
  }

  /** An entry keeps at most 63 characters of a name and 127 of a value. */
  lemma LongArgIsCut(r: Reply, a: Arg)
    requires ArgOk(a) && a.elt != PORT_LISTING
    ensures var name := if |a.elt| <= 63 then a.elt else a.elt[..63];
      var value := if |ValueOf(a)| <= 127 then ValueOf(a) else ValueOf(a)[..127];
      HandleAll(r, ArgEvents(a)).list == [Entry(name, value)] + r.list
  {
    OneArgIsHandled(r, a);
    CutListing(a.elt);
    ListedAlone(a, r.portListing);
  }

  lemma ArgEventsHandled(r: Reply, a: Arg)
    ensures var started := Handle(r, Start(a.elt));
      HandleAll(r, ArgEvents(a)) ==
        Handle(if ValueOf(a) != "" then Handle(started, Data(ValueOf(a))) else started, End(a.elt))
  {
    var started := Handle(r, Start(a.elt));
    if ValueOf(a) != "" {
      HandleThree(r, Start(a.elt), Data(ValueOf(a)), End(a.elt));
      assert ArgEvents(a) == [Start(a.elt), Data(ValueOf(a)), End(a.elt)];
    } else {
      HandleTwo(r, Start(a.elt), End(a.elt));
      assert ArgEvents(a) == [Start(a.elt), End(a.elt)];
    }
  }

  lemma HandleTwo(r: Reply, e: Event, f: Event)
    ensures HandleAll(r, [e, f]) == Handle(Handle(r, e), f)
  {
    assert [e, f][1..] == [f] && [f][1..] == [];
    assert HandleAll(Handle(r, e), [f]) == Handle(Handle(r, e), f);
  }

  lemma HandleThree(r: Reply, e: Event, f: Event, g: Event)
    ensures HandleAll(r, [e, f, g]) == Handle(Handle(Handle(r, e), f), g)
  {
    assert [e, f, g][1..] == [f, g];
    HandleTwo(Handle(r, e), f, g);
  }

  lemma {:induction false} ArgsAreHandled(r: Reply, args: seq<Arg>)
    requires ArgsOk(args)
    ensures var s := HandleAll(r, ArgsEvents(args));
      s.list == Listed(args) + r.list && s.portListing == LastListing(args, r.portListing) && (args != [] ==> !s.open)
    decreases |args|
  {
    if args != [] {
      HandleBoth(r, ArgEvents(args[0]), ArgsEvents(args[1..]));
      OneArgIsHandled(r, args[0]);
      var s := HandleAll(r, ArgEvents(args[0]));
      ArgsAreHandled(s, args[1..]);
      ListedFirst(args, r.list, r.portListing);
      assert args[1..] == [] ==> ArgsEvents(args[1..]) == [];
    }
  }

  lemma ListedFirst(args: seq<Arg>, list: seq<Entry>, before: Option<string>)
    requires args != []
    ensures Listed(args[1..]) + (Listed([args[0]]) + list) == Listed(args) + list
    ensures LastListing(args[1..], LastListing([args[0]], before)) == LastListing(args, before)
  {
    ListedAlone(args[0], before);
    SameEntries(Listed(args[1..]), Listed([args[0]]), list);
  }

  lemma SameEntries(a: seq<Entry>, b: seq<Entry>, c: seq<Entry>)
    ensures a + (b + c) == a + b + c
  {
  }

  /**
   Parsing the full body lists the arguments and nothing else, except that an action without
   arguments is itself taken for an argument with an empty value.
   */
  lemma {:induction false} BodyIsReadBack(action: string, service: string, args: seq<Arg>)
    requires NameOk(action) && ServiceOk(service) && ArgsOk(args)
    ensures var r := HandleAll(EMPTY_REPLY, Events(FullBody(action, service, args), 0));
      && r.portListing == LastListing(args, None)
      && r.list == (if args == [] && action != PORT_LISTING then [Entry(AtMost(action, MAX_NAME), "")]
         else Listed(args))
      && (r.list == Listed(args) <==> args != [] || action == PORT_LISTING)
  {
    BodyIsReported(action, service, args);
    BodyIsHandled(action, args);
  }

  lemma BodyIsHandled(action: string, args: seq<Arg>)
    requires NameOk(action) && ArgsOk(args)
    ensures var r := HandleAll(EMPTY_REPLY, BodyEvents(action, args));
      && r.portListing == LastListing(args, None)
      && r.list == (if args == [] && action != PORT_LISTING then [Entry(AtMost(action, MAX_NAME), "")]
         else Listed(args))
      && (r.list == Listed(args) <==> args != [] || action == PORT_LISTING)
  {
    var started := Reply([], AtMost(action, MAX_NAME), None, true, None);
    StartsAreHandled(action, ArgsEvents(args) + ClosingEvents(action));
    HandleBoth(started, ArgsEvents(args), ClosingEvents(action));
    ArgsAreHandled(started, args);
    ClosingIsHandled(HandleAll(started, ArgsEvents(args)), action);
    CutListing(action);
  }

  lemma StartsAreHandled(action: string, rest: seq<Event>)
    requires NameOk(action)
    ensures HandleAll(EMPTY_REPLY, [Start("Envelope")] + ([Start("Body")] + ([Start(action)] + rest))) ==
      HandleAll(Reply([], AtMost(action, MAX_NAME), None, true, None), rest)
  {
    NameHasNoEnd(action);
    CutIsWhole(action, MAX_NAME);
    var r1 := Handle(EMPTY_REPLY, Start("Envelope"));
    var r2 := Handle(r1, Start("Body"));
    HandleFirst(EMPTY_REPLY, Start("Envelope"), [Start("Body")] + ([Start(action)] + rest));
    HandleFirst(r1, Start("Body"), [Start(action)] + rest);
    HandleFirst(r2, Start(action), rest);
  }

  lemma HandleFirst(r: Reply, e: Event, rest: seq<Event>)
    ensures HandleAll(r, [e] + rest) == HandleAll(Handle(r, e), rest)
  {
    assert ([e] + rest)[1..] == rest;
  }

  lemma ClosingIsHandled(r: Reply, action: string)
    ensures var s := HandleAll(r, ClosingEvents(action));
      s.portListing == r.portListing && s.list == if r.open then Handle(r, End("u:" + action)).list else r.list
  {
    HandleThree(r, End("u:" + action), End("s:Body"), End("s:Envelope"));
  }

  ghost predicate Distinct(args: seq<Arg>) {
    args == [] || (Distinct(args[1..]) && forall k | 1 <= k < |args| :: args[k].elt != args[0].elt)
  }

  lemma {:induction false} ListedNames(args: seq<Arg>, name: string)
    requires |name| <= MAX_NAME && forall k | 0 <= k < |args| :: |args[k].elt| <= MAX_NAME && args[k].elt != name
    ensures FirstValue(Listed(args), name) == None
    decreases |args|
  {
    if args != [] {
      ListedNames(args[1..], name);
      var entry := Entry(args[0].elt, AtMost(ValueOf(args[0]), MAX_VALUE));
      LookPast(Listed(args[1..]), if args[0].elt == PORT_LISTING then [] else [entry], name);
    }
  }

  lemma {:induction false} LookPast(list: seq<Entry>, more: seq<Entry>, name: string)
    ensures FirstValue(list + more, name) ==
      if FirstValue(list, name).Some? then FirstValue(list, name) else FirstValue(more, name)
  {
    if list == [] {
      assert list + more == more;
    } else {
      assert (list + more)[1..] == list[1..] + more;
      LookPast(list[1..], more, name);
    }
  }

  /** With distinct names that fit, the list gives each argument its value. */
  lemma {:induction false} ListedValue(args: seq<Arg>, k: nat)
    requires k < |args| && Distinct(args) && args[k].elt != PORT_LISTING && |ValueOf(args[k])| <= MAX_VALUE
    requires forall j | 0 <= j < |args| :: |args[j].elt| <= MAX_NAME
    ensures FirstValue(Listed(args), args[k].elt) == Some(ValueOf(args[k]))
    decreases |args|
  {
    var first := if args[0].elt == PORT_LISTING then [] else [Entry(args[0].elt, AtMost(ValueOf(args[0]), MAX_VALUE))];
    LookPast(Listed(args[1..]), first, args[k].elt);
    if k == 0 {
      ListedNames(args[1..], args[0].elt);
    } else {
      ListedValue(args[1..], k - 1);
    }
  }

  /** Looking an argument up in a parsed body gives the value it was printed with. */
  lemma {:induction false} ValueIsReadBack(action: string, service: string, args: seq<Arg>, k: nat)
    requires NameOk(action) && ServiceOk(service) && ArgsOk(args) && Distinct(args)
    requires k < |args| && args[k].elt != PORT_LISTING && |ValueOf(args[k])| <= MAX_VALUE
    requires forall j | 0 <= j < |args| :: |args[j].elt| <= MAX_NAME
    ensures FirstValue(HandleAll(EMPTY_REPLY, Events(FullBody(action, service, args), 0)).list, args[k].elt) ==
      Some(ValueOf(args[k]))
  {
    BodyIsReadBack(action, service, args);
    ListedValue(args, k);
  }
}
