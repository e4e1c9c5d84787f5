/**
 Tags as they are printed, with or without a prefix and attributes,
 and what the XML parser makes of them.
 */
module XmlTags {
  import opened Options
  import opened Texts
  import opened NameValueList
  import opened MiniXml

  datatype Attr = Attr(name: string, value: string)

  function AttrsText(attrs: seq<Attr>): string {
    if attrs == [] then "" else " " + AttrText(attrs[0], AttrsText(attrs[1..]))
  }

  function AttrText(a: Attr, more: string): string {
    a.name + ("=\"" + (a.value + ("\"" + more)))
  }

  /** A start tag; the prefix, if any, ends in a colon. */
  function OpenTag(prefix: string, name: string, attrs: seq<Attr>): string {
    "<" + (prefix + (name + (AttrsText(attrs) + ">")))
  }

  function CloseTag(name: string): string {
    "</" + (name + ">")
  }

  ghost predicate NameOk(name: string) {
    && name != "" && name[0] != '?' && name[0] != '!'
    && forall k | 0 <= k < |name| :: !EndsName(name[k]) && name[k] != ':' && name[k] != '\0'
  }

  ghost predicate PrefixOk(prefix: string) {
    prefix == "" || (|prefix| >= 2 && prefix[|prefix| - 1] == ':' && NameOk(prefix[..|prefix| - 1]))
  }

  ghost predicate AttrOk(a: Attr) {
    && a.name != "" && a.name[0] != '/' && a.name[0] != '>'
    && (forall k | 0 <= k < |a.name| :: !IsWhiteSpace(a.name[k]) && a.name[k] != '=')
    && (forall k | 0 <= k < |a.value| :: a.value[k] != '"')
  }

  ghost predicate AttrsOk(attrs: seq<Attr>) {
    attrs == [] || (AttrOk(attrs[0]) && AttrsOk(attrs[1..]))
  }

  // ------------------------------------------------------------------------------ scanning runs

  lemma {:induction false} UntilFinds(b: string, k: nat, e: nat, stop: set<char>)
    requires k <= e < |b| && InSet(b[e], stop) && forall j | k <= j < e :: !InSet(b[j], stop)
    ensures Until(b, k, stop) == Some(e)
    decreases e - k
  {
    if k < e {
      UntilFinds(b, k + 1, e, stop);
    }
  }

  lemma {:induction false} SpaceEndsBefore(b: string, k: nat, e: nat)
    requires k <= e < |b| && !IsWhiteSpace(b[e])
    ensures AfterSpace(b, k).Some? && AfterSpace(b, k).value <= e
    decreases e - k
  {
    if k < e && IsWhiteSpace(b[k]) {
      SpaceEndsBefore(b, k + 1, e);
    }
  }

  lemma {:induction false} TextEndsAt(b: string, k: nat, e: nat)
    requires k <= e && e + 1 < |b| && b[e] == '<' && forall j | k <= j < e :: b[j] != '<'
    ensures TextEnd(b, k) == Some(e)
    decreases e - k
  {
    if k < e {
      TextEndsAt(b, k + 1, e);
    }
  }

  lemma {:induction false} NameEndsAt(b: string, start: nat, k: nat, e: nat)
    requires start <= k <= e < |b| && EndsName(b[e]) && forall j | k <= j < e :: !EndsName(b[j]) && b[j] != ':'
    ensures ElementName(b, start, k) == Some(Name(start, e))
    decreases e - k
  {
    if k < e {
      NameEndsAt(b, start, k + 1, e);
    }
  }

  // --------------------------------------------------------------------------------- attributes

  lemma AttrPieces(b: string, k: nat, a: Attr, more: string)
    requires TextAt(b, k, AttrText(a, more))
    ensures var q := k + |a.name|; var e := q + 2 + |a.value|;
      && TextAt(b, k, a.name) && TextAt(b, q, "=\"") && TextAt(b, q + 2, a.value) && TextAt(b, e, "\"")
      && TextAt(b, e + 1, more)
  {
    var q := k + |a.name|;
    TextSplit(b, k, a.name, "=\"" + (a.value + ("\"" + more)));
    TextSplit(b, q, "=\"", a.value + ("\"" + more));
    TextSplit(b, q + 2, a.value, "\"" + more);
    TextSplit(b, q + 2 + |a.value|, "\"", more);
  }

  lemma QuotedAttribute(b: string, k: nat, q: nat, e: nat, a: Attr)
    requires AttrOk(a) && TextAt(b, k, a.name) && TextAt(b, q, "=\"") && TextAt(b, q + 2, a.value) && TextAt(b, e, "\"")
    requires q == k + |a.name| && e == q + 2 + |a.value|
    ensures Attribute(b, k) == Some(e)
  {
    assert b[q] == "=\""[0] && b[q + 1] == "=\""[1] && b[e] == "\""[0];
    forall j | k <= j < q
      ensures !InSet(b[j], SPACES + {'='})
    {
      assert b[j] == a.name[j - k];
    }
    UntilFinds(b, k, q, SPACES + {'='});
    forall j | q + 2 <= j < e
      ensures !InSet(b[j], {'"'})
    {
      assert b[j] == a.value[j - q - 2];
    }
    UntilFinds(b, q + 2, e, {'"'});
  }

  lemma {:induction false} AttributesEndAt(b: string, k: nat, attrs: seq<Attr>)
    requires AttrsOk(attrs) && TextAt(b, k, AttrsText(attrs)) && k + |AttrsText(attrs)| < |b|
    requires b[k + |AttrsText(attrs)|] == '>' || b[k + |AttrsText(attrs)|] == '/'
    ensures Attributes(b, k) == Some(k + |AttrsText(attrs)|)
    decreases |attrs|
  {
    if attrs != [] {
      var a, more := attrs[0], AttrsText(attrs[1..]);
      FirstAttribute(b, k, a, more);
      AttributesEndAt(b, k + 4 + |a.name| + |a.value|, attrs[1..]);
    }
  }

  /** The first attribute ends right before the text of the others. */
  lemma FirstAttribute(b: string, k: nat, a: Attr, more: string)
    requires AttrOk(a) && TextAt(b, k, " " + AttrText(a, more))
    ensures var e := k + 4 + |a.name| + |a.value|;
      && |" " + AttrText(a, more)| == 4 + |a.name| + |a.value| + |more|
      && e <= |b| && TextAt(b, e, more) && Attributes(b, k) == Attributes(b, e)
  {
    TextSplit(b, k, " ", AttrText(a, more));
    AttrPieces(b, k + 1, a, more);
    AttributeIsSkipped(b, k, a);
  }

  lemma AttributeIsSkipped(b: string, k: nat, a: Attr)
    requires var q := k + 1 + |a.name|; var e := q + 2 + |a.value|;
      && AttrOk(a) && TextAt(b, k, " ") && TextAt(b, k + 1, a.name) && TextAt(b, q, "=\"")
      && TextAt(b, q + 2, a.value) && TextAt(b, e, "\"")
    ensures Attributes(b, k) == Attributes(b, k + 4 + |a.name| + |a.value|)
  {
    var q := k + 1 + |a.name|;
    QuotedAttribute(b, k + 1, q, q + 2 + |a.value|, a);
    FirstLetters(b, k, a);
    SkipBoth(b, k, q + 2 + |a.value|);
  }

  lemma SkipBoth(b: string, k: nat, last: nat)
    requires k + 1 < |b| && b[k] == ' ' && !IsWhiteSpace(b[k + 1]) && b[k + 1] != '/' && b[k + 1] != '>'
    requires Attribute(b, k + 1) == Some(last)
    ensures Attributes(b, k) == Attributes(b, last + 1)
  {
  }

  lemma FirstLetters(b: string, k: nat, a: Attr)
    requires AttrOk(a) && TextAt(b, k, " ") && TextAt(b, k + 1, a.name)
    ensures b[k] == ' ' && !IsWhiteSpace(b[k + 1]) && b[k + 1] != '/' && b[k + 1] != '>'
  {
    assert b[k] == " "[0] && b[k + 1] == a.name[0];
  }

  // ------------------------------------------------------------------------------------- turns

  /** Text without '<' in front of a tag: reported only if that is an end tag. */
  lemma ContentIsText(b: string, k: nat, text: string)
    requires k < |b| && TextAt(b, k + 1, text) && '<' !in text
    requires var e := k + 1 + |text|; e + 1 < |b| && b[e] == '<' && b[e + 1] != '!'
    ensures var e := k + 1 + |text|;
      Content(b, k) == Turn(if text != "" && b[e + 1] == '/' then [Data(text)] else [], Some(e))
  {
    var e := k + 1 + |text|;
    NoTagInText(b, k + 1, text);
    SpaceEndsBefore(b, k + 1, e);
    var w := AfterSpace(b, k + 1).value;
    TextEndsAt(b, w, e);
    TextIsSlice(b, k + 1, text);
    NoCData(b, w, e);
  }

  lemma NoTagInText(b: string, k: nat, text: string)
    requires TextAt(b, k, text) && '<' !in text
    ensures forall j | k <= j < k + |text| :: b[j] != '<'
  {
    forall j | k <= j < k + |text|
      ensures b[j] != '<'
    {
      assert text[j - k] in text;
    }
  }

  lemma NoCData(b: string, w: nat, e: nat)
    requires w <= e && e + 1 < |b| && b[e] == '<' && b[e + 1] != '!' && forall j | w <= j < e :: b[j] != '<'
    ensures w + 12 <= |b| ==> b[w..w + 9] != "<![CDATA["
  {
    if w + 12 <= |b| {
      assert b[w..w + 9][0] == b[w] && b[w..w + 9][1] == b[w + 1];
    }
  }

  lemma PrefixedName(b: string, k: nat, prefix: string, name: string)
    requires PrefixOk(prefix) && NameOk(name) && TextAt(b, k, prefix) && TextAt(b, k + |prefix|, name)
    requires k + |prefix| + |name| < |b| && EndsName(b[k + |prefix| + |name|])
    ensures ElementName(b, k, k) == Some(Name(k + |prefix|, k + |prefix| + |name|))
  {
    var s := k + |prefix|;
    forall j | s <= j < s + |name|
      ensures !EndsName(b[j]) && b[j] != ':'
    {
      assert b[j] == name[j - s];
    }
    NameEndsAt(b, s, s, s + |name|);
    if prefix != "" {
      var c := s - 1;
      assert b[c] == prefix[|prefix| - 1];
      forall j | k <= j < c
        ensures !EndsName(b[j]) && b[j] != ':'
      {
        assert b[j] == prefix[..|prefix| - 1][j - k];
      }
      PrefixIsDropped(b, k, k, c);
    }
  }

  /** At a colon the name starts anew. */
  lemma {:induction false} PrefixIsDropped(b: string, start: nat, k: nat, c: nat)
    requires start <= k < c < |b| && b[c] == ':' && forall j | k <= j < c :: !EndsName(b[j]) && b[j] != ':'
    ensures ElementName(b, start, k) == ElementName(b, c + 1, c + 1)
    decreases c - k
  {
    if k + 1 < c {
      PrefixIsDropped(b, start, k + 1, c);
    }
  }

  /** A start tag and the text after it, in front of another tag. */
  lemma OpenTagTurn(b: string, i: nat, prefix: string, name: string, attrs: seq<Attr>, text: string)
    requires PrefixOk(prefix) && NameOk(name) && AttrsOk(attrs) && '<' !in text
    requires TextAt(b, i, OpenTag(prefix, name, attrs)) && TextAt(b, i + |OpenTag(prefix, name, attrs)|, text)
    requires var e := i + |OpenTag(prefix, name, attrs)| + |text|; e + 1 < |b| && b[e] == '<' && b[e + 1] != '!'
    ensures var e := i + |OpenTag(prefix, name, attrs)| + |text|;
      ParseTurn(b, i) ==
        Turn([Start(name)] + if text != "" && b[e + 1] == '/' then [Data(text)] else [], Some(e))
  {
    var a := i + |OpenTag(prefix, name, attrs)| - 1;
    ContentIsText(b, a, text);
    OpenTagIsRead(b, i, prefix, name, attrs, a, Content(b, a));
  }

  lemma OpenTagIsRead(b: string, i: nat, prefix: string, name: string, attrs: seq<Attr>, a: nat, content: Turn)
    requires PrefixOk(prefix) && NameOk(name) && AttrsOk(attrs) && TextAt(b, i, OpenTag(prefix, name, attrs))
    requires a + 1 == i + |OpenTag(prefix, name, attrs)| && a < |b| && Content(b, a) == content
    ensures i + 1 < |b| && ParseTurn(b, i) == Turn([Start(name)] + content.events, content.next)
  {
    var s := i + 1 + |prefix|;
    TagInPlace(b, i, prefix, name, attrs, s, s + |name|, a);
    TagIsRead(b, i, s, s + |name|, a, name, content);
  }

  /** A start tag from `i` to `a`, its bare name from `s` to `e`. */
  ghost predicate TagAt(b: string, i: nat, s: nat, e: nat, a: nat, name: string) {
    && i + 1 < |b| && b[i] == '<' && b[i + 1] != '?' && b[i + 1] != '!'
    && s < e <= |b| && b[s..e] == name && ElementName(b, i + 1, i + 1) == Some(Name(s, e))
    && a < |b| && b[a] == '>' && Attributes(b, e) == Some(a)
  }

  lemma OpenTagName(b: string, i: nat, prefix: string, name: string, attrs: seq<Attr>, s: nat, e: nat)
    requires PrefixOk(prefix) && NameOk(name) && AttrsOk(attrs) && TextAt(b, i, OpenTag(prefix, name, attrs))
    requires s == i + 1 + |prefix| && e == s + |name|
    ensures s < e <= |b| && b[s..e] == name && ElementName(b, i + 1, i + 1) == Some(Name(s, e))
  {
    OpenTagParts(b, i, prefix, name, attrs);
    PrefixedName(b, i + 1, prefix, name);
    TextIsSlice(b, s, name);
  }

  lemma OpenTagEnd(b: string, i: nat, prefix: string, name: string, attrs: seq<Attr>, e: nat, a: nat)
    requires PrefixOk(prefix) && NameOk(name) && AttrsOk(attrs) && TextAt(b, i, OpenTag(prefix, name, attrs))
    requires e == i + 1 + |prefix| + |name| && a + 1 == i + |OpenTag(prefix, name, attrs)|
    ensures Attributes(b, e) == Some(a)
    ensures a < |b| && b[i] == '<' && b[i + 1] != '?' && b[i + 1] != '!' && b[a] == '>'
  {
    OpenTagParts(b, i, prefix, name, attrs);
    AttributesEndAt(b, e, attrs);
  }

  lemma TagInPlace(b: string, i: nat, prefix: string, name: string, attrs: seq<Attr>, s: nat, e: nat, a: nat)
    requires PrefixOk(prefix) && NameOk(name) && AttrsOk(attrs) && TextAt(b, i, OpenTag(prefix, name, attrs))
    requires s == i + 1 + |prefix| && e == s + |name| && a + 1 == i + |OpenTag(prefix, name, attrs)| && a < |b|
    ensures TagAt(b, i, s, e, a, name)
  {
    OpenTagName(b, i, prefix, name, attrs, s, e);
    OpenTagEnd(b, i, prefix, name, attrs, e, a);
  }

  /** The parts of a start tag put together. */
  lemma TagIsRead(b: string, i: nat, s: nat, e: nat, a: nat, name: string, content: Turn)
    requires TagAt(b, i, s, e, a, name) && Content(b, a) == content
    ensures ParseTurn(b, i) == Turn([Start(name)] + content.events, content.next)
  {
    TagIsNoComment(b, i);
  }

  lemma TagIsNoComment(b: string, i: nat)
    requires i + 1 < |b| && b[i] == '<' && b[i + 1] != '?' && b[i + 1] != '!'
    ensures ParseTurn(b, i) == Tag(b, i + 1)
  {
    if i + 4 <= |b| {
      assert b[i..i + 4][1] == b[i + 1];
    }
  }

  lemma OpenTagParts(b: string, i: nat, prefix: string, name: string, attrs: seq<Attr>)
    requires PrefixOk(prefix) && NameOk(name) && AttrsOk(attrs) && TextAt(b, i, OpenTag(prefix, name, attrs))
    ensures var s := i + 1 + |prefix|; var e := s + |name|; var a := e + |AttrsText(attrs)|;
      && a == i + |OpenTag(prefix, name, attrs)| - 1 && a < |b|
      && b[i] == '<' && b[i + 1] != '?' && b[i + 1] != '!'
      && TextAt(b, i + 1, prefix) && TextAt(b, s, name) && TextAt(b, e, AttrsText(attrs))
      && b[a] == '>' && EndsName(b[e])
  {
    OpenTagPieces(b, i, prefix, name, attrs);
    OpenTagLetters(b, i, prefix, name, attrs);
  }

  lemma OpenTagPieces(b: string, i: nat, prefix: string, name: string, attrs: seq<Attr>)
    requires TextAt(b, i, OpenTag(prefix, name, attrs))
    ensures var s := i + 1 + |prefix|; var e := s + |name|; var a := e + |AttrsText(attrs)|;
      && a == i + |OpenTag(prefix, name, attrs)| - 1
      && TextAt(b, i, "<") && TextAt(b, i + 1, prefix) && TextAt(b, s, name) && TextAt(b, e, AttrsText(attrs))
      && TextAt(b, a, ">")
  {
    var s := i + 1 + |prefix|;
    TextSplit(b, i, "<", prefix + (name + (AttrsText(attrs) + ">")));
    TextSplit(b, i + 1, prefix, name + (AttrsText(attrs) + ">"));
    TextSplit(b, s, name, AttrsText(attrs) + ">");
    TextSplit(b, s + |name|, AttrsText(attrs), ">");
  }

  lemma OpenTagLetters(b: string, i: nat, prefix: string, name: string, attrs: seq<Attr>)
    requires PrefixOk(prefix) && NameOk(name)
    requires var s := i + 1 + |prefix|; var e := s + |name|; var a := e + |AttrsText(attrs)|;
      TextAt(b, i, "<") && TextAt(b, i + 1, prefix) && TextAt(b, s, name) && TextAt(b, e, AttrsText(attrs)) &&
        TextAt(b, a, ">")
    ensures var s := i + 1 + |prefix|; var e := s + |name|; var a := e + |AttrsText(attrs)|;
      b[i] == '<' && b[i + 1] != '?' && b[i + 1] != '!' && b[a] == '>' && EndsName(b[e])
  {
    var s := i + 1 + |prefix|;
    var e := s + |name|;
    assert b[i] == "<"[0] && b[e + |AttrsText(attrs)|] == ">"[0];
    assert b[s] == name[0];
    if prefix != "" {
      assert b[i + 1] == prefix[0] == prefix[..|prefix| - 1][0];
    }
    if attrs != [] {
      assert b[e] == AttrsText(attrs)[0] == ' ';
    }
  }

  lemma CloseTagTurn(b: string, i: nat, name: string)
    requires TextAt(b, i, CloseTag(name)) && '>' !in name
    ensures ParseTurn(b, i) == Turn([End(name)], Some(i + |CloseTag(name)|))
  {
    TextSplit(b, i, "</", name + ">");
    TextSplit(b, i + 2, name, ">");
    var e := i + 2 + |name|;
    assert b[i] == "</"[0] && b[i + 1] == "</"[1] && b[e] == ">"[0];
    forall j | i + 2 <= j < e
      ensures !InSet(b[j], {'>'})
    {
      assert name[j - i - 2] in name;
    }
    UntilFinds(b, i + 2, e, {'>'});
    TextIsSlice(b, i + 2, name);
    TagIsNoComment(b, i);
  }

  /** Characters that start no tag are passed over. */
  lemma {:induction false} NothingReported(b: string, i: nat, j: nat)
    requires i <= j <= |b| && forall k | i <= k < j :: b[k] == '<' ==> k + 1 < |b| && b[k + 1] == '?'
    ensures Events(b, i) == Events(b, j)
    decreases j - i
  {
    if i < j && i + 1 < |b| {
      OneIsSkipped(b, i);
      NothingReported(b, i + 1, j);
    }
  }

  lemma OneIsSkipped(b: string, i: nat)
    requires i + 1 < |b| && (b[i] == '<' ==> b[i + 1] == '?')
    ensures Events(b, i) == Events(b, i + 1)
  {
    if i + 4 <= |b| {
      assert b[i..i + 4][0] == b[i] && b[i..i + 4][1] == b[i + 1];
    }
    assert ParseTurn(b, i) == Turn([], Some(i + 1));
    assert [] + Events(b, i + 1) == Events(b, i + 1);
  }
}
