/**
 Forms of XML that a printed request does not use: other attributes, empty tags, comments and CDATA.
 */
module XmlForms {
  import opened Options
  import opened Texts
  import opened NameValueList
  import opened MiniXml
  import opened XmlTags

  // -------------------------------------------------------------------------------- attributes

  ghost predicate IsQuote(c: char) {
    c == '"' || c == '\''
  }

  /** What ends a value without quotes. */
  ghost predicate EndsValue(c: char) {
    IsWhiteSpace(c) || c == '>' || c == '/'
  }

  /**
   An attribute from `k` on: its '=' at `q`, its value from `v` behind any white space. At `e` is the closing
   quote, of the same kind as the opening one, or what ends a value without quotes.
   */
  ghost predicate AttributeAt(b: string, k: nat, q: nat, v: nat, e: nat) {
    && k <= q < v <= e < |b| && b[q] == '=' && (forall j | k <= j < q :: b[j] != '=')
    && (forall j | q < j < v :: IsWhiteSpace(b[j])) && !IsWhiteSpace(b[v])
    && if IsQuote(b[v]) then v < e && b[e] == b[v] && (forall j | v < j < e :: b[j] != b[v])
       else EndsValue(b[e]) && forall j | v <= j < e :: !EndsValue(b[j])
  }

  lemma {:induction false} EqualsFound(b: string, k: nat, q: nat)
    requires k <= q < |b| && b[q] == '=' && forall j | k <= j < q :: b[j] != '='
    ensures Until(b, k, SPACES + {'='}).Some? && k <= Until(b, k, SPACES + {'='}).value <= q
    ensures AfterEquals(b, k) == Some(q + 1)
    decreases q - k
  {
    if k < q {
      EqualsFound(b, k + 1, q);
    }
  }

  lemma {:induction false} SpaceEndsAt(b: string, k: nat, e: nat)
    requires k <= e < |b| && !IsWhiteSpace(b[e]) && forall j | k <= j < e :: IsWhiteSpace(b[j])
    ensures AfterSpace(b, k) == Some(e)
    decreases e - k
  {
    if k < e {
      SpaceEndsAt(b, k + 1, e);
    }
  }

  lemma ValueEndsAt(b: string, v: nat, e: nat)
    requires v <= e < |b|
    requires if IsQuote(b[v]) then v < e && b[e] == b[v] && (forall j | v < j < e :: b[j] != b[v])
      else EndsValue(b[e]) && forall j | v <= j < e :: !EndsValue(b[j])
    ensures ValueEnd(b, v) == Some(e)
  {
    if IsQuote(b[v]) {
      UntilFinds(b, v + 1, e, {b[v]});
    } else {
      UntilFinds(b, v, e, SPACES + {'>', '/'});
    }
  }

  /** An attribute is passed over together with the character that ends it, be that the '>' of the tag. */
  lemma AttributeIsPassed(b: string, k: nat, q: nat, v: nat, e: nat)
    requires AttributeAt(b, k, q, v, e) && !IsWhiteSpace(b[k]) && b[k] != '/' && b[k] != '>'
    ensures Attributes(b, k) == Attributes(b, e + 1)
  {
    AttributeEndsAt(b, k, q, v, e);
  }

  lemma AttributeEndsAt(b: string, k: nat, q: nat, v: nat, e: nat)
    requires AttributeAt(b, k, q, v, e)
    ensures Attribute(b, k) == Some(e)
  {
    EqualsFound(b, k, q);
    var name := Until(b, k, SPACES + {'='}).value;
    EqualsFound(b, name, q);
    SpaceEndsAt(b, q + 1, v);
    ValueEndsAt(b, v, e);
    AttributeParts(b, k, name, q, v, e);
  }

  lemma AttributeParts(b: string, k: nat, name: nat, q: nat, v: nat, e: nat)
    requires Until(b, k, SPACES + {'='}) == Some(name) && AfterEquals(b, name) == Some(q + 1)
    requires AfterSpace(b, q + 1) == Some(v) && ValueEnd(b, v) == Some(e)
    ensures Attribute(b, k) == Some(e)
  {
  }

  // -------------------------------------------------------------------------------- empty tags

  function EmptyTag(prefix: string, name: string, attrs: seq<Attr>): string {
    "<" + (prefix + (name + (AttrsText(attrs) + "/>")))
  }

  /** An empty tag from `i` to its '/' at `a`, its bare name from `s` to `e`. */
  ghost predicate EmptyTagAt(b: string, i: nat, s: nat, e: nat, a: nat, name: string) {
    && i + 1 < |b| && b[i] == '<' && b[i + 1] != '?' && b[i + 1] != '!'
    && s < e <= |b| && b[s..e] == name && ElementName(b, i + 1, i + 1) == Some(Name(s, e))
    && a + 1 < |b| && b[a] == '/' && b[a + 1] == '>' && Attributes(b, e) == Some(a)
  }

  /** One turn takes the tag that starts at `i` and ends before `next`, and stops at its '/'. */
  ghost predicate EmptyTagFrom(b: string, i: nat, next: nat, name: string) {
    && i + 1 < |b| && 2 <= next <= |b| && ParseTurn(b, i) == Turn([Start(name)], Some(next - 2))
    && b[next - 2] == '/' && b[next - 1] == '>'
  }

  /** What is reported from `i` up to `next`. */
  ghost predicate Reports(b: string, i: nat, events: seq<Event>, next: nat) {
    Events(b, i) == events + Events(b, next)
  }

  lemma EmptyTagPieces(b: string, i: nat, prefix: string, name: string, attrs: seq<Attr>)
    requires TextAt(b, i, EmptyTag(prefix, name, attrs))
    ensures var s := i + 1 + |prefix|; var e := s + |name|; var a := e + |AttrsText(attrs)|;
      && a + 2 == i + |EmptyTag(prefix, name, attrs)|
      && TextAt(b, i, "<") && TextAt(b, i + 1, prefix) && TextAt(b, s, name) && TextAt(b, e, AttrsText(attrs))
      && TextAt(b, a, "/>")
  {
    var s := i + 1 + |prefix|;
    TextSplit(b, i, "<", prefix + (name + (AttrsText(attrs) + "/>")));
    TextSplit(b, i + 1, prefix, name + (AttrsText(attrs) + "/>"));
    TextSplit(b, s, name, AttrsText(attrs) + "/>");
    TextSplit(b, s + |name|, AttrsText(attrs), "/>");
  }

  lemma EmptyTagLetters(b: string, i: nat, prefix: string, name: string, attrs: seq<Attr>)
    requires PrefixOk(prefix) && NameOk(name) && TextAt(b, i, EmptyTag(prefix, name, attrs))
    ensures var s := i + 1 + |prefix|; var e := s + |name|; var a := e + |AttrsText(attrs)|;
      && a + 1 < |b| && b[i] == '<' && b[i + 1] != '?' && b[i + 1] != '!'
      && b[a] == '/' && b[a + 1] == '>' && EndsName(b[e])
  {
    EmptyTagPieces(b, i, prefix, name, attrs);
    var s := i + 1 + |prefix|;
    var e := s + |name|;
    var a := e + |AttrsText(attrs)|;
    assert b[i] == "<"[0] && b[a] == "/>"[0] && b[a + 1] == "/>"[1];
    assert b[s] == name[0];
    if prefix != "" {
      assert b[i + 1] == prefix[0] == prefix[..|prefix| - 1][0];
    }
    if attrs != [] {
      assert b[e] == AttrsText(attrs)[0] == ' ';
    }
  }

  lemma EmptyTagName(b: string, i: nat, prefix: string, name: string, attrs: seq<Attr>, s: nat, e: nat)
    requires PrefixOk(prefix) && NameOk(name) && TextAt(b, i, EmptyTag(prefix, name, attrs))
    requires s == i + 1 + |prefix| && e == s + |name|
    ensures s < e <= |b| && b[s..e] == name && ElementName(b, i + 1, i + 1) == Some(Name(s, e))
  {
    EmptyTagPieces(b, i, prefix, name, attrs);
    EmptyTagLetters(b, i, prefix, name, attrs);
    PrefixedName(b, i + 1, prefix, name);
    TextIsSlice(b, s, name);
  }

  lemma EmptyTagEnd(b: string, i: nat, prefix: string, name: string, attrs: seq<Attr>, e: nat, a: nat)
    requires PrefixOk(prefix) && NameOk(name) && AttrsOk(attrs) && TextAt(b, i, EmptyTag(prefix, name, attrs))
    requires e == i + 1 + |prefix| + |name| && a + 2 == i + |EmptyTag(prefix, name, attrs)|
    ensures Attributes(b, e) == Some(a)
    ensures a + 1 < |b| && b[i] == '<' && b[i + 1] != '?' && b[i + 1] != '!' && b[a] == '/' && b[a + 1] == '>'
  {
    EmptyTagPieces(b, i, prefix, name, attrs);
    EmptyTagLetters(b, i, prefix, name, attrs);
    AttributesEndAt(b, e, attrs);
  }

  /** A well-formed empty tag from `i` up to `next`. */
  ghost predicate IsEmptyTag(b: string, i: nat, prefix: string, name: string, attrs: seq<Attr>, next: nat) {
    && PrefixOk(prefix) && NameOk(name) && AttrsOk(attrs) && TextAt(b, i, EmptyTag(prefix, name, attrs))
    && next == i + |EmptyTag(prefix, name, attrs)|
  }

  lemma EmptyTagInPlace(b: string, i: nat, prefix: string, name: string, attrs: seq<Attr>, next: nat)
    requires IsEmptyTag(b, i, prefix, name, attrs, next)
    ensures EmptyTagFrom(b, i, next, name)
  {
    var s := i + 1 + |prefix|;
    var e := s + |name|;
    EmptyTagName(b, i, prefix, name, attrs, s, e);
    EmptyTagEnd(b, i, prefix, name, attrs, e, next - 2);
    EmptyTagTurn(b, i, s, e, next - 2, name);
  }

  lemma SlashIsPassed(b: string, a: nat)
    requires a + 1 < |b| && b[a] == '/' && b[a + 1] == '>'
    ensures Events(b, a) == Events(b, a + 2)
  {
    NothingReported(b, a, a + 2);
  }

  lemma EmptyTagTurn(b: string, i: nat, s: nat, e: nat, a: nat, name: string)
    requires EmptyTagAt(b, i, s, e, a, name)
    ensures ParseTurn(b, i) == Turn([Start(name)], Some(a))
    ensures a + 1 < |b| && b[a] == '/' && b[a + 1] == '>'
  {
    TagIsNoComment(b, i);
  }

  lemma TurnReports(b: string, i: nat, events: seq<Event>, next: nat)
    requires i + 1 < |b| && ParseTurn(b, i) == Turn(events, Some(next))
    ensures next > i && Events(b, i) == events + Events(b, next)
  {
  }

  lemma EmptyTagIsRead(b: string, i: nat, next: nat, name: string)
    requires EmptyTagFrom(b, i, next, name)
    ensures Reports(b, i, [Start(name)], next)
  {
    TurnReports(b, i, [Start(name)], next - 2);
    SlashIsPassed(b, next - 2);
  }

  /** An empty tag, with or without attributes, reports its start and no end. */
  lemma EmptyTagReported(b: string, i: nat, prefix: string, name: string, attrs: seq<Attr>, next: nat)
    requires IsEmptyTag(b, i, prefix, name, attrs, next)
    ensures Reports(b, i, [Start(name)], next)
  {
    EmptyTagInPlace(b, i, prefix, name, attrs, next);
    EmptyTagIsRead(b, i, next, name);
  }

  // ---------------------------------------------------------------------------------- comments

  ghost predicate MarkAt(b: string, k: nat, mark: string) {
    k + |mark| <= |b| && b[k..k + |mark|] == mark
  }

  /** The mark stands at `e` and, from `k` on, nowhere before. */
  ghost predicate FirstAt(b: string, k: nat, e: nat, mark: string) {
    k <= e && MarkAt(b, e, mark) && forall j | k <= j < e :: !MarkAt(b, j, mark)
  }

  lemma {:induction false} CommentEndsAt(b: string, k: nat, e: nat)
    requires FirstAt(b, k, e, "-->")
    ensures CommentEnd(b, k) == if e + 3 < |b| then Some(e + 3) else None
    decreases e - k
  {
    if k < e {
      assert !MarkAt(b, k, "-->");
      CommentEndsAt(b, k + 1, e);
    }
  }

  /** A comment, whatever is in it, is passed over. */
  lemma CommentIsPassed(b: string, i: nat, e: nat)
    requires TextAt(b, i, "<!--") && FirstAt(b, i + 4, e, "-->")
    ensures Events(b, i) == Events(b, e + 3)
  {
    CommentEndsAt(b, i + 4, e);
    CommentTurn(b, i);
    if e + 3 < |b| {
      TurnReports(b, i, [], e + 3);
      assert [] + Events(b, e + 3) == Events(b, e + 3);
    } else {
      TurnStops(b, i);
    }
  }

  lemma TurnStops(b: string, i: nat)
    requires i + 1 < |b| && ParseTurn(b, i) == Turn([], None)
    ensures Events(b, i) == []
  {
  }

  lemma CommentTurn(b: string, i: nat)
    requires TextAt(b, i, "<!--")
    ensures ParseTurn(b, i) == Turn([], CommentEnd(b, i + 4))
  {
    TextIsSlice(b, i, "<!--");
  }

  // ------------------------------------------------------------------------------------- CDATA

  const CDATA := "<![CDATA["

  lemma {:induction false} CDataEndsAt(b: string, k: nat, e: nat)
    requires FirstAt(b, k, e, "]]>") && e + 3 < |b|
    ensures CDataEnd(b, k) == Some(e)
    decreases e - k
  {
    if k < e {
      assert !MarkAt(b, k, "]]>");
      CDataEndsAt(b, k + 1, e);
    }
  }

  /** White space from `k + 1`, a CDATA section from `c` whose text ends at `e`, and a '<' at `next`. */
  ghost predicate CDataAt(b: string, k: nat, c: nat, e: nat, next: nat) {
    && k < c && TextAt(b, c, CDATA) && (forall j | k < j < c :: IsWhiteSpace(b[j]))
    && FirstAt(b, c + 9, e, "]]>") && e + 3 <= next < |b| && b[next] == '<'
    && forall j | e + 3 <= j < next :: b[j] != '<'
  }

  lemma MarkHasNoTag(b: string, e: nat)
    requires e + 3 <= |b| && b[e..e + 3] == "]]>"
    ensures forall j | e <= j < e + 3 :: b[j] != '<'
  {
    assert b[e..e + 3][0] == b[e] && b[e..e + 3][1] == b[e + 1] && b[e..e + 3][2] == b[e + 2];
  }

  lemma CDataIsContent(b: string, k: nat, c: nat, e: nat, next: nat)
    requires k < |b| && CDataAt(b, k, c, e, next)
    ensures Content(b, k) == Turn(if e > c + 9 then [Data(b[c + 9..e])] else [], Some(next))
  {
    CDataStarts(b, k, c);
    CDataTurn(b, c + 9, e, next);
  }

  lemma CDataStarts(b: string, k: nat, c: nat)
    requires k < c && c + 12 <= |b| && TextAt(b, c, CDATA) && forall j | k < j < c :: IsWhiteSpace(b[j])
    ensures Content(b, k) == CData(b, c + 9)
  {
    assert b[c] == CDATA[0];
    SpaceEndsAt(b, k + 1, c);
    TextIsSlice(b, c, CDATA);
  }

  lemma CDataTurn(b: string, k: nat, e: nat, next: nat)
    requires FirstAt(b, k, e, "]]>") && e + 3 <= next < |b| && b[next] == '<'
    requires forall j | e + 3 <= j < next :: b[j] != '<'
    ensures CData(b, k) == Turn(if e > k then [Data(b[k..e])] else [], Some(next))
  {
    CDataEndsAt(b, k, e);
    MarkHasNoTag(b, e);
    UntilFinds(b, e, next, {'<'});
  }

  /** The text of a CDATA section behind a start tag is reported as it stands, tags and all. */
  lemma CDataIsReported(b: string, i: nat, prefix: string, name: string, attrs: seq<Attr>, c: nat, e: nat, next: nat)
    requires PrefixOk(prefix) && NameOk(name) && AttrsOk(attrs) && TextAt(b, i, OpenTag(prefix, name, attrs))
    requires CDataAt(b, i + |OpenTag(prefix, name, attrs)| - 1, c, e, next)
    ensures ParseTurn(b, i) == Turn([Start(name)] + if e > c + 9 then [Data(b[c + 9..e])] else [], Some(next))
  {
    var a := i + |OpenTag(prefix, name, attrs)| - 1;
    CDataIsContent(b, a, c, e, next);
    OpenTagIsRead(b, i, prefix, name, attrs, a, Content(b, a));
  }
}
