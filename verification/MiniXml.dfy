/**
 The cursor parser of minixml. Where the source would look at the byte just past its buffer, the
 functions see a NUL.
 */
module MiniXml {
  import opened Options
  import opened NameValueList

  predicate IsWhiteSpace(c: char) {
    c == ' ' || c == '\t' || c == '\r' || c == '\n'
  }

  function At(b: string, k: nat): char {
    if k < |b| then b[k] else '\0'
  }

  // --------------------------------------------------------------------------------- scanning

  /** Skips white space; nothing if the buffer ends in it. */
  ghost function AfterSpace(b: string, k: nat): (r: Option<nat>)
    ensures r.Some? ==> r.value >= k && (k < |b| ==> r.value < |b|)
    decreases |b| - k
  {
    if !IsWhiteSpace(At(b, k)) then Some(k) else if k + 1 >= |b| then None else AfterSpace(b, k + 1)
  }

  predicate InSet(c: char, stop: set<char>) {
    c in stop
  }

  /** Moves to the next character of a set; nothing if the buffer ends first. */
  ghost function Until(b: string, k: nat, stop: set<char>): (r: Option<nat>)
    ensures r.Some? ==> k <= r.value && InSet(At(b, r.value), stop) && (r.value > k ==> r.value < |b|)
    decreases |b| - k
  {
    if InSet(At(b, k), stop) then Some(k) else if k + 1 >= |b| then None else Until(b, k + 1, stop)
  }

  const SPACES := {' ', '\t', '\r', '\n'}

  // ------------------------------------------------------------------------------- attributes

  /** Past the '=' of an attribute. */
  ghost function AfterEquals(b: string, k: nat): (r: Option<nat>)
    ensures r.Some? ==> r.value > k
    decreases |b| - k
  {
    if At(b, k) == '=' then Some(k + 1) else if k + 1 >= |b| then None else AfterEquals(b, k + 1)
  }

  /** The last character of an attribute value that starts at `k`: its closing quote, or what ends it. */
  ghost function ValueEnd(b: string, k: nat): (r: Option<nat>)
    ensures r.Some? ==> r.value >= k
  {
    var sep := At(b, k);
    if sep == '\'' || sep == '"' then
      if k + 1 >= |b| then None else Until(b, k + 1, {sep})
    else Until(b, k, SPACES + {'>', '/'})
  }

  /** The last character of the attribute whose name starts at `k`. */
  ghost function Attribute(b: string, k: nat): (r: Option<nat>)
    ensures r.Some? ==> r.value >= k
  {
    var name := Until(b, k, SPACES + {'='});
    if name.None? then None else
      var equals := AfterEquals(b, name.value);
      if equals.None? then None else
        var value := AfterSpace(b, equals.value);
        if value.None? then None else ValueEnd(b, value.value)
  }

  /** parseatt: the '/' or '>' after the attributes, nothing if the buffer ends first. */
  ghost function Attributes(b: string, k: nat): (r: Option<nat>)
    ensures r.Some? ==> k <= r.value < |b| && (b[r.value] == '/' || b[r.value] == '>')
    decreases |b| - k
  {
    if k >= |b| then None
    else if b[k] == '/' || b[k] == '>' then Some(k)
    else if IsWhiteSpace(b[k]) then Attributes(b, k + 1)
    else
      var last := Attribute(b, k);
      if last.None? then None else Attributes(b, last.value + 1)
  }

  // --------------------------------------------------------------------------------- elements

  datatype Name = Name(start: nat, end: nat)

  predicate EndsName(c: char) {
    IsWhiteSpace(c) || c == '>' || c == '/'
  }

  /** An element name; a colon starts it anew. */
  ghost function ElementName(b: string, start: nat, k: nat): (r: Option<Name>)
    requires start <= k <= |b|
    ensures r.Some? ==> start <= r.value.start <= r.value.end <= |b| && k <= r.value.end
    decreases |b| - k
  {
    if EndsName(At(b, k)) then Some(Name(start, k))
    else if k + 1 >= |b| then None
    else if b[k + 1] == ':' then ElementName(b, k + 2, k + 2)
    else ElementName(b, start, k + 1)
  }

  /** Past the end of a comment. */
  ghost function CommentEnd(b: string, k: nat): (r: Option<nat>)
    ensures r.Some? ==> k < r.value <= |b|
    decreases |b| - k
  {
    if k + 3 >= |b| then None else if b[k..k + 3] == "-->" then Some(k + 3) else CommentEnd(b, k + 1)
  }

  /** The "]]>" of a CDATA section. */
  ghost function CDataEnd(b: string, k: nat): (r: Option<nat>)
    requires k + 3 <= |b|
    ensures r.Some? ==> k <= r.value && r.value + 3 <= |b|
    decreases |b| - k
  {
    if b[k..k + 3] == "]]>" then Some(k) else if k + 4 >= |b| then None else CDataEnd(b, k + 1)
  }

  /** The '<' after the text of an element, which must not be the last character. */
  ghost function TextEnd(b: string, k: nat): (r: Option<nat>)
    requires k < |b|
    ensures r.Some? ==> k <= r.value < |b| && b[r.value] == '<'
    decreases |b| - k
  {
    if b[k] == '<' then Some(k) else if k + 2 >= |b| then None else TextEnd(b, k + 1)
  }

  /** What a stretch of the buffer reports, and where the parser goes on; nothing if it stops. */
  datatype Turn = Turn(events: seq<Event>, next: Option<nat>)

  /** The content of an element whose tag ends at `k`. */
  ghost function Content(b: string, k: nat): (t: Turn)
    requires k < |b|
    ensures t.next.Some? ==> k < t.next.value < |b|
  {
    if k + 1 >= |b| then Turn([], None) else
      var from := AfterSpace(b, k + 1);
      if from.None? then Turn([], None)
      else if from.value + 12 <= |b| && b[from.value..from.value + 9] == "<![CDATA[" then CData(b, from.value + 9)
      else
        var end := TextEnd(b, from.value);
        if end.None? then Turn([], None)
        else Turn(if end.value > k + 1 && At(b, end.value + 1) == '/' then [Data(b[k + 1..end.value])] else [], end)
  }

  ghost function CData(b: string, k: nat): (t: Turn)
    requires k + 3 <= |b|
    ensures t.next.Some? ==> k <= t.next.value < |b|
  {
    var end := CDataEnd(b, k);
    if end.None? then Turn([], None)
    else Turn(if end.value > k then [Data(b[k..end.value])] else [], Until(b, end.value, {'<'}))
  }

  /** A start tag whose name ends at `k`. */
  ghost function StartTag(b: string, name: string, k: nat): (t: Turn)
    ensures t.next.Some? ==> k <= t.next.value <= |b|
  {
    var end := Attributes(b, k);
    if end.None? then Turn([Start(name)], None)
    else if b[end.value] == '/' then Turn([Start(name)], end)
    else
      var content := Content(b, end.value);
      Turn([Start(name)] + content.events, content.next)
  }

  /** An end tag whose '/' is at `k`. */
  ghost function EndTag(b: string, k: nat): (t: Turn)
    ensures t.next.Some? ==> k < t.next.value <= |b|
  {
    if k + 1 >= |b| then Turn([], None) else
      var end := Until(b, k + 1, {'>'});
      if end.None? then Turn([], None) else Turn([End(b[k + 1..end.value])], Some(end.value + 1))
  }

  /** A tag whose name starts at `k`. */
  ghost function Tag(b: string, k: nat): (t: Turn)
    requires k <= |b|
    ensures t.next.Some? ==> k <= t.next.value <= |b|
  {
    var name := ElementName(b, k, k);
    if name.None? then Turn([], None)
    else
      var end := name.value.end;
      if end > name.value.start then StartTag(b, b[name.value.start..end], end)
      else if At(b, end) == '/' then EndTag(b, end)
      else Turn([], Some(end))
  }

  /** One turn of the loop of parseelt. */
  ghost function ParseTurn(b: string, i: nat): (t: Turn)
    requires i + 1 < |b|
    ensures t.next.Some? ==> i < t.next.value <= |b|
  {
    if i + 4 <= |b| && b[i..i + 4] == "<!--" then Turn([], CommentEnd(b, i + 4))
    else if b[i] == '<' && b[i + 1] != '?' then Tag(b, i + 1)
    else Turn([], Some(i + 1))
  }

  /** All that parseelt reports from a cursor on. */
  ghost function Events(b: string, i: nat): seq<Event>
    decreases |b| - i
  {
    if i + 1 >= |b| then [] else
      var t := ParseTurn(b, i);
      if t.next.None? then t.events else t.events + Events(b, t.next.value)
  }

  // ------------------------------------------------------------------------------- the parser

  /** `struct xmlparser` with the callbacks of ParseNameValue. */
  class XmlParser {
    const buffer: string
    const data: NameValueParserData
    var xml: nat

    constructor (buffer: string, data: NameValueParserData)
      ensures this.buffer == buffer && this.data == data && xml == 0
    {
      this.buffer, this.data, xml := buffer, data, 0;
    }

    /** A loop that moves the cursor over white space. */
    method SkipSpace() returns (eof: bool)
      modifies this`xml
      ensures var r := AfterSpace(buffer, old(xml)); eof == r.None? && (!eof ==> xml == r.value)
    {
      eof := false;
      while !eof && IsWhiteSpace(At(buffer, xml))
        invariant eof ==> AfterSpace(buffer, old(xml)).None?
        invariant !eof ==> AfterSpace(buffer, old(xml)) == AfterSpace(buffer, xml)
        decreases if eof then 0 else if xml < |buffer| then 1 + |buffer| - xml else 1
      {
        eof := xml + 1 >= |buffer|;
        xml := xml + 1;
      }
    }

    /** A loop that moves the cursor to one of the characters looked for. */
    method SkipUntil(stop: set<char>) returns (eof: bool)
      modifies this`xml
      ensures var r := Until(buffer, old(xml), stop); eof == r.None? && (!eof ==> xml == r.value)
    {
      eof := false;
      while !eof && !InSet(At(buffer, xml), stop)
        invariant eof ==> Until(buffer, old(xml), stop).None?
        invariant !eof ==> Until(buffer, old(xml), stop) == Until(buffer, xml, stop)
        decreases if eof then 0 else if xml < |buffer| then 1 + |buffer| - xml else 1
      {
        eof := xml + 1 >= |buffer|;
        xml := xml + 1;
      }
    }

    method SkipEquals() returns (eof: bool)
      modifies this`xml
      ensures var r := AfterEquals(buffer, old(xml)); eof == r.None? && (!eof ==> xml == r.value)
    {
      eof := false;
      var c := At(buffer, xml);
      xml := xml + 1;
      while !eof && c != '='
        invariant xml > 0 && (!eof ==> c == At(buffer, xml - 1))
        invariant eof ==> AfterEquals(buffer, old(xml)).None?
        invariant !eof ==> AfterEquals(buffer, old(xml)) == AfterEquals(buffer, xml - 1)
        decreases if eof then 0 else if xml < |buffer| then 1 + |buffer| - xml else 1
      {
        if xml >= |buffer| {
          eof := true;
        } else {
          c := At(buffer, xml);
          xml := xml + 1;
        }
      }
    }

    method SkipValue() returns (eof: bool)
      modifies this`xml
      ensures var r := ValueEnd(buffer, old(xml)); eof == r.None? && (!eof ==> xml == r.value)
    {
      var sep := At(buffer, xml);
      if sep == '\'' || sep == '"' {
        xml := xml + 1;
        eof := xml >= |buffer|;
        if !eof {
          eof := SkipUntil({sep});
        }
      } else {
        eof := SkipUntil(SPACES + {'>', '/'});
      }
    }

    method SkipAttribute() returns (eof: bool)
      modifies this`xml
      ensures var r := Attribute(buffer, old(xml)); eof == r.None? && (!eof ==> xml == r.value)
    {
      eof := SkipUntil(SPACES + {'='});
      if !eof {
        eof := SkipEquals();
      }
      if !eof {
        eof := SkipSpace();
      }
      if !eof {
        eof := SkipValue();
      }
    }

    /** parseatt, for a parser without an attribute callback. */
    method ParseAtt() returns (eof: bool)
      modifies this`xml
      ensures var r := Attributes(buffer, old(xml)); eof == r.None? && (!eof ==> xml == r.value)
    {
      eof := false;
      while xml < |buffer| && !eof
        invariant eof ==> Attributes(buffer, old(xml)).None?
        invariant !eof ==> Attributes(buffer, old(xml)) == Attributes(buffer, xml)
        decreases if eof then 0 else if xml < |buffer| then 1 + |buffer| - xml else 1
      {
        if buffer[xml] == '/' || buffer[xml] == '>' {
          return;
        }
        if !IsWhiteSpace(buffer[xml]) {
          eof := SkipAttribute();
        }
        xml := xml + 1;
      }
      eof := true;
    }

    method SkipComment() returns (eof: bool)
      modifies this`xml
      ensures var r := CommentEnd(buffer, old(xml)); eof == r.None? && (!eof ==> xml == r.value)
    {
      eof := false;
      var found := false;
      while !eof && !found
        invariant eof ==> CommentEnd(buffer, old(xml)).None?
        invariant found ==> CommentEnd(buffer, old(xml)) == Some(xml + 3)
        invariant !eof && !found ==> CommentEnd(buffer, old(xml)) == CommentEnd(buffer, xml)
        decreases if eof || found then 0 else if xml < |buffer| then 1 + |buffer| - xml else 1
      {
        if xml + 3 >= |buffer| {
          eof := true;
        } else if buffer[xml..xml + 3] == "-->" {
          found := true;
        } else {
          xml := xml + 1;
        }
      }
      xml := xml + 3;
    }

    method ScanName() returns (start: nat, eof: bool)
      requires xml <= |buffer|
      modifies this`xml
      ensures var r := ElementName(buffer, old(xml), old(xml)); eof == r.None? && (!eof ==> r.value == Name(start, xml))
    {
      start, eof := xml, false;
      while !eof && !EndsName(At(buffer, xml))
        invariant start <= xml <= |buffer|
        invariant eof ==> ElementName(buffer, old(xml), old(xml)).None?
        invariant !eof ==> ElementName(buffer, old(xml), old(xml)) == ElementName(buffer, start, xml)
        decreases if eof then 0 else if xml < |buffer| then 1 + |buffer| - xml else 1
      {
        if xml + 1 >= |buffer| {
          eof := true;
        } else {
          xml := xml + 1;
          if buffer[xml] == ':' {
            xml := xml + 1;
            start := xml;
          }
        }
      }
    }

    method ScanCData() returns (eof: bool)
      requires xml + 3 <= |buffer|
      modifies this`xml, data
      ensures var t := CData(buffer, old(xml));
        data.State() == HandleAll(old(data.State()), t.events) && eof == t.next.None? && (!eof ==> xml == t.next.value)
    {
      var from := xml;
      eof := false;
      while !eof && buffer[xml..xml + 3] != "]]>"
        invariant from <= xml && xml + 3 <= |buffer| && data.State() == old(data.State())
        invariant eof ==> CDataEnd(buffer, from).None?
        invariant !eof ==> CDataEnd(buffer, from) == CDataEnd(buffer, xml)
        decreases if eof then 0 else if xml < |buffer| then 1 + |buffer| - xml else 1
      {
        if xml + 4 >= |buffer| {
          eof := true;
        } else {
          xml := xml + 1;
        }
      }
      if !eof {
        if xml > from {
          data.GetData(buffer[from..xml]);
        }
        eof := SkipUntil({'<'});
      }
    }

    method ScanText() returns (eof: bool)
      requires xml < |buffer|
      modifies this`xml
      ensures var r := TextEnd(buffer, old(xml)); eof == r.None? && (!eof ==> xml == r.value)
    {
      eof := false;
      while !eof && buffer[xml] != '<'
        invariant xml < |buffer|
        invariant eof ==> TextEnd(buffer, old(xml)).None?
        invariant !eof ==> TextEnd(buffer, old(xml)) == TextEnd(buffer, xml)
        decreases if eof then 0 else if xml < |buffer| then 1 + |buffer| - xml else 1
      {
        if xml + 2 >= |buffer| {
          eof := true;
        } else {
          xml := xml + 1;
        }
      }
    }

    /** What follows the '>' of a start tag. */
    method ParseContent() returns (eof: bool)
      requires xml < |buffer|
      modifies this`xml, data
      ensures var t := Content(buffer, old(xml));
        data.State() == HandleAll(old(data.State()), t.events) && eof == t.next.None? && (!eof ==> xml == t.next.value)
    {
      xml := xml + 1;
      var from := xml;
      eof := xml >= |buffer|;
      if !eof {
        eof := SkipSpace();
      }
      if !eof {
        if xml + 12 <= |buffer| && buffer[xml..xml + 9] == "<![CDATA[" {
          xml := xml + 9;
          eof := ScanCData();
        } else {
          eof := ScanText();
          if !eof && xml > from && At(buffer, xml + 1) == '/' {
            data.GetData(buffer[from..xml]);
          }
        }
      }
    }

    method ParseStartTag(name: string) returns (eof: bool)
      modifies this`xml, data
      ensures var t := StartTag(buffer, name, old(xml));
        data.State() == HandleAll(old(data.State()), t.events) && eof == t.next.None? && (!eof ==> xml == t.next.value)
    {
      data.StartElt(name);
      ghost var started := data.State();
      eof := ParseAtt();
      if !eof && buffer[xml] != '/' {
        ghost var content := Content(buffer, xml);
        HandleBoth(old(data.State()), [Start(name)], content.events);
        eof := ParseContent();
      }
    }

    method ParseEndTag() returns (eof: bool)
      modifies this`xml, data
      ensures var t := EndTag(buffer, old(xml));
        data.State() == HandleAll(old(data.State()), t.events) && eof == t.next.None? && (!eof ==> xml == t.next.value)
    {
      xml := xml + 1;
      var from := xml;
      eof := xml >= |buffer|;
      if !eof {
        eof := SkipUntil({'>'});
      }
      if !eof {
        data.EndElt(buffer[from..xml]);
        xml := xml + 1;
      }
    }

    method ParseTag() returns (eof: bool)
      requires xml <= |buffer|
      modifies this`xml, data
      ensures var t := Tag(buffer, old(xml));
        data.State() == HandleAll(old(data.State()), t.events) && eof == t.next.None? && (!eof ==> xml == t.next.value)
    {
      var start, atEnd := ScanName();
      eof := atEnd;
      if !eof {
        if xml > start {
          eof := ParseStartTag(buffer[start..xml]);
        } else if At(buffer, xml) == '/' {
          eof := ParseEndTag();
        }
      }
    }

    method OneTurn() returns (eof: bool)
      requires xml + 1 < |buffer|
      modifies this`xml, data
      ensures var t := ParseTurn(buffer, old(xml));
        data.State() == HandleAll(old(data.State()), t.events) && eof == t.next.None? && (!eof ==> xml == t.next.value)
    {
      eof := false;
      if xml + 4 <= |buffer| && buffer[xml..xml + 4] == "<!--" {
        xml := xml + 4;
        eof := SkipComment();
      } else {
        xml := xml + 1;
        if buffer[xml - 1] == '<' && buffer[xml] != '?' {
          eof := ParseTag();
        }
      }
    }

    /** parsexml: report everything from the start of the buffer. */
    method ParseXml()
      modifies this`xml, data
      ensures data.State() == HandleAll(old(data.State()), Events(buffer, 0))
    {
      xml := 0;
      var eof := false;
      while xml + 1 < |buffer| && !eof
        invariant eof ==> data.State() == HandleAll(old(data.State()), Events(buffer, 0))
        invariant !eof ==>
          HandleAll(old(data.State()), Events(buffer, 0)) == HandleAll(data.State(), Events(buffer, xml))
        decreases if eof then 0 else if xml < |buffer| then 1 + |buffer| - xml else 1
      {
        ghost var t := ParseTurn(buffer, xml);
        if t.next.Some? {
          HandleBoth(data.State(), t.events, Events(buffer, t.next.value));
        }
        eof := OneTurn();
      }
    }
  }

  /** ParseNameValue: a fresh list, filled by parsing the buffer. */
  method ParseNameValue(buffer: string) returns (data: NameValueParserData)
    ensures fresh(data) && data.State() == HandleAll(EMPTY_REPLY, Events(buffer, 0))
  {
    data := new NameValueParserData();
    var parser := new XmlParser(buffer, data);
    parser.ParseXml();
  }
}
