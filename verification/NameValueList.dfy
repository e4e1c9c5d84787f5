/**
 The callbacks that turn the events of the XML parser into a list of names and values,
 and the lookup in that list.
 */
module NameValueList {
  import opened Options

  /** What the XML parser reports. */
  datatype Event = Start(name: string) | Data(text: string) | End(name: string)

  datatype Entry = Entry(name: string, value: string)

  /**
   The fields of `struct NameValueParserData`: the list from its head on, `curelt`, the port
   listing, `topelt` and `cdata`.
   */
  datatype Reply = Reply(list: seq<Entry>, current: string, portListing: Option<string>, open: bool,
    data: Option<string>)

  const EMPTY_REPLY := Reply([], "", None, false, None)

  const MAX_NAME := 63
  const MAX_VALUE := 127
  const PORT_LISTING := "NewPortListing"

  function AtMost(s: string, n: nat): string {
    if |s| <= n then s else s[..n]
  }

  /** The C string that starts a piece of memory. */
  function CString(s: string): string {
    if s == "" || s[0] == '\0' then "" else [s[0]] + CString(s[1..])
  }

  lemma {:induction false} CStringIsWhole(s: string)
    requires '\0' !in s
    ensures CString(s) == s
  {
    if s != "" {
      assert forall c | c in s[1..] :: c in s;
      CStringIsWhole(s[1..]);
    }
  }

  ghost function Handle(r: Reply, e: Event): Reply {
    match e
    case Start(name) => r.(open := true, current := CString(AtMost(name, MAX_NAME)), data := None)
    case Data(text) => if r.current == PORT_LISTING then r.(portListing := Some(text)) else r.(data := Some(text))
    case End(_) =>
      if !r.open then r else
        var value := if r.data.Some? then CString(AtMost(r.data.value, MAX_VALUE)) else "";
        r.(list := if r.current == PORT_LISTING then r.list
          else [Entry(r.current, value)] + r.list, data := None, open := false)
  }

  ghost function HandleAll(r: Reply, events: seq<Event>): Reply
    decreases |events|
  {
    if events == [] then r else HandleAll(Handle(r, events[0]), events[1..])
  }

  lemma {:induction false} HandleBoth(r: Reply, first: seq<Event>, second: seq<Event>)
    ensures HandleAll(r, first + second) == HandleAll(HandleAll(r, first), second)
    decreases first
  {
    if first == [] {
      assert first + second == second;
    } else {
      assert (first + second)[1..] == first[1..] + second;
      HandleBoth(Handle(r, first[0]), first[1..], second);
    }
  }

  /** The value of the first entry of a name. */
  ghost function FirstValue(list: seq<Entry>, name: string): Option<string> {
    if list == [] then None else if list[0].name == name then Some(list[0].value) else FirstValue(list[1..], name)
  }

  lemma {:induction false} ValueOfDistinct(list: seq<Entry>, k: nat)
    requires k < |list| && forall i, j | 0 <= i < j < |list| :: list[i].name != list[j].name
    ensures FirstValue(list, list[k].name) == Some(list[k].value)
  {
    if k > 0 {
      assert list[0].name != list[k].name;
      ValueOfDistinct(list[1..], k - 1);
    }
  }

  class NameValueParserData {
    var list: seq<Entry>
    var current: string
    var portListing: Option<string>
    var open: bool
    var data: Option<string>

    ghost function State(): Reply
      reads this
    {
      Reply(list, current, portListing, open, data)
    }

    constructor ()
      ensures State() == EMPTY_REPLY
    {
      list, current, portListing, open, data := [], "", None, false, None;
    }

    method StartElt(name: string)
      modifies this
      ensures State() == Handle(old(State()), Start(name))
    {
      open := true;
      current := CString(AtMost(name, MAX_NAME));
      data := None;
    }

    method GetData(text: string)
      modifies this
      ensures State() == Handle(old(State()), Data(text))
    {
      if current == PORT_LISTING {
        portListing := Some(text);
      } else {
        data := Some(text);
      }
    }

    method EndElt(name: string)
      modifies this
      ensures State() == Handle(old(State()), End(name))
    {
      if !open {
        return;
      }
      if current != PORT_LISTING {
        var value := "";
        if data.Some? {
          value := CString(AtMost(data.value, MAX_VALUE));
        }
        list := [Entry(current, value)] + list;
      }
      data := None;
      open := false;
    }

    method GetValueFromNameValueList(name: string) returns (value: Option<string>)
      ensures value == FirstValue(list, name)
    {
      value := None;
      var k := 0;
      while k < |list| && value.None?
        invariant k <= |list|
        invariant FirstValue(list, name) == if value.Some? then value else FirstValue(list[k..], name)
        decreases |list| - k
      {
        if list[k].name == name {
          value := Some(list[k].value);
        }
        k := k + 1;
      }
    }
  }
}
