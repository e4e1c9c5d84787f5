/**
 The device list of MiniSSDPd: coded lengths, strings, and a reader that refills its buffer wherever it ends.
 */
module MiniSsdp {
  import opened Options

  type Byte = x: int | 0 <= x < 256

  /** The size of the reader's buffer. */
  const BUFFER_SIZE := 256

  const TWO_TO_THE_32 := 0x1_0000_0000

  /** A decoder stops here even if the byte says that more follow. */
  const LENGTH_STOP := 0x200_0000

  // ---------------------------------------------------------------------------------- lengths

  /** Groups of seven bits, each marked as followed by another one. */
  ghost function Followed(n: nat): seq<Byte> {
    if n == 0 then [] else Followed(n / 128) + [n % 128 + 128]
  }

  /** The shortest code: all groups but the last one are marked. */
  ghost function Code(n: nat): (code: seq<Byte>)
    ensures code != []
  {
    Followed(n / 128) + [n % 128]
  }

  /** CODELENGTH: a marked byte for each power of two reached, then the last seven bits. */
  method CodeLength(n: nat) returns (p: seq<Byte>)
    requires n < TWO_TO_THE_32
    ensures p == Code(n)
  {
    p := [];
    if n >= 0x1000_0000 { p := p + [n / 0x1000_0000 % 128 + 128]; }
    if n >= 0x20_0000 { p := p + [n / 0x20_0000 % 128 + 128]; }
    if n >= 0x4000 { p := p + [n / 0x4000 % 128 + 128]; }
    if n >= 0x80 { p := p + [n / 0x80 % 128 + 128]; }
    p := p + [n % 128];
    ShiftsAreGroups(n);
  }

  lemma ShiftsAreGroups(n: nat)
    requires n < TWO_TO_THE_32
    ensures Code(n) ==
      (if n >= 0x1000_0000 then [n / 0x1000_0000 % 128 + 128] else [])
      + (if n >= 0x20_0000 then [n / 0x20_0000 % 128 + 128] else [])
      + (if n >= 0x4000 then [n / 0x4000 % 128 + 128] else [])
      + (if n >= 0x80 then [n / 0x80 % 128 + 128] else [])
      + [n % 128]
  {
    var a, b, c, d := n / 128, n / 0x4000, n / 0x20_0000, n / 0x1000_0000;
    assert b == a / 128 && c == b / 128 && d == c / 128 && d / 128 == 0;
    assert Followed(0) == [];
    assert Followed(d) == if d > 0 then [d % 128 + 128] else [];
    assert Followed(c) == if c > 0 then Followed(d) + [c % 128 + 128] else [];
    assert Followed(b) == if b > 0 then Followed(c) + [b % 128 + 128] else [];
    assert Followed(a) == if a > 0 then Followed(b) + [a % 128 + 128] else [];
  }

  datatype Length = Length(n: nat, rest: seq<Byte>)

  /** The loop of DECODELENGTH on a stream of bytes; nothing if they run out. */
  ghost function DecodeLength(s: seq<Byte>, n: nat): (r: Option<Length>)
    requires n < LENGTH_STOP
    ensures r.Some? ==> r.value.n < TWO_TO_THE_32 && |r.value.rest| < |s|
    decreases |s|
  {
    if s == [] then None else
      var m := n * 128 + s[0] % 128;
      if s[0] < 128 || m >= LENGTH_STOP then Some(Length(m, s[1..])) else DecodeLength(s[1..], m)
  }

  /** Marked groups below the stop are read one after the other. */
  lemma {:induction false} DecodeFollowed(n: nat, rest: seq<Byte>)
    requires n < LENGTH_STOP
    ensures DecodeLength(Followed(n) + rest, 0) == DecodeLength(rest, n)
    decreases n
  {
    if n == 0 {
      NoneFollowed(rest);
    } else {
      var l, bits := n / 128, n % 128;
      FollowedSplits(n, rest);
      DecodeFollowed(l, [bits + 128] + rest);
      DecodeMarked(l, bits, rest);
    }
  }

  lemma NoneFollowed(rest: seq<Byte>)
    ensures Followed(0) + rest == rest
  {
  }

  lemma FollowedSplits(n: nat, rest: seq<Byte>)
    requires n > 0
    ensures Followed(n) + rest == Followed(n / 128) + ([n % 128 + 128] + rest)
  {
  }

  /** A marked group is seven bits more. */
  lemma DecodeMarked(l: nat, bits: nat, rest: seq<Byte>)
    requires l * 128 + bits < LENGTH_STOP && bits < 128
    ensures DecodeLength([bits + 128] + rest, l) == DecodeLength(rest, l * 128 + bits)
  {
    assert ([bits + 128] + rest)[1..] == rest;
  }

  /** Exactly the 32-bit lengths are decoded to themselves: for them the early stop changes nothing. */
  lemma {:induction false} LengthRoundTrip(n: nat, rest: seq<Byte>)
    ensures DecodeLength(Code(n) + rest, 0) == Some(Length(n, rest)) <==> n < TWO_TO_THE_32
  {
    if n < TWO_TO_THE_32 {
      assert Code(n) + rest == Followed(n / 128) + ([n % 128] + rest);
      DecodeFollowed(n / 128, [n % 128] + rest);
      assert ([n % 128] + rest)[1..] == rest;
    }
  }

  lemma {:induction false} FollowedCut(n: nat, m: nat)
    requires n < LENGTH_STOP && m <= |Followed(n)|
    ensures DecodeLength(Followed(n)[..m], 0) == None
    decreases n
  {
    if n == 0 {
    } else if m == |Followed(n)| {
      assert Followed(n)[..m] == Followed(n) + [];
      DecodeFollowed(n, []);
    } else {
      assert Followed(n)[..m] == Followed(n / 128)[..m];
      FollowedCut(n / 128, m);
    }
  }

  /** A length that is cut short is not decoded. */
  lemma LengthCut(n: nat, m: nat)
    requires n < TWO_TO_THE_32 && m < |Code(n)|
    ensures DecodeLength(Code(n)[..m], 0) == None
  {
    assert Code(n)[..m] == Followed(n / 128)[..m];
    FollowedCut(n / 128, m);
  }

  // ---------------------------------------------------------------------------------- strings

  datatype Text = Text(text: seq<Byte>, rest: seq<Byte>)

  ghost function EncodeText(text: seq<Byte>): seq<Byte> {
    Code(|text|) + text
  }

  ghost function DecodeText(s: seq<Byte>): (r: Option<Text>)
    ensures r.Some? ==> |r.value.rest| < |s|
  {
    var length := DecodeLength(s, 0);
    if length.None? || length.value.n > |length.value.rest| then None
    else Some(Text(length.value.rest[..length.value.n], length.value.rest[length.value.n..]))
  }

  lemma TextRoundTrip(text: seq<Byte>, rest: seq<Byte>)
    requires |text| < TWO_TO_THE_32
    ensures DecodeText(EncodeText(text) + rest) == Some(Text(text, rest))
  {
    assert EncodeText(text) + rest == Code(|text|) + (text + rest);
    LengthRoundTrip(|text|, text + rest);
    assert (text + rest)[..|text|] == text && (text + rest)[|text|..] == rest;
  }

  lemma TextCut(text: seq<Byte>, m: nat)
    requires |text| < TWO_TO_THE_32 && m < |EncodeText(text)|
    ensures DecodeText(EncodeText(text)[..m]) == None
  {
    var code := Code(|text|);
    if m < |code| {
      assert EncodeText(text)[..m] == code[..m];
      LengthCut(|text|, m);
    } else {
      assert EncodeText(text)[..m] == code + text[..m - |code|];
      LengthRoundTrip(|text|, text[..m - |code|]);
    }
  }

  // ---------------------------------------------------------------------------------- devices

  datatype Device = Device(url: seq<Byte>, st: seq<Byte>, usn: seq<Byte>)

  ghost predicate DeviceOk(d: Device) {
    |d.url| < TWO_TO_THE_32 && |d.st| < TWO_TO_THE_32 && |d.usn| < TWO_TO_THE_32
  }

  ghost function EncodeDevice(d: Device): seq<Byte> {
    EncodeText(d.url) + (EncodeText(d.st) + EncodeText(d.usn))
  }

  datatype Decoded = Decoded(device: Device, rest: seq<Byte>)

  ghost function DecodeDevice(s: seq<Byte>): (r: Option<Decoded>)
    ensures r.Some? ==> |r.value.rest| < |s|
  {
    var url := DecodeText(s);
    if url.None? then None else
      var st := DecodeText(url.value.rest);
      if st.None? then None else
        var usn := DecodeText(st.value.rest);
        if usn.None? then None else Some(Decoded(Device(url.value.text, st.value.text, usn.value.text), usn.value.rest))
  }

  lemma DeviceRoundTrip(d: Device, rest: seq<Byte>)
    requires DeviceOk(d)
    ensures DecodeDevice(EncodeDevice(d) + rest) == Some(Decoded(d, rest))
  {
    var st, usn := EncodeText(d.st), EncodeText(d.usn);
    assert EncodeDevice(d) + rest == EncodeText(d.url) + (st + (usn + rest));
    TextRoundTrip(d.url, st + (usn + rest));
    TextRoundTrip(d.st, usn + rest);
    TextRoundTrip(d.usn, rest);
  }

  lemma DeviceCut(d: Device, m: nat)
    requires DeviceOk(d) && m < |EncodeDevice(d)|
    ensures DecodeDevice(EncodeDevice(d)[..m]) == None
  {
    var url, st, usn := EncodeText(d.url), EncodeText(d.st), EncodeText(d.usn);
    if m < |url| {
      assert EncodeDevice(d)[..m] == url[..m];
      TextCut(d.url, m);
    } else if m < |url| + |st| {
      assert EncodeDevice(d)[..m] == url + st[..m - |url|];
      TextRoundTrip(d.url, st[..m - |url|]);
      TextCut(d.st, m - |url|);
    } else {
      assert EncodeDevice(d)[..m] == url + (st + usn[..m - |url| - |st|]);
      TextRoundTrip(d.url, st + usn[..m - |url| - |st|]);
      TextRoundTrip(d.st, usn[..m - |url| - |st|]);
      TextCut(d.usn, m - |url| - |st|);
    }
  }

  datatype Error = Success | SocketError | InvalidServerReply

  /** The returned list, its head first, and the error. */
  datatype Reply = Reply(devices: seq<Device>, error: Error)

  ghost function DecodeDevices(s: seq<Byte>, ndev: nat, list: seq<Device>): Reply
    decreases ndev
  {
    if ndev == 0 then Reply(list, Success) else
      var d := DecodeDevice(s);
      if d.None? then Reply(list, InvalidServerReply)
        else DecodeDevices(d.value.rest, ndev - 1, [d.value.device] + list)
  }

  /** What the stream decodes to, wherever it is cut. */
  ghost function DecodeReply(s: seq<Byte>): Reply {
    if s == [] then Reply([], SocketError) else DecodeDevices(s[1..], s[0], [])
  }

  ghost function EncodeDevices(devices: seq<Device>): seq<Byte> {
    if devices == [] then [] else EncodeDevice(devices[0]) + EncodeDevices(devices[1..])
  }

  /** The number of devices takes one byte. */
  ghost predicate DevicesOk(devices: seq<Device>) {
    |devices| < 256 && forall k | 0 <= k < |devices| :: DeviceOk(devices[k])
  }

  ghost function EncodeReply(devices: seq<Device>): seq<Byte>
    requires DevicesOk(devices)
  {
    [|devices|] + EncodeDevices(devices)
  }

  ghost function Reverse(devices: seq<Device>): seq<Device> {
    if devices == [] then [] else Reverse(devices[1..]) + [devices[0]]
  }

  /** How many devices the first `m` bytes hold completely. */
  ghost function WholeDevices(devices: seq<Device>, m: nat): (k: nat)
    ensures k <= |devices|
  {
    if devices == [] || m < |EncodeDevice(devices[0])| then 0
    else 1 + WholeDevices(devices[1..], m - |EncodeDevice(devices[0])|)
  }

  /** The first `m` bytes decode to the devices they hold completely, last one first, with an error if some are cut. */
  ghost predicate CutDecodes(devices: seq<Device>, m: nat, list: seq<Device>)
    requires m <= |EncodeDevices(devices)|
  {
    CutDecoded(devices, m, list) == CutMeans(devices, m, list)
  }

  ghost function CutDecoded(devices: seq<Device>, m: nat, list: seq<Device>): Reply
    requires m <= |EncodeDevices(devices)|
  {
    DecodeDevices(EncodeDevices(devices)[..m], |devices|, list)
  }

  ghost function CutMeans(devices: seq<Device>, m: nat, list: seq<Device>): Reply
    requires m <= |EncodeDevices(devices)|
  {
    Reply(Reverse(devices[..WholeDevices(devices, m)]) + list,
          if m == |EncodeDevices(devices)| then Success else InvalidServerReply)
  }

  lemma NoDeviceWhole(devices: seq<Device>, m: nat, list: seq<Device>)
    requires m <= |EncodeDevices(devices)|
    requires devices != [] ==> DeviceOk(devices[0]) && m < |EncodeDevice(devices[0])|
    ensures CutDecodes(devices, m, list)
  {
    if devices != [] {
      FirstDeviceCut(devices, m);
    }
    assert Reverse(devices[..0]) + list == list;
  }

  lemma DecodesNext(s: seq<Byte>, ndev: nat, list: seq<Device>, d: Device, rest: seq<Byte>)
    requires ndev > 0 && DecodeDevice(s) == Some(Decoded(d, rest))
    ensures DecodeDevices(s, ndev, list) == DecodeDevices(rest, ndev - 1, [d] + list)
  {
  }

  lemma DecodesStep(s: seq<Byte>, ndev: nat, list: seq<Device>)
    requires ndev > 0
    ensures var d := DecodeDevice(s);
      DecodeDevices(s, ndev, list) ==
        if d.None? then Reply(list, InvalidServerReply)
        else DecodeDevices(d.value.rest, ndev - 1, [d.value.device] + list)
  {
  }

  lemma OneDeviceWhole(devices: seq<Device>, m: nat, list: seq<Device>)
    requires devices != [] && DeviceOk(devices[0]) && |EncodeDevice(devices[0])| <= m <= |EncodeDevices(devices)|
    requires CutDecodes(devices[1..], m - |EncodeDevice(devices[0])|, [devices[0]] + list)
    ensures CutDecodes(devices, m, list)
  {
    FirstDecoded(devices, m, list);
    WholeWithFirst(devices, m, list);
  }

  lemma FirstDecoded(devices: seq<Device>, m: nat, list: seq<Device>)
    requires devices != [] && DeviceOk(devices[0]) && |EncodeDevice(devices[0])| <= m <= |EncodeDevices(devices)|
    ensures CutDecoded(devices, m, list) ==
      CutDecoded(devices[1..], m - |EncodeDevice(devices[0])|, [devices[0]] + list)
  {
    var d, more := EncodeDevice(devices[0]), EncodeDevices(devices[1..]);
    FirstDeviceWhole(devices, m);
    DecodesNext(EncodeDevices(devices)[..m], |devices|, list, devices[0], more[..m - |d|]);
  }

  lemma WholeWithFirst(devices: seq<Device>, m: nat, list: seq<Device>)
    requires devices != [] && |EncodeDevice(devices[0])| <= m <= |EncodeDevices(devices)|
    ensures CutMeans(devices, m, list) == CutMeans(devices[1..], m - |EncodeDevice(devices[0])|, [devices[0]] + list)
  {
    ReverseOneMore(devices, WholeDevices(devices[1..], m - |EncodeDevice(devices[0])|), list);
  }

  /** A stream cut anywhere gives the devices it holds completely, last one first, and says so. */
  lemma {:induction false} DevicesCut(devices: seq<Device>, m: nat, list: seq<Device>)
    requires (forall k | 0 <= k < |devices| :: DeviceOk(devices[k])) && m <= |EncodeDevices(devices)|
    ensures CutDecodes(devices, m, list)
    decreases |devices|
  {
    if devices == [] || m < |EncodeDevice(devices[0])| {
      NoDeviceWhole(devices, m, list);
    } else {
      DevicesCut(devices[1..], m - |EncodeDevice(devices[0])|, [devices[0]] + list);
      OneDeviceWhole(devices, m, list);
    }
  }

  lemma FirstDeviceCut(devices: seq<Device>, m: nat)
    requires devices != [] && DeviceOk(devices[0]) && m < |EncodeDevice(devices[0])|
    ensures m <= |EncodeDevices(devices)| && DecodeDevice(EncodeDevices(devices)[..m]) == None
  {
    assert EncodeDevices(devices)[..m] == EncodeDevice(devices[0])[..m];
    DeviceCut(devices[0], m);
  }

  lemma TakeBoth(a: seq<Byte>, b: seq<Byte>, m: nat)
    requires |a| <= m <= |a| + |b|
    ensures (a + b)[..m] == a + b[..m - |a|]
  {
  }

  lemma FirstDeviceTaken(devices: seq<Device>, m: nat)
    requires devices != [] && |EncodeDevice(devices[0])| <= m <= |EncodeDevices(devices)|
    ensures var d, more := EncodeDevice(devices[0]), EncodeDevices(devices[1..]);
      m - |d| <= |more| && EncodeDevices(devices)[..m] == d + more[..m - |d|]
  {
    TakeBoth(EncodeDevice(devices[0]), EncodeDevices(devices[1..]), m);
  }

  lemma FirstDeviceWhole(devices: seq<Device>, m: nat)
    requires devices != [] && DeviceOk(devices[0]) && |EncodeDevice(devices[0])| <= m <= |EncodeDevices(devices)|
    ensures var more := EncodeDevices(devices[1..]);
      m - |EncodeDevice(devices[0])| <= |more|
      && DecodeDevice(EncodeDevices(devices)[..m]) == Some(Decoded(devices[0], more[..m - |EncodeDevice(devices[0])|]))
  {
    FirstDeviceTaken(devices, m);
    DeviceRoundTrip(devices[0], EncodeDevices(devices[1..])[..m - |EncodeDevice(devices[0])|]);
  }

  lemma ReverseOneMore(devices: seq<Device>, k: nat, list: seq<Device>)
    requires k < |devices|
    ensures Reverse(devices[..k + 1]) + list == Reverse(devices[1..][..k]) + ([devices[0]] + list)
  {
    assert devices[..k + 1][1..] == devices[1..][..k];
  }

  lemma {:induction false} AllWhole(devices: seq<Device>)
    ensures WholeDevices(devices, |EncodeDevices(devices)|) == |devices|
  {
    if devices != [] {
      AllWhole(devices[1..]);
    }
  }

  /** The reply of the daemon, complete or cut after `m` of its device bytes. */
  lemma {:induction false} ReplyRoundTrip(devices: seq<Device>, m: nat)
    requires DevicesOk(devices) && m <= |EncodeDevices(devices)|
    ensures var n := |EncodeDevices(devices)|;
      && DecodeReply(EncodeReply(devices)) == Reply(Reverse(devices), Success)
      && (m < n ==>
        var whole := devices[..WholeDevices(devices, m)];
        DecodeReply(EncodeReply(devices)[..1 + m]) == Reply(Reverse(whole), InvalidServerReply))
  {
    var n := |EncodeDevices(devices)|;
    AllWhole(devices);
    CutReply(devices, n);
    CutReply(devices, m);
    assert EncodeReply(devices)[..1 + n] == EncodeReply(devices);
    assert devices[..|devices|] == devices;
  }

  lemma CutReply(devices: seq<Device>, m: nat)
    requires DevicesOk(devices) && m <= |EncodeDevices(devices)|
    ensures DecodeReply(EncodeReply(devices)[..1 + m]) ==
      Reply(Reverse(devices[..WholeDevices(devices, m)]),
            if m == |EncodeDevices(devices)| then Success else InvalidServerReply)
  {
    DevicesCut(devices, m, []);
    assert EncodeReply(devices)[..1 + m] == [|devices|] + EncodeDevices(devices)[..m];
    CountThenDevices(|devices|, EncodeDevices(devices)[..m]);
    NothingBehind(Reverse(devices[..WholeDevices(devices, m)]));
  }

  lemma CountThenDevices(count: Byte, s: seq<Byte>)
    ensures DecodeReply([count] + s) == DecodeDevices(s, count, [])
  {
    assert ([count] + s)[1..] == s;
  }

  lemma NothingBehind(list: seq<Device>)
    ensures list + [] == list
  {
  }

  // ----------------------------------------------------------------------------- the buffered reader

  ghost function Concat(parts: seq<seq<Byte>>): seq<Byte> {
    if parts == [] then [] else parts[0] + Concat(parts[1..])
  }

  /** The variables of receiveDevicesFromMiniSSDPD that its macros share. */
  class Reader {
    const segments: seq<seq<Byte>>
    var calls: nat
    var buffer: seq<Byte>
    var n: nat
    var bufferIndex: nat

    /** `segments` is what read() returned before its first result that is not positive. */
    ghost predicate Valid()
      reads this
    {
      && (forall k | 0 <= k < |segments| :: 0 < |segments[k]| <= BUFFER_SIZE)
      && calls <= |segments| && n <= |buffer| && (n > 0 ==> n == |buffer|)
    }

    /** The bytes not consumed yet. */
    ghost function Unread(): seq<Byte>
      reads this
      requires Valid()
    {
      (if bufferIndex < n then buffer[bufferIndex..n] else []) + Concat(segments[calls..])
    }

    constructor (segments: seq<seq<Byte>>)
      requires forall k | 0 <= k < |segments| :: 0 < |segments[k]| <= BUFFER_SIZE
      ensures Valid() && this.segments == segments && Unread() == Concat(segments) && n == 0
    {
      this.segments := segments;
      calls, buffer, n, bufferIndex := 0, [], 0, 0;
    }

    /** read() into the buffer. */
    method Refill()
      requires Valid() && bufferIndex >= n
      modifies this
      ensures Valid() && Unread() == old(Unread())
      ensures n == 0 <==> old(Unread()) == []
      ensures n > 0 ==> bufferIndex == 0
    {
      if calls < |segments| {
        buffer := segments[calls];
        n := |buffer|;
        calls := calls + 1;
        bufferIndex := 0;
      } else {
        n := 0;
      }
    }

    /** READ_BYTE_BUFFER; without a byte left, n is 0 afterwards. */
    method ReadByte() returns (c: Byte)
      requires Valid()
      modifies this
      ensures Valid()
      ensures if old(Unread()) == [] then n == 0 else n > 0 && c == old(Unread())[0] && Unread() == old(Unread())[1..]
    {
      c := 0;
      if bufferIndex >= n {
        Refill();
        if n == 0 {
          return;
        }
      }
      c := buffer[bufferIndex];
      bufferIndex := bufferIndex + 1;
    }

    /** DECODELENGTH_READ */
    method ReadLength() returns (length: nat)
      requires Valid()
      modifies this
      ensures Valid()
      ensures var r := DecodeLength(old(Unread()), 0);
        if r.None? then n == 0 else n > 0 && length == r.value.n && Unread() == r.value.rest
    {
      length := 0;
      while true
        invariant Valid() && length < LENGTH_STOP && DecodeLength(old(Unread()), 0) == DecodeLength(Unread(), length)
        decreases |Unread()|
      {
        var c := ReadByte();
        if n == 0 {
          break;
        }
        length := length * 128 + c % 128;
        if c < 128 || length >= LENGTH_STOP {
          break;
        }
      }
    }

    /** READ_COPY_BUFFER; with too few bytes left, n is 0 afterwards. */
    method ReadCopy(length: nat) returns (p: seq<Byte>)
      requires Valid() && n > 0
      modifies this
      ensures Valid()
      ensures if length > |old(Unread())| then n == 0
        else n > 0 && p == old(Unread())[..length] && Unread() == old(Unread())[length..]
    {
      p := [];
      var l: nat := length;
      while l > 0
        invariant Valid() && n > 0 && l <= length && |p| == length - l && p + Unread() == old(Unread())
        decreases l
      {
        ghost var before := Unread();
        var part := CopyPart(l);
        if n == 0 {
          return;
        }
        assert p + before == (p + part) + Unread();
        p := p + part;
        l := l - |part|;
      }
      assert (p + Unread())[..length] == p && (p + Unread())[length..] == Unread();
    }

    /** One turn of the copy loop: what the buffer has, up to the length left. */
    method CopyPart(l: nat) returns (part: seq<Byte>)
      requires Valid() && l > 0
      modifies this
      ensures Valid()
      ensures if old(Unread()) == [] then n == 0 else n > 0 && 0 < |part| <= l && part + Unread() == old(Unread())
    {
      part := [];
      if bufferIndex >= n {
        Refill();
        if n == 0 {
          return;
        }
      }
      var lcopy := if l < n - bufferIndex then l else n - bufferIndex;
      part := buffer[bufferIndex..bufferIndex + lcopy];
      assert buffer[bufferIndex..n] == part + buffer[bufferIndex + lcopy..n];
      bufferIndex := bufferIndex + lcopy;
    }

    method ReadText() returns (p: seq<Byte>)
      requires Valid()
      modifies this
      ensures Valid()
      ensures var r := DecodeText(old(Unread()));
        if r.None? then n == 0 else n > 0 && p == r.value.text && Unread() == r.value.rest
    {
      p := [];
      var length := ReadLength();
      if n > 0 {
        p := ReadCopy(length);
      }
    }

    method ReadDevice() returns (d: Option<Device>)
      requires Valid()
      modifies this
      ensures Valid()
      ensures var r := DecodeDevice(old(Unread()));
        if r.None? then d == None else n > 0 && d == Some(r.value.device) && Unread() == r.value.rest
    {
      d := None;
      var url := ReadText();
      if n == 0 { return; }
      var st := ReadText();
      if n == 0 { return; }
      var usn := ReadText();
      if n == 0 { return; }
      d := Some(Device(url, st, usn));
    }
  }

  /** receiveDevicesFromMiniSSDPD over what the socket delivers. */
  method ReceiveDevices(segments: seq<seq<Byte>>) returns (devices: seq<Device>, error: Error)
    requires forall k | 0 <= k < |segments| :: 0 < |segments[k]| <= BUFFER_SIZE
    ensures Reply(devices, error) == DecodeReply(Concat(segments))
    ensures segments == [] ==> devices == [] && error == SocketError
  {
    var r := new Reader(segments);
    devices := [];
    var ndev := r.ReadByte();
    if r.n == 0 {
      return devices, SocketError;
    }
    devices, error := ReadDevices(r, ndev, DecodeReply(Concat(segments)));
  }

  /** What is unread and the list so far decode to. */
  ghost function Outcome(r: Reader, ndev: nat, list: seq<Device>): Option<Reply>
    reads r
  {
    if r.Valid() then Some(DecodeDevices(r.Unread(), ndev, list)) else None
  }

  /** The loop over the devices. */
  method ReadDevices(r: Reader, ndev: nat, ghost all: Reply) returns (devices: seq<Device>, error: Error)
    requires Outcome(r, ndev, []) == Some(all)
    modifies r
    ensures all == Reply(devices, error)
  {
    devices, error := [], Success;
    var i := 0;
    ghost var left := ndev;
    while i < ndev && error == Success
      invariant i + left == ndev
      invariant if error == Success then Outcome(r, left, devices) == Some(all) else all == Reply(devices, error)
      decreases left, error == Success
    {
      devices, error := NextDevice(r, left, devices, all);
      i, left := i + 1, left - 1;
    }
    if error == Success {
      AllDecoded(r, devices, all);
    }
  }

  lemma AllDecoded(r: Reader, list: seq<Device>, all: Reply)
    requires Outcome(r, 0, list) == Some(all)
    ensures all == Reply(list, Success)
  {
  }

  /** One turn of the loop: an error if the device cannot be read, else there is one device less to decode. */
  method NextDevice(r: Reader, ghost ndev: nat, list: seq<Device>, ghost all: Reply)
    returns (devices: seq<Device>, error: Error)
    requires ndev > 0 && Outcome(r, ndev, list) == Some(all)
    modifies r
    ensures if error == Success then Outcome(r, ndev - 1, devices) == Some(all) else all == Reply(devices, error)
  {
    DecodesStep(r.Unread(), ndev, list);
    var d := r.ReadDevice();
    if d.None? {
      return list, InvalidServerReply;
    }
    devices, error := [d.value] + list, Success;
  }

  /** The daemon's reply, cut into segments in any way, gives its devices, last one first. */
  method ReceiveEncoded(devices: seq<Device>, segments: seq<seq<Byte>>) returns (received: seq<Device>, error: Error)
    requires DevicesOk(devices) && Concat(segments) == EncodeReply(devices)
    requires forall k | 0 <= k < |segments| :: 0 < |segments[k]| <= BUFFER_SIZE
    ensures received == Reverse(devices) && error == Success
  {
    ReplyRoundTrip(devices, 0);
    received, error := ReceiveDevices(segments);
  }
}
