/**
 Base64 with padding, section 4 of RFC 4648. A text is read as a list of codes: the six-bit value
 of a letter, PADDING for the padding character, INVALID for any other one.
 */
module Base64 {
  type Byte = x: int | 0 <= x < 256

  const PAD := '='
  const INVALID := 64
  const PADDING := 65

  /** What Decode returns for an input of the wrong size. */
  const WRONG_SIZE := "Input data size is not a multiple of 4"

  // --------------------------------------------------------------------------------- alphabet

  function Letter(v: nat): char
    requires v < 64 || v == PADDING
  {
    if v < 26 then 'A' + v as char
    else if v < 52 then 'a' + (v - 26) as char
    else if v < 62 then '0' + (v - 52) as char
    else if v == 62 then '+' else if v == 63 then '/' else PAD
  }

  /** The decoding table, with its own code for the padding character. */
  function CodeOf(c: char): nat {
    if 'A' <= c <= 'Z' then c as int - 'A' as int
    else if 'a' <= c <= 'z' then c as int - 'a' as int + 26
    else if '0' <= c <= '9' then c as int - '0' as int + 52
    else if c == '+' then 62 else if c == '/' then 63
    else if c == PAD then PADDING else INVALID
  }

  ghost predicate CodesOk(d: seq<nat>) {
    forall k | 0 <= k < |d| :: d[k] < 64 || d[k] == PADDING
  }

  ghost function Spell(d: seq<nat>): (s: string)
    requires CodesOk(d)
    ensures |s| == |d|
  {
    seq(|d|, k requires 0 <= k < |d| => Letter(d[k]))
  }

  ghost function Codes(s: string): (d: seq<nat>)
    ensures |d| == |s|
  {
    seq(|s|, k requires 0 <= k < |s| => CodeOf(s[k]))
  }

  lemma LetterHasCode(v: nat)
    requires v < 64 || v == PADDING
    ensures CodeOf(Letter(v)) == v
  {
  }

  lemma CodeHasLetter(c: char)
    requires CodeOf(c) != INVALID
    ensures (CodeOf(c) < 64 || CodeOf(c) == PADDING) && Letter(CodeOf(c)) == c
  {
  }

  lemma SpellingHasCodes(d: seq<nat>)
    requires CodesOk(d)
    ensures Codes(Spell(d)) == d
  {
    forall k | 0 <= k < |d|
      ensures Codes(Spell(d))[k] == d[k]
    {
      LetterHasCode(d[k]);
    }
  }

  lemma CodesAreSpelled(s: string)
    requires CodesOk(Codes(s))
    ensures Spell(Codes(s)) == s
  {
    forall k | 0 <= k < |s|
      ensures Spell(Codes(s))[k] == s[k]
    {
      assert Codes(s)[k] == CodeOf(s[k]);
      CodeHasLetter(s[k]);
    }
  }

  // --------------------------------------------------------------------------------- encoding

  /** The codes of a sequence of bytes, three bytes at a time. */
  ghost function Sextets(x: seq<Byte>): (d: seq<nat>)
    ensures CodesOk(d)
  {
    if x == [] then []
    else if |x| == 1 then [x[0] / 4, x[0] % 4 * 16, PADDING, PADDING]
    else if |x| == 2 then [x[0] / 4, x[0] % 4 * 16 + x[1] / 16, x[1] % 16 * 4, PADDING]
    else Four(x[0], x[1], x[2]) + Sextets(x[3..])
  }

  ghost function Four(a: Byte, b: Byte, c: Byte): (d: seq<nat>)
    ensures |d| == 4 && forall k | 0 <= k < 4 :: d[k] < 64
  {
    [a / 4, a % 4 * 16 + b / 16, b % 16 * 4 + c / 64, c % 64]
  }

  ghost function Encoding(x: seq<Byte>): string {
    Spell(Sextets(x))
  }

  // --------------------------------------------------------------------------------- decoding

  /** Padding counts as zero bits. */
  function Weight(v: nat): nat {
    if v == PADDING then 0 else v
  }

  function Bits(a: nat, b: nat, c: nat, d: nat): nat {
    Weight(a) * 0x4_0000 + Weight(b) * 0x1000 + Weight(c) * 0x40 + Weight(d)
  }

  ghost function Three(t: nat): (x: seq<Byte>)
    ensures |x| == 3
  {
    [t / 0x1_0000 % 256, t / 0x100 % 256, t % 256]
  }

  ghost function FirstThree(d: seq<nat>): (x: seq<Byte>)
    requires |d| >= 4
    ensures |x| == 3
  {
    Three(Bits(d[0], d[1], d[2], d[3]))
  }

  /** Three bytes for every four codes. */
  ghost function Octets(d: seq<nat>): (x: seq<Byte>)
    ensures |x| == |d| / 4 * 3
  {
    if |d| < 4 then [] else FirstThree(d) + Octets(d[4..])
  }

  /** How many bytes the padding takes away; only the last two characters are looked at. */
  ghost function Padded(d: seq<nat>): (n: nat)
    requires |d| >= 2
    ensures n <= 2
  {
    (if d[|d| - 1] == PADDING then 1 else 0) + if d[|d| - 2] == PADDING then 1 else 0
  }

  ghost function Kept(d: seq<nat>): seq<Byte>
    requires d != [] && |d| % 4 == 0
  {
    Octets(d)[..|Octets(d)| - Padded(d)]
  }

  function MessageBytes(): seq<Byte> {
    seq(|WRONG_SIZE|, k requires 0 <= k < |WRONG_SIZE| => WRONG_SIZE[k] as int % 256)
  }

  ghost function Decoding(s: string): seq<Byte>
    requires s != ""
  {
    if |s| % 4 != 0 then MessageBytes() else Kept(Codes(s))
  }

  ghost predicate IsText(x: seq<Byte>, text: string) {
    |x| == |text| && forall k | 0 <= k < |x| :: x[k] == text[k] as int % 256
  }

  /** A text of the wrong size decodes to a message. */
  lemma WrongSizeIsTold(s: string)
    requires |s| % 4 != 0
    ensures IsText(Decoding(s), "Input data size is not a multiple of 4")
  {
  }

  // ------------------------------------------------------------------------------ groups of 24 bits

  /** Four codes and three bytes with the same 24 bits. */
  ghost predicate SameBits(w: nat, x: nat, y: nat, z: nat, a: Byte, b: Byte, c: Byte) {
    w < 64 && x < 64 && y < 64 && z < 64 && w * 0x4_0000 + x * 0x1000 + y * 0x40 + z == a * 0x1_0000 + b * 0x100 + c
  }

  /** The last group: one padding character for each byte missing, whose bits are zero. */
  ghost predicate LastGroup(d: seq<nat>, x: seq<Byte>) {
    && |d| == 4 && 0 < |x| <= 3 && d[0] < 64 && d[1] < 64
    && (if |x| == 1 then d[2] == PADDING else d[2] < 64) && (if |x| < 3 then d[3] == PADDING else d[3] < 64)
    && SameBits(d[0], d[1], Weight(d[2]), Weight(d[3]), x[0], if |x| > 1 then x[1] else 0, if |x| > 2 then x[2] else 0)
  }

  /** What section 4 of RFC 4648 asks of a text and the bytes it stands for. */
  ghost predicate StandsFor(d: seq<nat>, x: seq<Byte>)
    decreases |x|
  {
    if |x| <= 3 then LastGroup(d, x)
    else |d| > 4 && SameBits(d[0], d[1], d[2], d[3], x[0], x[1], x[2]) && StandsFor(d[4..], x[3..])
  }

  lemma FourHasBits(a: Byte, b: Byte, c: Byte)
    ensures var d := Four(a, b, c); SameBits(d[0], d[1], d[2], d[3], a, b, c)
  {
    assert a == a / 4 * 4 + a % 4 && b == b / 16 * 16 + b % 16 && c == c / 64 * 64 + c % 64;
  }

  lemma BitsHaveThree(t: nat, a: Byte, b: Byte, c: Byte)
    requires t == a * 0x1_0000 + b * 0x100 + c
    ensures Three(t) == [a, b, c]
  {
    assert t / 0x100 == a * 0x100 + b && t / 0x1_0000 == a;
  }

  lemma BitsHaveFour(w: nat, x: nat, y: nat, z: nat, a: Byte, b: Byte, c: Byte)
    requires SameBits(w, x, y, z, a, b, c)
    ensures Four(a, b, c) == [w, x, y, z]
  {
    FourHasBits(a, b, c);
    var d := Four(a, b, c);
    OneSplit(w, x, y, z, d[0], d[1], d[2], d[3]);
  }

  lemma OneSplit(w: nat, x: nat, y: nat, z: nat, w': nat, x': nat, y': nat, z': nat)
    requires x < 64 && y < 64 && z < 64 && x' < 64 && y' < 64 && z' < 64
    requires w * 0x4_0000 + x * 0x1000 + y * 0x40 + z == w' * 0x4_0000 + x' * 0x1000 + y' * 0x40 + z'
    ensures w == w' && x == x' && y == y' && z == z'
  {
  }

  lemma BytesWithBits(w: nat, x: nat, y: nat, z: nat) returns (a: Byte, b: Byte, c: Byte)
    requires w < 64 && x < 64 && y < 64 && z < 64
    ensures SameBits(w, x, y, z, a, b, c)
    ensures z == 0 && y % 4 == 0 ==> c == 0
    ensures z == 0 && y == 0 && x % 16 == 0 ==> b == 0
  {
    a, b, c := w * 4 + x / 16, x % 16 * 16 + y / 4, y % 4 * 64 + z;
    assert x == x / 16 * 16 + x % 16 && y == y / 4 * 4 + y % 4;
  }

  // ------------------------------------------------------------- encoding and decoding meet it

  lemma LastSextets(x: seq<Byte>)
    requires 0 < |x| <= 3
    ensures LastGroup(Sextets(x), x)
  {
    var a: Byte, b: Byte, c: Byte := x[0], if |x| > 1 then x[1] else 0, if |x| > 2 then x[2] else 0;
    FourHasBits(a, b, c);
    if |x| == 3 {
      assert Sextets(x[3..]) == [];
      assert Sextets(x) == Four(a, b, c);
    }
  }

  lemma SextetsOfMore(t: seq<Byte>, more: seq<Byte>)
    requires |t| == 3
    ensures Sextets(t + more) == Four(t[0], t[1], t[2]) + Sextets(more)
  {
    assert (t + more)[3..] == more;
  }

  lemma {:induction false} SextetsStandFor(x: seq<Byte>)
    requires x != []
    ensures StandsFor(Sextets(x), x)
    decreases |x|
  {
    if |x| <= 3 {
      LastSextets(x);
    } else {
      SextetsStandFor(x[3..]);
      FourHasBits(x[0], x[1], x[2]);
      assert Sextets(x)[4..] == Sextets(x[3..]);
    }
  }

  lemma OctetsOfMore(d: seq<nat>, more: seq<nat>, x: seq<Byte>)
    requires |d| == 4 && FirstThree(d) == x
    ensures Octets(d + more) == x + Octets(more)
  {
    assert (d + more)[4..] == more;
  }

  /** Group by group, the bytes are what the decoder makes of the codes. */
  ghost predicate ReadsAs(d: seq<nat>, x: seq<Byte>)
    decreases |x|
  {
    && |d| >= 4
    && var three := FirstThree(d);
       if |x| <= 3 then |d| == 4 && Padded(d) == 3 - |x| && x == three[..|x|]
       else |d| > 4 && x[..3] == three && ReadsAs(d[4..], x[3..])
  }

  lemma {:induction false} StandsForReadsAs(d: seq<nat>, x: seq<Byte>)
    requires StandsFor(d, x)
    ensures ReadsAs(d, x)
    decreases |x|
  {
    if |x| <= 3 {
      var a: Byte, b: Byte, c: Byte := x[0], if |x| > 1 then x[1] else 0, if |x| > 2 then x[2] else 0;
      BitsHaveThree(Bits(d[0], d[1], d[2], d[3]), a, b, c);
      assert x == [a, b, c][..|x|];
    } else {
      BitsHaveThree(Bits(d[0], d[1], d[2], d[3]), x[0], x[1], x[2]);
      StandsForReadsAs(d[4..], x[3..]);
    }
  }

  /** The bytes of the first group come in front of the others. */
  lemma KeptOfMore(d: seq<nat>, first: seq<Byte>, rest: seq<Byte>)
    requires |d| > 4 && |d| % 4 == 0 && FirstThree(d) == first && Kept(d[4..]) == rest
    ensures Kept(d) == first + rest
  {
    var all := Octets(d[4..]);
    assert Octets(d) == first + all;
    assert Padded(d) == Padded(d[4..]);
    TakeBoth(first, all, |all| - Padded(d));
  }

  lemma TakeBoth(a: seq<Byte>, b: seq<Byte>, n: nat)
    requires n <= |b|
    ensures (a + b)[..|a| + n] == a + b[..n]
  {
  }

  ghost predicate KeptIs(d: seq<nat>, x: seq<Byte>) {
    d != [] && |d| % 4 == 0 && Kept(d) == x
  }

  lemma LastIsKept(d: seq<nat>, x: seq<Byte>)
    requires |d| == 4 && |x| <= 3 && Padded(d) == 3 - |x| && x == FirstThree(d)[..|x|]
    ensures KeptIs(d, x)
  {
    assert d + [] == d;
    OctetsOfMore(d, [], FirstThree(d));
    assert FirstThree(d) + [] == FirstThree(d);
  }

  lemma FourFewer(d: seq<nat>)
    requires |d| > 4 && |d[4..]| % 4 == 0
    ensures |d| % 4 == 0
  {
  }

  lemma FirstIsKept(d: seq<nat>, rest: seq<Byte>)
    requires |d| > 4 && KeptIs(d[4..], rest)
    ensures KeptIs(d, FirstThree(d) + rest)
  {
    FourFewer(d);
    KeptOfMore(d, FirstThree(d), rest);
  }

  lemma ThreeAndMore(x: seq<Byte>)
    requires |x| > 3
    ensures x[..3] + x[3..] == x
  {
  }

  lemma {:induction false} ReadsAsKept(d: seq<nat>, x: seq<Byte>)
    requires ReadsAs(d, x)
    ensures KeptIs(d, x)
    decreases |x|
  {
    if |x| <= 3 {
      LastIsKept(d, x);
    } else {
      ReadsAsKept(d[4..], x[3..]);
      FirstIsKept(d, x[3..]);
      ThreeAndMore(x);
    }
  }

  lemma {:induction false} StandsForKept(d: seq<nat>, x: seq<Byte>)
    requires StandsFor(d, x)
    ensures d != [] && |d| % 4 == 0 && Kept(d) == x
  {
    StandsForReadsAs(d, x);
    ReadsAsKept(d, x);
  }

  lemma {:induction false} StandsForSextets(d: seq<nat>, x: seq<Byte>)
    requires StandsFor(d, x)
    ensures Sextets(x) == d
    decreases |x|
  {
    if |x| <= 3 {
      LastIsUnique(Sextets(x), d, x);
    } else {
      StandsForSextets(d[4..], x[3..]);
      BitsHaveFour(d[0], d[1], d[2], d[3], x[0], x[1], x[2]);
      assert d == [d[0], d[1], d[2], d[3]] + d[4..];
    }
  }

  lemma LastIsUnique(d: seq<nat>, e: seq<nat>, x: seq<Byte>)
    requires d == Sextets(x) && LastGroup(e, x)
    ensures d == e
  {
    LastSextets(x);
    OneSplit(d[0], d[1], Weight(d[2]), Weight(d[3]), e[0], e[1], Weight(e[2]), Weight(e[3]));
  }

  // -------------------------------------------------------------------------------- round trips

  /** The length of an encoding: four characters for every three bytes begun. */
  lemma {:induction false} EncodingLength(x: seq<Byte>)
    ensures |Encoding(x)| == 4 * ((|x| + 2) / 3)
    decreases |x|
  {
    if |x| >= 3 {
      EncodingLength(x[3..]);
      assert x == [x[0], x[1], x[2]] + x[3..];
      SextetsOfMore([x[0], x[1], x[2]], x[3..]);
    }
  }

  /** Decoding undoes encoding. */
  lemma {:induction false} DecodeEncode(x: seq<Byte>)
    requires x != []
    ensures Encoding(x) != "" && Decoding(Encoding(x)) == x
  {
    SextetsStandFor(x);
    StandsForKept(Sextets(x), x);
    SpellingHasCodes(Sextets(x));
  }

  /** Only letters, but for padding at the end, and no bits left over under the padding. */
  ghost predicate Canonical(d: seq<nat>) {
    if |d| < 4 then false
    else if |d| > 4 then d[0] < 64 && d[1] < 64 && d[2] < 64 && d[3] < 64 && Canonical(d[4..])
    else
      && d[0] < 64 && d[1] < 64
      && ((d[2] < 64 && (d[3] < 64 || (d[3] == PADDING && d[2] % 4 == 0)))
          || (d[2] == PADDING && d[3] == PADDING && d[1] % 16 == 0))
  }

  lemma LastBits(d: seq<nat>, x: seq<Byte>)
    requires LastGroup(d, x)
    ensures |x| == 1 ==> d[1] % 16 == 0
    ensures |x| == 2 ==> d[2] % 4 == 0
  {
    LastIsUnique(Sextets(x), d, x);
  }

  /** The canonical texts are those that stand for something. */
  lemma {:induction false} StandsForCanonical(d: seq<nat>, x: seq<Byte>)
    requires StandsFor(d, x)
    ensures Canonical(d) && CodesOk(d)
    decreases |x|
  {
    if |x| <= 3 {
      LastBits(d, x);
    } else {
      StandsForCanonical(d[4..], x[3..]);
      assert forall k | 4 <= k < |d| :: d[k] == d[4..][k - 4];
    }
  }

  lemma {:induction false} CanonicalStandsFor(d: seq<nat>) returns (x: seq<Byte>)
    requires Canonical(d)
    ensures x != [] && StandsFor(d, x)
    decreases |d|
  {
    var a, b, c := BytesWithBits(d[0], d[1], Weight(d[2]), Weight(d[3]));
    if |d| == 4 {
      x := if d[3] < 64 then [a, b, c] else if d[2] < 64 then [a, b] else [a];
    } else {
      var more := CanonicalStandsFor(d[4..]);
      x := [a, b, c] + more;
      assert x[3..] == more;
    }
  }

  /** Encoding undoes decoding exactly for canonical text. */
  lemma {:induction false} EncodeDecode(s: string)
    requires s != ""
    ensures Decoding(s) != [] && Encoding(Decoding(s)) == s <==> Canonical(Codes(s))
  {
    if Canonical(Codes(s)) {
      var x := CanonicalStandsFor(Codes(s));
      StandsForKept(Codes(s), x);
      StandsForSextets(Codes(s), x);
      CodesAreSpelled(s);
    } else if Decoding(s) != [] {
      SextetsStandFor(Decoding(s));
      StandsForCanonical(Sextets(Decoding(s)), Decoding(s));
      SpellingHasCodes(Sextets(Decoding(s)));
    }
  }

  // ------------------------------------------------------------------------------------ methods

  /** Four characters written through the output pointer. */
  method Put(ret: array<char>, p: nat, a: nat, b: nat, c: nat, d: nat)
    requires p + 4 <= ret.Length && CodesOk([a, b, c, d])
    modifies ret
    ensures ret[..p + 4] == old(ret[..p]) + Spell([a, b, c, d])
  {
    var v := [a, b, c, d];
    assert v[0] == a && v[1] == b && v[2] == c && v[3] == d;
    ret[p] := Letter(a);
    ret[p + 1] := Letter(b);
    ret[p + 2] := Letter(c);
    ret[p + 3] := Letter(d);
  }

  lemma SpellBoth(d: seq<nat>, more: seq<nat>)
    requires CodesOk(d) && CodesOk(more)
    ensures CodesOk(d + more) && Spell(d + more) == Spell(d) + Spell(more)
  {
  }

  lemma NextThree(data: seq<Byte>, i: nat)
    requires i + 3 <= |data|
    ensures Encoding(data[i..]) == Spell(Four(data[i], data[i + 1], data[i + 2])) + Encoding(data[i + 3..])
  {
    var x := data[i..];
    assert x == [data[i], data[i + 1], data[i + 2]] + data[i + 3..];
    SextetsOfMore([data[i], data[i + 1], data[i + 2]], data[i + 3..]);
    SpellBoth(Four(data[i], data[i + 1], data[i + 2]), Sextets(data[i + 3..]));
  }

  /** Encode; its loop bound `in_len - 2` is unsigned, so it needs two bytes. */
  method Encode(data: seq<Byte>) returns (result: string)
    requires |data| >= 2
    ensures result == Encoding(data)
  {
    var ret := new char[4 * ((|data| + 2) / 3)];
    var p, i := 0, 0;
    WholeFromStart(data, ret[..0]);
    while i + 2 < |data|
      invariant Keeps(|data|, i, p, ret.Length) && Told(ret[..p], data, i, Encoding(data))
      decreases |data| - i
    {
      KeepsThree(|data|, i, p, ret.Length);
      PutThree(ret, p, data, i, Encoding(data));
      p := p + 4;
      i := i + 3;
    }
    KeepsTail(|data|, i, p, ret.Length);
    p := PutTail(ret, p, data, i);
    result := ret[..];
    assert ret[..p] == ret[..];
  }

  /** What is written, and the encoding of what is left, make up the whole. */
  ghost predicate Told(written: string, data: seq<Byte>, i: nat, all: string) {
    i <= |data| && written + Encoding(data[i..]) == all
  }

  /** The room left is four characters for every three bytes begun. */
  ghost predicate Keeps(n: nat, i: nat, p: nat, length: nat) {
    i <= n && p <= length && length == p + 4 * ((n - i + 2) / 3)
  }

  lemma KeepsThree(n: nat, i: nat, p: nat, length: nat)
    requires Keeps(n, i, p, length) && i + 2 < n
    ensures p + 4 <= length && Keeps(n, i + 3, p + 4, length)
  {
  }

  lemma KeepsTail(n: nat, i: nat, p: nat, length: nat)
    requires Keeps(n, i, p, length) && i + 2 >= n
    ensures length == p + if i < n then 4 else 0
  {
  }

  lemma WholeFromStart(data: seq<Byte>, nothing: string)
    requires nothing == ""
    ensures Told(nothing, data, 0, Encoding(data))
  {
    assert data[0..] == data;
  }

  method PutThree(ret: array<char>, p: nat, data: seq<Byte>, i: nat, ghost all: string)
    requires i + 3 <= |data| && p + 4 <= ret.Length && Told(ret[..p], data, i, all)
    modifies ret
    ensures Told(ret[..p + 4], data, i + 3, all)
  {
    NextThree(data, i);
    var d := [data[i] / 4, data[i] % 4 * 16 + data[i + 1] / 16, data[i + 1] % 16 * 4 + data[i + 2] / 64,
      data[i + 2] % 64];
    assert d == Four(data[i], data[i + 1], data[i + 2]);
    Put(ret, p, d[0], d[1], d[2], d[3]);
    assert d == [d[0], d[1], d[2], d[3]];
  }

  /** The one or two bytes that may be left. */
  method PutTail(ret: array<char>, p: nat, data: seq<Byte>, i: nat) returns (q: nat)
    requires i <= |data| <= i + 2 && ret.Length == p + if i < |data| then 4 else 0
    modifies ret
    ensures q == ret.Length && ret[..q] == old(ret[..p]) + Encoding(data[i..])
  {
    q := p;
    var rest := data[i..];
    if i < |data| {
      if i == |data| - 1 {
        Put(ret, p, data[i] / 4, data[i] % 4 * 16, PADDING, PADDING);
      } else {
        Put(ret, p, data[i] / 4, data[i] % 4 * 16 + data[i + 1] / 16, data[i + 1] % 16 * 4, PADDING);
      }
      q := p + 4;
    }
  }

  /** Decode; it looks at the last two characters, so the input must not be empty. */
  method Decode(input: string) returns (out: seq<Byte>)
    requires input != ""
    ensures out == Decoding(input)
  {
    if |input| % 4 != 0 {
      return MessageBytes();
    }
    ghost var d := Codes(input);
    var outLen := OutLength(input);
    out := [];
    var i := 0;
    while i < |input|
      invariant i <= |input| && i % 4 == 0
      invariant OutputSoFar(d, i, outLen, out)
      decreases |input| - i
    {
      var bits := Bits(CodeOf(input[i]), CodeOf(input[i + 1]), CodeOf(input[i + 2]), CodeOf(input[i + 3]));
      out := DecodeFour(d, i, outLen, out, bits);
      i := i + 4;
    }
    assert d[i..] == [];
    assert out == Octets(d)[..outLen];
  }

  method OutLength(input: string) returns (outLen: nat)
    requires input != "" && |input| % 4 == 0
    ensures outLen == |Octets(Codes(input))| - Padded(Codes(input))
  {
    var length := |input| / 4 * 3;
    if input[|input| - 1] == PAD { length := length - 1; }
    if input[|input| - 2] == PAD { length := length - 1; }
    PaddingIsSeen(input);
    outLen := length;
  }

  lemma PaddingIsSeen(s: string)
    requires |s| >= 2
    ensures forall k | 0 <= k < |s| :: s[k] == PAD <==> Codes(s)[k] == PADDING
  {
  }

  /** The output is what the codes before `i` decode to, as far as the output length goes. */
  ghost predicate OutputSoFar(d: seq<nat>, i: nat, outLen: nat, out: seq<Byte>) {
    && i <= |d| && |d| % 4 == 0 && i % 4 == 0 && |Octets(d)| - 2 <= outLen <= |Octets(d)|
    && |out| <= outLen && (i < |d| ==> |out| * 4 == i * 3) && (i == |d| ==> |out| == outLen)
    && (i < |d| ==> out + Octets(d[i..]) == Octets(d)) && out <= Octets(d)
  }

  method DecodeFour(ghost d: seq<nat>, ghost i: nat, outLen: nat, before: seq<Byte>, bits: nat) returns (out: seq<Byte>)
    requires OutputSoFar(d, i, outLen, before) && i + 4 <= |d| && bits == Bits(d[i], d[i + 1], d[i + 2], d[i + 3])
    ensures OutputSoFar(d, i + 4, outLen, out)
  {
    FourMore(d, i, before);
    out := before;
    if |out| < outLen { out := out + [bits / 0x1_0000 % 256]; }
    if |out| < outLen { out := out + [bits / 0x100 % 256]; }
    if |out| < outLen { out := out + [bits % 256]; }
    assert out == (before + Three(bits))[..|out|];
    ThreeMoreOut(d, i, outLen, before, Three(bits), out);
  }

  lemma ThreeMoreOut(d: seq<nat>, i: nat, outLen: nat, before: seq<Byte>, x: seq<Byte>, out: seq<Byte>)
    requires OutputSoFar(d, i, outLen, before) && i + 4 <= |d| && |x| == 3
    requires (before + x) + Octets(d[i + 4..]) == Octets(d)
    requires |out| == (if |before| + 3 <= outLen then |before| + 3 else outLen) && out <= before + x
    ensures OutputSoFar(d, i + 4, outLen, out)
  {
    OutputGrows(|d|, i, |Octets(d)|, |Octets(d[i + 4..])|, outLen, |before|, |out|);
    if i + 4 < |d| {
      assert out == before + x;
    }
    assert before + x <= (before + x) + Octets(d[i + 4..]);
  }

  /** The lengths alone: before the last group there is always room for all three bytes. */
  lemma OutputGrows(n: nat, i: nat, all: nat, rest: nat, outLen: nat, before: nat, out: nat)
    requires n % 4 == 0 && i % 4 == 0 && i + 4 <= n && all - 2 <= outLen <= all && all * 4 == n * 3
    requires before * 4 == i * 3 && all == before + 3 + rest
    requires out == if before + 3 <= outLen then before + 3 else outLen
    ensures out <= outLen && (i + 4 < n ==> out == before + 3 && out * 4 == (i + 4) * 3) &&
      (i + 4 == n ==> out == outLen)
  {
  }

  lemma FourMore(d: seq<nat>, i: nat, out: seq<Byte>)
    requires i + 4 <= |d| && out + Octets(d[i..]) == Octets(d)
    ensures var x := Three(Bits(d[i], d[i + 1], d[i + 2], d[i + 3])); (out + x) + Octets(d[i + 4..]) == Octets(d)
  {
    var x := Three(Bits(d[i], d[i + 1], d[i + 2], d[i + 3]));
    assert d[i..] == d[i..i + 4] + d[i + 4..];
    OctetsOfMore(d[i..i + 4], d[i + 4..], x);
    SameBytes(out, x, Octets(d[i + 4..]));
  }

  lemma SameBytes(a: seq<Byte>, b: seq<Byte>, c: seq<Byte>)
    ensures (a + b) + c == a + (b + c)
  {
  }
}
