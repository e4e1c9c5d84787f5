/**
 Reading a body piece by piece, whatever a piece does to the reader: how much is kept under a Content-Length.
 */
module HttpPieces {
  import opened HttpChunks

  /** What a loop makes of a reader and one buffer. */
  type Reading = (Reader, string) -> Reader

  /** How much content the first so many bytes of a body bring. */
  type Count = nat -> nat

  type Goal = string -> bool
  type Invariant = (Reader, nat, seq<string>) -> bool

  /** Whether a buffer is the last that is read. */
  ghost predicate Over(limit: int, s: Reader) {
    s.ended || (limit > 0 && |s.content| >= limit)
  }

  /** The reader at the end of the first piece that is the last one read, or of all pieces. */
  ghost function Keep(read: Reading, limit: int, r: Reader, pieces: seq<string>): Reader
    decreases |pieces|
  {
    if pieces == [] then r else
      var s := read(r, pieces[0]);
      if Over(limit, s) then s else Keep(read, limit, s, pieces[1..])
  }

  /** How much is in at the end of the first piece that reaches a Content-Length, or of all pieces. */
  ghost function Stop(limit: int, count: Count, pos: nat, pieces: seq<string>): nat
    decreases |pieces|
  {
    if pieces == [] then count(pos) else
      var now := pos + |pieces[0]|;
      if limit > 0 && count(now) >= limit then count(now) else Stop(limit, count, now, pieces[1..])
  }

  // ------------------------------------------------------------------------- what is kept

  /** Each piece leaves the reader with as much content as is in, until one completes it. */
  ghost predicate KeepsUp(read: Reading, count: Count, complete: Goal, r: Reader, pos: nat, pieces: seq<string>)
    decreases |pieces|
  {
    pieces != [] &&
      var s, now := read(r, pieces[0]), pos + |pieces[0]|;
      && |s.content| == count(now)
      && (if s.ended then complete(s.content) else KeepsUp(read, count, complete, s, now, pieces[1..]))
  }

  /** One piece keeps the count and the invariant, or completes the content. */
  ghost predicate Advances(read: Reading, inv: Invariant, count: Count, complete: Goal,
                           r: Reader, pos: nat, pieces: seq<string>) {
    pieces != [] &&
      var s, now := read(r, pieces[0]), pos + |pieces[0]|;
      && |s.content| == count(now)
      && (if s.ended then complete(s.content) else inv(s, now, pieces[1..]))
  }

  lemma AdvancesTo(read: Reading, inv: Invariant, count: Count, complete: Goal,
                   r: Reader, pos: nat, pieces: seq<string>, s: Reader, now: nat)
    requires pieces != [] && s == read(r, pieces[0]) && now == pos + |pieces[0]| && |s.content| == count(now)
    requires if s.ended then complete(s.content) else inv(s, now, pieces[1..])
    ensures Advances(read, inv, count, complete, r, pos, pieces)
  {
  }

  ghost predicate AlwaysAdvances(read: Reading, inv: Invariant, count: Count, complete: Goal) {
    forall r, pos, pieces {:trigger Advances(read, inv, count, complete, r, pos, pieces)} | inv(r, pos, pieces) ::
      Advances(read, inv, count, complete, r, pos, pieces)
  }

  lemma {:induction false} InvariantKeepsUp(read: Reading, inv: Invariant, count: Count, complete: Goal,
                                           r: Reader, pos: nat, pieces: seq<string>)
    requires inv(r, pos, pieces) && AlwaysAdvances(read, inv, count, complete)
    ensures KeepsUp(read, count, complete, r, pos, pieces)
    decreases |pieces|
  {
    assert Advances(read, inv, count, complete, r, pos, pieces);
    var s := read(r, pieces[0]);
    if !s.ended {
      InvariantKeepsUp(read, inv, count, complete, s, pos + |pieces[0]|, pieces[1..]);
    }
  }

  /** Without a Content-Length the reader goes on until the content is complete. */
  lemma {:induction false} AllIsKept(read: Reading, count: Count, complete: Goal, r: Reader, pos: nat,
                                     pieces: seq<string>)
    requires KeepsUp(read, count, complete, r, pos, pieces)
    ensures complete(Keep(read, 0, r, pieces).content)
    decreases |pieces|
  {
    var s := read(r, pieces[0]);
    if !s.ended {
      AllIsKept(read, count, complete, s, pos + |pieces[0]|, pieces[1..]);
    }
  }

  ghost predicate OnlyAdds(read: Reading) {
    forall r: Reader, buf: string :: r.content <= read(r, buf).content
  }

  lemma {:induction false} KeepOnlyAdds(read: Reading, r: Reader, pieces: seq<string>)
    requires OnlyAdds(read)
    ensures r.content <= Keep(read, 0, r, pieces).content
    decreases |pieces|
  {
    if pieces != [] {
      KeepOnlyAdds(read, read(r, pieces[0]), pieces[1..]);
    }
  }

  /** Under a Content-Length a beginning of that is kept. */
  lemma {:induction false} LessIsKept(read: Reading, limit: int, r: Reader, pieces: seq<string>)
    requires OnlyAdds(read)
    ensures Keep(read, limit, r, pieces).content <= Keep(read, 0, r, pieces).content
    decreases |pieces|
  {
    if pieces != [] {
      var s := read(r, pieces[0]);
      KeepOnlyAdds(read, s, pieces[1..]);
      LessIsKept(read, limit, s, pieces[1..]);
    }
  }

  /** Nothing comes in any more. */
  ghost predicate IsFinal(count: Count, n: nat) {
    forall m | m >= n :: count(m) == count(n)
  }

  lemma {:induction false} StaysFinal(limit: int, count: Count, pos: nat, pieces: seq<string>)
    requires IsFinal(count, pos)
    ensures Stop(limit, count, pos, pieces) == count(pos)
    decreases |pieces|
  {
    if pieces != [] {
      var now := pos + |pieces[0]|;
      assert count(now) == count(pos);
      assert IsFinal(count, now);
      StaysFinal(limit, count, now, pieces[1..]);
    }
  }

  /** Content is complete only when nothing comes in any more. */
  ghost predicate CompletesAtEnd(count: Count, complete: Goal) {
    forall content: string, n: nat | complete(content) && |content| == count(n) :: IsFinal(count, n)
  }

  lemma {:induction false} KeptLength(read: Reading, limit: int, count: Count, complete: Goal,
                                     r: Reader, pos: nat, pieces: seq<string>)
    requires KeepsUp(read, count, complete, r, pos, pieces) && CompletesAtEnd(count, complete)
    ensures |Keep(read, limit, r, pieces).content| == Stop(limit, count, pos, pieces)
    decreases |pieces|
  {
    var s, now := read(r, pieces[0]), pos + |pieces[0]|;
    if s.ended {
      assert IsFinal(count, now);
      StaysFinal(limit, count, now, pieces[1..]);
    } else if !Over(limit, s) {
      KeptLength(read, limit, count, complete, s, now, pieces[1..]);
    }
  }

  /** A loop under an invariant keeps the complete content, or as much of it as is in when it stops. */
  lemma Kept(read: Reading, inv: Invariant, count: Count, complete: Goal,
             limit: int, r: Reader, pos: nat, pieces: seq<string>)
    requires inv(r, pos, pieces) && AlwaysAdvances(read, inv, count, complete)
    requires OnlyAdds(read) && CompletesAtEnd(count, complete)
    ensures var kept, all := Keep(read, limit, r, pieces).content, Keep(read, 0, r, pieces).content;
      complete(all) && kept <= all && |kept| == Stop(limit, count, pos, pieces)
  {
    InvariantKeepsUp(read, inv, count, complete, r, pos, pieces);
    AllIsKept(read, count, complete, r, pos, pieces);
    LessIsKept(read, limit, r, pieces);
    KeptLength(read, limit, count, complete, r, pos, pieces);
  }

  // ---------------------------------------------------------------------- when that is everything

  /** What is in only grows, up to `total`. */
  ghost predicate GrowsTo(count: Count, total: nat) {
    forall m: nat, n: nat | m <= n :: count(m) <= count(n) <= total
  }

  /** No piece ends where the Content-Length is reached but content is still to come. */
  ghost predicate NoEarlyEnd(limit: int, count: Count, total: nat, pos: nat, pieces: seq<string>)
    decreases |pieces|
  {
    pieces != [] ==>
      var now := pos + |pieces[0]|;
      !(limit <= count(now) < total) && NoEarlyEnd(limit, count, total, now, pieces[1..])
  }

  ghost function Length(pieces: seq<string>): nat {
    |Concat(pieces)|
  }

  lemma {:induction false} NothingMore(limit: int, count: Count, total: nat, pos: nat, pieces: seq<string>)
    requires GrowsTo(count, total) && count(pos) == total
    ensures NoEarlyEnd(limit, count, total, pos, pieces)
    decreases |pieces|
  {
    if pieces != [] {
      var now := pos + |pieces[0]|;
      assert count(pos) <= count(now) <= total;
      NothingMore(limit, count, total, now, pieces[1..]);
    }
  }

  /** Everything is kept exactly if no piece ends early; otherwise at least the Content-Length is. */
  lemma {:induction false} StopsAtEnd(limit: int, count: Count, total: nat, pos: nat, pieces: seq<string>)
    requires limit > 0 && GrowsTo(count, total) && count(pos + Length(pieces)) == total
    ensures Stop(limit, count, pos, pieces) == total <==> NoEarlyEnd(limit, count, total, pos, pieces)
    ensures limit <= Stop(limit, count, pos, pieces) || Stop(limit, count, pos, pieces) == total
    decreases |pieces|
  {
    if pieces != [] {
      var now := pos + |pieces[0]|;
      assert pos + Length(pieces) == now + Length(pieces[1..]);
      assert count(now) <= count(now) <= total;
      if count(now) < limit {
        StopsAtEnd(limit, count, total, now, pieces[1..]);
      } else if count(now) == total {
        NothingMore(limit, count, total, now, pieces[1..]);
      }
    }
  }

  lemma {:induction false} StopWithoutLimit(limit: int, count: Count, pos: nat, pieces: seq<string>)
    requires limit <= 0
    ensures Stop(limit, count, pos, pieces) == count(pos + Length(pieces))
    decreases |pieces|
  {
    if pieces != [] {
      assert pos + Length(pieces) == pos + |pieces[0]| + Length(pieces[1..]);
      StopWithoutLimit(limit, count, pos + |pieces[0]|, pieces[1..]);
    }
  }
}
