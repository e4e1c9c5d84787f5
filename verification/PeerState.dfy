/** Replicating a player's inputs: an owner turns full states into delta blocks and sends each three times. */
module PeerState {
  import opened Options
  import opened ChronoState
  import opened ChronoConvergence

  /** INPUT_SEND_WINDOW_SIZE */
  const WINDOW := 3

  type Message = seq<Block>

  datatype Update = Update(timestamp: int, data: Changes)

  datatype Owner = Owner(mine: Chrono, buffer: seq<Block>)

  datatype Sending = Died | Sent(owner: Owner, message: Message)

  const NEW_OWNER := Owner(EMPTY, [])

  /** push_back, then pop_front down to the window size. */
  function Slide(buffer: seq<Block>, b: Block): (r: seq<Block>)
    ensures 0 < |r| <= WINDOW
  {
    var all := buffer + [b];
    if |all| > WINDOW then all[|all| - WINDOW..] else all
  }

  /** The buffer, its last block repeated up to the window size. */
  function Pad(buffer: seq<Block>): (m: Message)
    requires 0 < |buffer| <= WINDOW
    ensures |m| == WINDOW
    decreases WINDOW - |buffer|
  {
    if |buffer| == WINDOW then buffer else Pad(buffer + [buffer[|buffer| - 1]])
  }

  ghost function NextBlock(owner: Owner, u: Update): Block {
    Block(owner.mine.expiration, u.timestamp, ChronoState.GetChanges(owner.mine, u.data))
  }

  /** updateState */
  ghost function UpdateState(owner: Owner, u: Update): Sending {
    var b := NextBlock(owner, u);
    var put := Put(owner.mine, b);
    if put.Fatal? then Died
    else Sent(Owner(put.state, Slide(owner.buffer, b)), Pad(Slide(owner.buffer, b)))
  }

  // ------------------------------------------------------------------------ the owner's run

  /** Everything an owner has done: its state, the blocks it made and the messages it sent. */
  datatype History = Dead | Alive(owner: Owner, blocks: seq<Block>, messages: seq<Message>)

  ghost function Play(updates: seq<Update>): History {
    if updates == [] then Alive(NEW_OWNER, [], []) else
      var n := |updates| - 1;
      Advance(Play(updates[..n]), updates[n])
  }

  /** One update more. */
  ghost function Advance(h: History, u: Update): History {
    match h
    case Dead => Dead
    case Alive(owner, blocks, messages) =>
      var sending := UpdateState(owner, u);
      if sending.Died? then Dead
      else Alive(sending.owner, blocks + [NextBlock(owner, u)], messages + [sending.message])
  }

  /** The indices of the blocks in message `i`: the last three, the first two messages padded. */
  function Carried(i: nat): seq<nat> {
    if i == 0 then [0, 0, 0] else if i == 1 then [0, 1, 1] else [i - 2, i - 1, i]
  }

  ghost function BlocksAt(blocks: seq<Block>, indices: seq<nat>): Message
    requires forall k | 0 <= k < |indices| :: indices[k] < |blocks|
  {
    seq(|indices|, k requires 0 <= k < |indices| => blocks[indices[k]])
  }

  ghost function Min(a: int, b: int): int {
    if a < b then a else b
  }

  /** The owner's map is the replay of its blocks. */
  ghost predicate BlocksOk(owner: Owner, blocks: seq<Block>) {
    var n := |blocks|;
    && IsPartition(blocks)
    && owner.mine == Chrono(Replay(blocks, n), TimeAt(blocks, n), map[])
    && (n > 1 ==> blocks[0].changes.Keys != {})
  }

  /** The buffer holds the last three blocks, and message `i` carried those up to block `i`. */
  ghost predicate MessagesOk(owner: Owner, blocks: seq<Block>, messages: seq<Message>) {
    var n := |blocks|;
    && owner.buffer == blocks[n - Min(n, WINDOW)..]
    && |messages| == n
    && (forall i: nat | i < n :: messages[i] == BlocksAt(blocks, Carried(i)))
  }

  ghost predicate HistoryOk(h: History) {
    h.Alive? ==> BlocksOk(h.owner, h.blocks) && MessagesOk(h.owner, h.blocks, h.messages)
  }

  lemma {:induction false} ReplayPrefix(blocks: seq<Block>, more: seq<Block>, p: nat)
    requires p <= |blocks|
    ensures Replay(blocks + more, p) == Replay(blocks, p)
    ensures TimeAt(blocks + more, p) == TimeAt(blocks, p)
  {
    if p > 0 {
      ReplayPrefix(blocks, more, p - 1);
    }
  }

  lemma PadCarried(blocks: seq<Block>, i: nat)
    requires i + 1 == |blocks|
    ensures Pad(blocks[i + 1 - Min(i + 1, WINDOW)..]) == BlocksAt(blocks, Carried(i))
  {
    var window := blocks[i + 1 - Min(i + 1, WINDOW)..];
    if i == 0 {
      assert window == [blocks[0]];
      assert [blocks[0]] + [blocks[0]] == [blocks[0], blocks[0]];
      assert Pad([blocks[0], blocks[0]]) == [blocks[0], blocks[0], blocks[0]];
    } else if i == 1 {
      assert window == [blocks[0], blocks[1]];
      assert Pad(window) == [blocks[0], blocks[1], blocks[1]];
    }
  }

  /** A key is in an owner's data as soon as its first block has one. */
  lemma EmptyReplay(blocks: seq<Block>)
    requires IsPartition(blocks) && |blocks| > 0 && (|blocks| > 1 ==> blocks[0].changes.Keys != {})
    ensures Replay(blocks, |blocks|).Keys == {} ==> |blocks| == 1 && blocks[0].changes.Keys == {}
  {
    ReplayKeepsKeys(blocks, |blocks|);
  }

  /** What put does to a map with nothing waiting, at its own expiration time. */
  lemma PutAtTheEnd(c: Chrono, b: Block)
    requires c.future == map[] && b.start == c.expiration && 0 <= b.start
    ensures Put(c, b) == if b.end <= b.start || (c.data.Keys == {} && b.start != 0) then Fatal
      else Done(Chrono(Merge(c.data, b.start, b.changes), b.end, map[]))
  {
  }

  lemma DiesExactly(h: History, u: Update)
    requires h.Alive? && HistoryOk(h)
    ensures UpdateState(h.owner, u).Died? <==>
      u.timestamp <= h.owner.mine.expiration || (|h.blocks| == 1 && h.blocks[0].changes.Keys == {})
    ensures 0 <= h.owner.mine.expiration
  {
    var n := |h.blocks|;
    ReplayOk(h.blocks, n);
    PutAtTheEnd(h.owner.mine, NextBlock(h.owner, u));
    if n > 0 {
      EmptyReplay(h.blocks);
      TimesIncrease(h.blocks, n, n - 1);
      if n == 1 && h.blocks[0].changes.Keys == {} {
        assert Replay(h.blocks, 0) == map[];
        assert Replay(h.blocks, 1).Keys == {};
      }
    }
  }

  lemma NextPartition(blocks: seq<Block>, b: Block)
    requires IsPartition(blocks) && b.start == TimeAt(blocks, |blocks|) && b.start < b.end
    ensures IsPartition(blocks + [b])
    ensures TimeAt(blocks + [b], |blocks| + 1) == b.end
    ensures Replay(blocks + [b], |blocks| + 1) == Merge(Replay(blocks, |blocks|), b.start, b.changes)
  {
    ReplayPrefix(blocks, [b], |blocks|);
  }

  lemma NextBuffer(blocks: seq<Block>, b: Block)
    ensures var bs := blocks + [b];
      Slide(blocks[|blocks| - Min(|blocks|, WINDOW)..], b) == bs[|bs| - Min(|bs|, WINDOW)..]
  {
  }

  lemma NextMessage(blocks: seq<Block>, messages: seq<Message>, b: Block)
    requires |messages| == |blocks| && forall i: nat | i < |blocks| :: messages[i] == BlocksAt(blocks, Carried(i))
    ensures var bs := blocks + [b];
      var ms := messages + [BlocksAt(bs, Carried(|blocks|))];
      forall i: nat | i < |bs| :: ms[i] == BlocksAt(bs, Carried(i))
  {
    forall i: nat | i < |blocks|
      ensures BlocksAt(blocks + [b], Carried(i)) == BlocksAt(blocks, Carried(i))
    {
    }
  }

  lemma UpdateKeepsBlocks(h: History, u: Update)
    requires h.Alive? && HistoryOk(h) && UpdateState(h.owner, u).Sent?
    ensures BlocksOk(UpdateState(h.owner, u).owner, h.blocks + [NextBlock(h.owner, u)])
  {
    DiesExactly(h, u);
    PutAtTheEnd(h.owner.mine, NextBlock(h.owner, u));
    NextPartition(h.blocks, NextBlock(h.owner, u));
  }

  lemma UpdateKeepsMessages(owner: Owner, blocks: seq<Block>, messages: seq<Message>, u: Update)
    requires MessagesOk(owner, blocks, messages) && UpdateState(owner, u).Sent?
    ensures var sending := UpdateState(owner, u);
      MessagesOk(sending.owner, blocks + [NextBlock(owner, u)], messages + [sending.message])
  {
    var b := NextBlock(owner, u);
    NextBuffer(blocks, b);
    PadCarried(blocks + [b], |blocks|);
    NextMessage(blocks, messages, b);
  }

  lemma UpdateStep(h: History, u: Update)
    requires h.Alive? && HistoryOk(h) && UpdateState(h.owner, u).Sent?
    ensures var b, sending := NextBlock(h.owner, u), UpdateState(h.owner, u);
      HistoryOk(Alive(sending.owner, h.blocks + [b], h.messages + [sending.message]))
  {
    UpdateKeepsBlocks(h, u);
    UpdateKeepsMessages(h.owner, h.blocks, h.messages, u);
  }

  /** Where update `i` starts: at the previous update's time. */
  ghost function StartOf(updates: seq<Update>, i: nat): int
    requires i <= |updates|
  {
    if i == 0 then 0 else updates[i - 1].timestamp
  }

  /** Times rise from 0, and unless there is only one update the first is not empty. */
  ghost predicate WellTimed(updates: seq<Update>) {
    && (forall i: nat | i < |updates| :: StartOf(updates, i) < updates[i].timestamp)
    && (|updates| > 1 ==> updates[0].data.Keys != {})
  }

  lemma FirstChanges(data: Changes)
    ensures ChronoState.GetChanges(EMPTY, data) == data
  {
  }

  lemma WellTimedPrefix(updates: seq<Update>)
    requires updates != []
    ensures var n := |updates| - 1;
      WellTimed(updates) ==
        (WellTimed(updates[..n]) && StartOf(updates, n) < updates[n].timestamp &&
          (n == 1 ==> updates[0].data.Keys != {}))
  {
    var n := |updates| - 1;
    assert forall i: nat | i < n :: StartOf(updates[..n], i) == StartOf(updates, i) && updates[..n][i] == updates[i];
  }

  /** A history of these updates: alive exactly if they are well timed, and then with a block for each. */
  ghost predicate IsHistory(h: History, updates: seq<Update>) {
    HistoryOk(h) && (h.Alive? <==> WellTimed(updates)) && (h.Alive? ==> Ends(h, updates))
  }

  lemma SentExpires(owner: Owner, u: Update)
    requires owner.mine.future == map[] && 0 <= owner.mine.expiration && UpdateState(owner, u).Sent?
    ensures UpdateState(owner, u).owner.mine.expiration == u.timestamp
  {
    PutAtTheEnd(owner.mine, NextBlock(owner, u));
  }

  lemma AdvanceEnds(h: History, updates: seq<Update>, n: nat)
    requires n + 1 == |updates| && h.Alive? && Ends(h, updates[..n]) && (n == 0 ==> h.owner.mine == EMPTY)
    requires Advance(h, updates[n]).Alive?
    requires UpdateState(h.owner, updates[n]).owner.mine.expiration == updates[n].timestamp
    ensures Ends(Advance(h, updates[n]), updates)
  {
    FirstChanges(updates[0].data);
  }

  lemma AdvanceOk(h: History, updates: seq<Update>, n: nat)
    requires n + 1 == |updates| && IsHistory(h, updates[..n])
    ensures IsHistory(Advance(h, updates[n]), updates)
  {
    WellTimedPrefix(updates);
    if h.Alive? {
      DiesExactly(h, updates[n]);
      if UpdateState(h.owner, updates[n]).Sent? {
        UpdateStep(h, updates[n]);
        SentExpires(h.owner, updates[n]);
        AdvanceEnds(h, updates, n);
      }
    }
  }

  /** An owner survives its updates exactly when they are well timed. */
  lemma {:induction false} PlayOk(updates: seq<Update>)
    ensures HistoryOk(Play(updates))
    ensures Play(updates).Alive? <==> WellTimed(updates)
    ensures Play(updates).Alive? ==> Ends(Play(updates), updates)
  {
    if updates != [] {
      var n := |updates| - 1;
      PlayOk(updates[..n]);
      AdvanceOk(Play(updates[..n]), updates, n);
    }
  }

  ghost predicate Ends(h: History, updates: seq<Update>)
    requires h.Alive?
  {
    && |h.blocks| == |updates|
    && h.owner.mine.expiration == StartOf(updates, |updates|)
    && (updates != [] ==> h.blocks[0].changes == updates[0].data)
  }
}
