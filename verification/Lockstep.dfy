/** What replication achieves: from the updates of each player to the inputs and full states peers read. */
module Lockstep {
  // Deltas keep the meaning of the full states, a replica catches up exactly when every window of three
  // consecutive messages got through at least once and the last message arrived, and peers read alike.

  import opened Options
  import opened ChronoState
  import opened ChronoConvergence
  import opened PeerState

  // --------------------------------------------------------------- deltas keep the meaning

  /** The blocks an owner would send without delta compression. */
  ghost function FullBlocks(updates: seq<Update>): seq<Block> {
    seq(|updates|, i requires 0 <= i < |updates| => Block(StartOf(updates, i), updates[i].timestamp, updates[i].data))
  }

  lemma {:induction false} PlainGetPrefix(blocks: seq<Block>, more: seq<Block>, p: nat, t: int, key: string)
    requires p <= |blocks|
    ensures PlainGet(blocks + more, p, t, key) == PlainGet(blocks, p, t, key)
  {
    if p > 0 {
      PlainGetPrefix(blocks, more, p - 1, t, key);
    }
  }

  /** A value left out of a delta is the value the key already has. */
  lemma LeftOutIsCurrent(owner: Owner, blocks: seq<Block>, u: Update, t: int, key: string)
    requires BlocksOk(owner, blocks) && owner.mine.expiration <= t
    requires key in u.data && key !in NextBlock(owner, u).changes
    ensures PlainGet(blocks, |blocks|, t, key) == Some(u.data[key])
  {
    ReplayOk(blocks, |blocks|);
    LookupLatest(owner.mine.data, t, key);
    ReplayRefinesPlainGet(blocks, |blocks|, t, key);
  }

  /** Adding an update reads alike as a delta and in full, if everything before did. */
  lemma {:induction false} DeltaStep(owner: Owner, blocks: seq<Block>, fulls: seq<Block>, u: Update, t: int,
                                     key: string)
    requires BlocksOk(owner, blocks) && |fulls| == |blocks|
    requires PlainGet(blocks, |blocks|, t, key) == PlainGet(fulls, |blocks|, t, key)
    ensures var b := NextBlock(owner, u);
      PlainGet(blocks + [b], |blocks| + 1, t, key) ==
      PlainGet(fulls + [Block(b.start, b.end, u.data)], |blocks| + 1, t, key)
  {
    var b, n := NextBlock(owner, u), |blocks|;
    PlainGetPrefix(blocks, [b], n, t, key);
    PlainGetPrefix(fulls, [Block(b.start, b.end, u.data)], n, t, key);
    if b.start <= t && key in u.data && key !in b.changes {
      LeftOutIsCurrent(owner, blocks, u, t, key);
    }
  }

  /** Reading the deltas is reading the full states. */
  lemma {:induction false} DeltasKeepMeaning(updates: seq<Update>, t: int, key: string)
    requires Play(updates).Alive?
    ensures |Play(updates).blocks| == |updates|
    ensures PlainGet(Play(updates).blocks, |updates|, t, key) == PlainGet(FullBlocks(updates), |updates|, t, key)
  {
    PlayOk(updates);
    if updates != [] {
      var n := |updates| - 1;
      var init := updates[..n];
      var h := Play(init);
      PlayOk(init);
      DeltasKeepMeaning(init, t, key);
      DeltaStep(h.owner, h.blocks, FullBlocks(init), updates[n], t, key);
      FullBlocksGrow(updates);
      assert StartOf(init, n) == StartOf(updates, n);
    }
  }

  lemma FullBlocksGrow(updates: seq<Update>)
    requires updates != []
    ensures var n := |updates| - 1;
      FullBlocks(updates) ==
        FullBlocks(updates[..n]) + [Block(StartOf(updates, n), updates[n].timestamp, updates[n].data)]
  {
  }

  /** A block has exactly the keys of the full state whose value is not the one a scan of earlier blocks gives. */
  ghost predicate IsDelta(b: Block, blocks: seq<Block>, i: nat, data: Changes, key: string)
    requires i <= |blocks|
  {
    && (key in b.changes <==> key in data && PlainGet(blocks, i, b.start, key) != Some(data[key]))
    && (key in b.changes ==> b.changes[key] == data[key])
  }

  lemma NextDeltaExactly(owner: Owner, blocks: seq<Block>, u: Update, key: string)
    requires BlocksOk(owner, blocks)
    ensures IsDelta(NextBlock(owner, u), blocks, |blocks|, u.data, key)
  {
    var t := owner.mine.expiration;
    ReplayOk(blocks, |blocks|);
    if Logged(owner.mine.data, key) {
      LookupLatest(owner.mine.data, t, key);
    }
    ReplayRefinesPlainGet(blocks, |blocks|, t, key);
  }

  lemma DeltaStays(b: Block, blocks: seq<Block>, more: seq<Block>, i: nat, data: Changes, key: string)
    requires i <= |blocks| && IsDelta(b, blocks, i, data, key)
    ensures IsDelta(b, blocks + more, i, data, key)
  {
    PlainGetPrefix(blocks, more, i, b.start, key);
  }

  /** Over all updates of an owner: no block sets a key to the value it already has, and none leaves out a new one. */
  lemma {:induction false} DeltasAreMinimal(updates: seq<Update>, i: nat, key: string)
    requires Play(updates).Alive? && i < |updates|
    ensures |Play(updates).blocks| == |updates|
    ensures IsDelta(Play(updates).blocks[i], Play(updates).blocks, i, updates[i].data, key)
    decreases |updates|
  {
    PlayOk(updates);
    var n := |updates| - 1;
    var h := Play(updates[..n]);
    PlayOk(updates[..n]);
    var next := NextBlock(h.owner, updates[n]);
    if i < n {
      DeltasAreMinimal(updates[..n], i, key);
      DeltaStays(h.blocks[i], h.blocks, [next], i, updates[i].data, key);
    } else {
      NextDeltaExactly(h.owner, h.blocks, updates[n], key);
      DeltaStays(next, h.blocks, [next], n, updates[n].data, key);
    }
  }

  // ---------------------------------------------------------------------- receiving messages

  /** The receive loop: put each block of a message. */
  ghost function PutAll(c: Chrono, message: Message): Outcome {
    if message == [] then Done(c) else
      var before := PutAll(c, message[..|message| - 1]);
      if before.Fatal? then Fatal else Put(before.state, message[|message| - 1])
  }

  /** The replica's map after receiving the listed messages, in that order. */
  ghost function ReceiveAll(messages: seq<Message>, received: seq<nat>): Outcome
    requires forall k | 0 <= k < |received| :: received[k] < |messages|
  {
    if received == [] then Done(EMPTY) else
      var before := ReceiveAll(messages, received[..|received| - 1]);
      if before.Fatal? then Fatal else PutAll(before.state, messages[received[|received| - 1]])
  }

  /** The blocks those messages deliver, in order. */
  ghost function Flatten(received: seq<nat>): seq<nat> {
    if received == [] then [] else Flatten(received[..|received| - 1]) + Carried(received[|received| - 1])
  }

  lemma {:induction false} FlattenInRange(received: seq<nat>, n: nat)
    requires forall k | 0 <= k < |received| :: received[k] < n
    ensures forall k | 0 <= k < |Flatten(received)| :: Flatten(received)[k] < n
  {
    if received != [] {
      FlattenInRange(received[..|received| - 1], n);
    }
  }

  ghost predicate IsDelivery(order: seq<nat>, blocks: seq<Block>) {
    forall k | 0 <= k < |order| :: order[k] < |blocks|
  }

  lemma {:induction false} DeliverMore(blocks: seq<Block>, order: seq<nat>, more: seq<nat>, message: Message)
    requires IsDelivery(order, blocks) && IsDelivery(more, blocks) && message == BlocksAt(blocks, more)
    ensures IsDelivery(order + more, blocks)
    ensures DeliverAll(blocks, order + more) ==
      if DeliverAll(blocks, order).Fatal? then Fatal else PutAll(DeliverAll(blocks, order).state, message)
    decreases |more|
  {
    if more == [] {
      assert order + more == order;
    } else {
      var n := |more| - 1;
      DeliverMore(blocks, order, more[..n], message[..n]);
      assert (order + more)[..|order| + n] == order + more[..n];
    }
  }

  lemma ReceiveMore(messages: seq<Message>, init: seq<nat>, last: nat)
    requires (forall k | 0 <= k < |init| :: init[k] < |messages|) && last < |messages|
    ensures ReceiveAll(messages, init + [last]) ==
      if ReceiveAll(messages, init).Fatal? then Fatal else PutAll(ReceiveAll(messages, init).state, messages[last])
  {
    assert (init + [last])[..|init|] == init;
  }

  /** Receiving messages is delivering the blocks they carry. */
  lemma {:induction false} ReceiveIsDeliver(blocks: seq<Block>, messages: seq<Message>, received: seq<nat>)
    requires |messages| == |blocks| && forall i: nat | i < |blocks| :: messages[i] == BlocksAt(blocks, Carried(i))
    requires forall k | 0 <= k < |received| :: received[k] < |messages|
    ensures IsDelivery(Flatten(received), blocks)
    ensures ReceiveAll(messages, received) == DeliverAll(blocks, Flatten(received))
    decreases |received|
  {
    FlattenInRange(received, |blocks|);
    if received != [] {
      var n := |received| - 1;
      var init, last := received[..n], received[n];
      assert received == init + [last];
      ReceiveIsDeliver(blocks, messages, init);
      ReceiveMore(messages, init, last);
      DeliverMore(blocks, Flatten(init), Carried(last), messages[last]);
    }
  }

  lemma {:induction false} FlattenElements(received: seq<nat>)
    ensures forall i :: i in Flatten(received) <==> exists j :: j in received && i in Carried(j)
  {
    if received != [] {
      var n := |received| - 1;
      var init, last := received[..n], received[n];
      assert received == init + [last];
      FlattenElements(init);
      forall i
        ensures i in Flatten(received) <==> exists j :: j in received && i in Carried(j)
      {
        if i in Carried(last) {
          assert last in received;
        }
        if i in Flatten(init) {
          var j :| j in init && i in Carried(j);
          assert j in received;
        }
      }
    }
  }

  // ---------------------------------------------------------------------------- catching up

  /** One of every three consecutive messages arrived, and the last one did. */
  ghost predicate EveryWindowHit(received: seq<nat>, n: nat) {
    && (forall i: nat | i + 2 < n :: i in received || i + 1 in received || i + 2 in received)
    && (n > 0 ==> n - 1 in received)
  }

  lemma CarriedBy(i: nat, j: nat)
    ensures i in Carried(j) <==> i <= j <= i + 2
  {
  }

  ghost predicate Covered(received: seq<nat>, n: nat) {
    forall i: nat | i < n :: i in Flatten(received)
  }

  lemma HitImpliesCovered(received: seq<nat>, n: nat, i: nat)
    requires EveryWindowHit(received, n) && i < n
    ensures i in Flatten(received)
  {
    FlattenElements(received);
    var j: nat := if i + 2 >= n then n - 1 else if i in received then i else if i + 1 in received then i + 1 else i + 2;
    CarriedBy(i, j);
    assert j in received && i in Carried(j);
  }

  lemma CoveredImpliesNear(received: seq<nat>, i: nat)
    requires i in Flatten(received)
    ensures i in received || i + 1 in received || i + 2 in received
  {
    var j := CarrierOf(received, i);
    CarriedBy(i, j);
    assert j == i || j == i + 1 || j == i + 2;
  }

  lemma CarrierOf(received: seq<nat>, i: nat) returns (j: nat)
    requires i in Flatten(received)
    ensures j in received && i in Carried(j)
  {
    FlattenElements(received);
    j :| j in received && i in Carried(j);
  }

  lemma NotBeyond(received: seq<nat>, n: nat, j: nat)
    requires (forall k | 0 <= k < |received| :: received[k] < n) && n <= j
    ensures j !in received
  {
  }

  lemma HitMeansCovered(received: seq<nat>, n: nat)
    requires forall k | 0 <= k < |received| :: received[k] < n
    ensures EveryWindowHit(received, n) <==> Covered(received, n)
  {
    if EveryWindowHit(received, n) {
      forall i: nat | i < n
        ensures i in Flatten(received)
      {
        HitImpliesCovered(received, n, i);
      }
    }
    if Covered(received, n) {
      forall i: nat | i + 2 < n
        ensures i in received || i + 1 in received || i + 2 in received
      {
        assert i in Flatten(received);
        CoveredImpliesNear(received, i);
      }
      if n > 0 {
        var last: nat := n - 1;
        assert last in Flatten(received);
        CoveredImpliesNear(received, last);
        NotBeyond(received, n, n);
        NotBeyond(received, n, n + 1);
      }
    }
  }

  lemma HitMeansAllDelivered(received: seq<nat>, n: nat)
    requires forall k | 0 <= k < |received| :: received[k] < n
    ensures EveryWindowHit(received, n) <==> (forall i: nat | i < n :: i in Elements(Flatten(received)))
  {
    HitMeansCovered(received, n);
    forall i: nat
      ensures i in Elements(Flatten(received)) <==> i in Flatten(received)
    {
    }
  }

  lemma FrontAtEnd(delivered: set<nat>, n: nat)
    ensures Front(delivered, 0, n) == n <==> (forall i: nat | i < n :: i in delivered)
  {
  }

  lemma NothingWaits(future: map<int, Block>, blocks: seq<Block>, delivered: set<nat>)
    requires InRange(delivered, |blocks|) && IsWaiting(future, blocks, delivered, |blocks|)
    ensures future == map[]
  {
    if future.Keys != {} {
      var s := SomeElement(future.Keys);
      assert false;
    }
  }

  /** Among the states a delivery can end in, only the complete one expires where the blocks end. */
  lemma CompleteWhenAllDelivered(c: Chrono, blocks: seq<Block>, delivered: set<nat>)
    requires IsPartition(blocks) && InRange(delivered, |blocks|) && Holds(c, blocks, delivered)
    ensures var n := |blocks|;
      var all := forall i: nat | i < n :: i in delivered;
      && (all <==> c == Chrono(Replay(blocks, n), TimeAt(blocks, n), map[]))
      && (all <==> c.expiration == TimeAt(blocks, n))
  {
    var n := |blocks|;
    var f := Front(delivered, 0, n);
    FrontAtEnd(delivered, n);
    if f == n {
      NothingWaits(c.future, blocks, delivered);
    } else {
      TimesIncrease(blocks, f, n - 1);
    }
  }

  /**
   For any updates the owner survives, a replica ends with the owner's whole map, and in
   particular its expiration time, exactly when every window was hit.
   */
  lemma {:induction false} CatchesUp(updates: seq<Update>, received: seq<nat>)
    requires WellTimed(updates) && forall k | 0 <= k < |received| :: received[k] < |updates|
    ensures Play(updates).Alive? && |Play(updates).messages| == |updates|
    ensures ReceiveAll(Play(updates).messages, received).Done?
    ensures EveryWindowHit(received, |updates|) <==>
      ReceiveAll(Play(updates).messages, received).state == Play(updates).owner.mine
    ensures EveryWindowHit(received, |updates|) <==>
      ReceiveAll(Play(updates).messages, received).state.expiration == Play(updates).owner.mine.expiration
  {
    PlayOk(updates);
    var h := Play(updates);
    ReplicaOf(h, received);
  }

  lemma {:induction false} ReplicaOf(h: History, received: seq<nat>)
    requires h.Alive? && HistoryOk(h) && forall k | 0 <= k < |received| :: received[k] < |h.blocks|
    ensures var r := ReceiveAll(h.messages, received);
      && r.Done?
      && (EveryWindowHit(received, |h.blocks|) <==> r.state == h.owner.mine)
      && (EveryWindowHit(received, |h.blocks|) <==> r.state.expiration == h.owner.mine.expiration)
  {
    ReceiveIsDeliver(h.blocks, h.messages, received);
    var order := Flatten(received);
    Convergence(h.blocks, order);
    assert InRange(Elements(order), |h.blocks|) && !BadStart(h.blocks, Elements(order));
    CompleteWhenAllDelivered(DeliverAll(h.blocks, order).state, h.blocks, Elements(order));
    HitMeansAllDelivered(received, |h.blocks|);
  }

  /** Whatever arrived, a replica answers below its expiration time as the owner's full states do. */
  lemma ReplicaAnswers(updates: seq<Update>, received: seq<nat>, t: int, key: string)
    requires WellTimed(updates) && forall k | 0 <= k < |received| :: received[k] < |updates|
    requires var h := Play(updates); h.Alive? && |h.messages| == |updates| && ReceiveAll(h.messages, received).Done?
    ensures var c := ReceiveAll(Play(updates).messages, received).state;
      0 <= t < c.expiration ==> Get(c, t, key) == PlainGet(FullBlocks(updates), |updates|, t, key)
    ensures var c := ReceiveAll(Play(updates).messages, received).state;
      c.expiration <= t ==> Get(c, t, key) == None
  {
    PlayOk(updates);
    var h := Play(updates);
    ReceiveIsDeliver(h.blocks, h.messages, received);
    DeliveredAnswers(h.blocks, Flatten(received), t, key);
    DeltasKeepMeaning(updates, t, key);
  }

  // ------------------------------------------------------------------------ reading together

  /** The map holds some delivery, in any order and with any repetition, of the owner's blocks. */
  ghost predicate Replicates(c: Chrono, blocks: seq<Block>) {
    && IsPartition(blocks)
    && exists order :: IsDelivery(order, blocks) && DeliverAll(blocks, order) == Done(c)
  }

  /** A peer: each player's map, its own included, and the players it sees as shut down. */
  datatype Peer = Peer(players: map<string, Chrono>, down: set<string>)

  ghost predicate InGame(peer: Peer, game: map<string, seq<Block>>) {
    peer.players.Keys == game.Keys && forall p | p in game :: Replicates(peer.players[p], game[p])
  }

  /** What the player's blocks say about a key, whoever received them. */
  ghost function Played(game: map<string, seq<Block>>, p: string, t: int, key: string): Option<string>
    requires p in game
  {
    PlainGet(game[p], |game[p]|, t, key)
  }

  /** The players whose data reaches beyond the time on this peer. */
  ghost function Available(peer: Peer, t: int): set<string> {
    set p | p in peer.players && t < peer.players[p].expiration
  }

  ghost function Living(peer: Peer): set<string> {
    peer.players.Keys - peer.down
  }

  /** The time is available for every player that counts, so no call waits. */
  ghost predicate Ready(peer: Peer, t: int) {
    Living(peer) <= Available(peer, t)
  }

  /** A map of a game answers below its expiration time as the player's blocks do. */
  lemma ReplicaAnswersAsPlayed(c: Chrono, blocks: seq<Block>, t: int, key: string)
    requires Replicates(c, blocks) && 0 <= t < c.expiration
    ensures Get(c, t, key) == PlainGet(blocks, |blocks|, t, key)
    ensures key in GetAll(c, t) <==> PlainGet(blocks, |blocks|, t, key).Some?
    ensures key in GetAll(c, t) ==> Some(GetAll(c, t)[key]) == PlainGet(blocks, |blocks|, t, key)
  {
    var order :| IsDelivery(order, blocks) && DeliverAll(blocks, order) == Done(c);
    DeliveredAnswers(blocks, order, t, key);
  }

  // ----------------------------------------------------------------------------- input values

  /** getAllInputValues: for each key, the value of each living player that has one. */
  ghost function AllInputValues(peer: Peer, t: int): map<string, map<string, string>> {
    map key | key in InputKeys(peer, t) :: ValuesOf(peer, t, key)
  }

  ghost function InputKeys(peer: Peer, t: int): set<string> {
    set p, key | p in Living(peer) && p in peer.players && key in GetAll(peer.players[p], t).Keys :: key
  }

  ghost function ValuesOf(peer: Peer, t: int, key: string): map<string, string> {
    map p | p in Living(peer) && p in peer.players && key in GetAll(peer.players[p], t).Keys
      :: GetAll(peer.players[p], t)[key]
  }

  /** What getAllInputValues says about one player and one key. */
  ghost function InputOf(values: map<string, map<string, string>>, p: string, key: string): Option<string> {
    if key in values && p in values[key] then Some(values[key][p]) else None
  }

  /** A ready peer reads, for each living player and key, what that player played. */
  lemma InputIsPlayed(peer: Peer, game: map<string, seq<Block>>, t: int, p: string, key: string)
    requires InGame(peer, game) && 0 <= t && Ready(peer, t)
    ensures InputOf(AllInputValues(peer, t), p, key) == if p in Living(peer) then Played(game, p, t, key) else None
  {
    if p in Living(peer) {
      ReplicaAnswersAsPlayed(peer.players[p], game[p], t, key);
      assert key in GetAll(peer.players[p], t) ==> key in InputKeys(peer, t);
    }
  }

  ghost predicate SameReadings(a: Peer, b: Peer, t: int) {
    forall p, key :: InputOf(AllInputValues(a, t), p, key) == InputOf(AllInputValues(b, t), p, key)
  }

  lemma KeyIsRead(a: Peer, b: Peer, t: int, key: string)
    requires SameReadings(a, b, t) && key in AllInputValues(a, t)
    ensures key in AllInputValues(b, t)
  {
    var p :| p in Living(a) && p in a.players && key in GetAll(a.players[p], t).Keys;
    assert p in AllInputValues(a, t)[key];
    assert InputOf(AllInputValues(a, t), p, key).Some?;
  }

  lemma SameValues(va: map<string, string>, vb: map<string, string>)
    requires forall p :: (p in va <==> p in vb) && (p in va ==> va[p] == vb[p])
    ensures va == vb
  {
  }

  lemma ReadingsDetermineValues(a: Peer, b: Peer, t: int)
    requires SameReadings(a, b, t)
    ensures AllInputValues(a, t) == AllInputValues(b, t)
  {
    var va, vb := AllInputValues(a, t), AllInputValues(b, t);
    forall key | key in va || key in vb
      ensures key in va && key in vb && va[key] == vb[key]
    {
      if key in va {
        KeyIsRead(a, b, t, key);
      } else {
        KeyIsRead(b, a, t, key);
      }
      forall p
        ensures (p in va[key] <==> p in vb[key]) && (p in va[key] ==> va[key][p] == vb[key][p])
      {
        assert InputOf(va, p, key) == InputOf(vb, p, key);
      }
      SameValues(va[key], vb[key]);
    }
  }

  /** A player that only one of the two sees alive. */
  ghost predicate SeenByOne(a: Peer, b: Peer, p: string) {
    (p in Living(a)) != (p in Living(b))
  }

  ghost predicate ReadsAsPlayed(peer: Peer, game: map<string, seq<Block>>, t: int) {
    && peer.players.Keys == game.Keys
    && forall p, key ::
      InputOf(AllInputValues(peer, t), p, key) == if p in Living(peer) then Played(game, p, t, key) else None
  }

  lemma ReadyReadsAsPlayed(peer: Peer, game: map<string, seq<Block>>, t: int)
    requires InGame(peer, game) && 0 <= t && Ready(peer, t)
    ensures ReadsAsPlayed(peer, game, t)
  {
    forall p, key
      ensures InputOf(AllInputValues(peer, t), p, key) == if p in Living(peer) then Played(game, p, t, key) else None
    {
      InputIsPlayed(peer, game, t, p, key);
    }
  }

  /** No player alive to only one of the two has an input at the time. */
  ghost predicate NothingSeenByOne(a: Peer, b: Peer, game: map<string, seq<Block>>, t: int) {
    forall p, key | p in game && SeenByOne(a, b, p) :: Played(game, p, t, key) == None
  }

  lemma SameInputs(a: Peer, b: Peer, game: map<string, seq<Block>>, t: int)
    requires ReadsAsPlayed(a, game, t) && ReadsAsPlayed(b, game, t) && NothingSeenByOne(a, b, game, t)
    ensures AllInputValues(a, t) == AllInputValues(b, t)
  {
    forall p, key
      ensures InputOf(AllInputValues(a, t), p, key) == InputOf(AllInputValues(b, t), p, key)
    {
      assert p in game && SeenByOne(a, b, p) ==> Played(game, p, t, key) == None;
    }
    ReadingsDetermineValues(a, b, t);
  }

  lemma OtherInputs(a: Peer, b: Peer, game: map<string, seq<Block>>, t: int)
    requires ReadsAsPlayed(a, game, t) && ReadsAsPlayed(b, game, t) && !NothingSeenByOne(a, b, game, t)
    ensures AllInputValues(a, t) != AllInputValues(b, t)
  {
    var p, key :| p in game && SeenByOne(a, b, p) && Played(game, p, t, key) != None;
    assert InputOf(AllInputValues(a, t), p, key) != InputOf(AllInputValues(b, t), p, key);
  }

  /** Two ready peers read the same inputs exactly if no player alive to only one of them has one. */
  lemma InputsAgreeExactly(a: Peer, b: Peer, game: map<string, seq<Block>>, t: int)
    requires InGame(a, game) && InGame(b, game) && 0 <= t && Ready(a, t) && Ready(b, t)
    ensures AllInputValues(a, t) == AllInputValues(b, t) <==> NothingSeenByOne(a, b, game, t)
  {
    ReadyReadsAsPlayed(a, game, t);
    ReadyReadsAsPlayed(b, game, t);
    if NothingSeenByOne(a, b, game, t) {
      SameInputs(a, b, game, t);
    } else {
      OtherInputs(a, b, game, t);
    }
  }

  /** Two peers that see the same players alive read the same inputs at every time both have. */
  lemma {:induction false} LockstepInputs(a: Peer, b: Peer, game: map<string, seq<Block>>, t: int)
    requires InGame(a, game) && InGame(b, game) && Living(a) == Living(b)
    requires 0 <= t && Ready(a, t) && Ready(b, t)
    ensures AllInputValues(a, t) == AllInputValues(b, t)
  {
    InputsAgreeExactly(a, b, game, t);
  }

  // ------------------------------------------------------------------------------- full state

  /**
   getFullState: players in order; the first to have a key wins. A player whose data ends
   earlier is waited for while it lives, and passed over once it is down.
   */
  ghost function FullState(peer: Peer, order: seq<string>, t: int): map<string, string>
    requires forall p | p in order :: p in peer.players
  {
    if order == [] then map[] else
      var last := order[|order| - 1];
      var before := FullState(peer, order[..|order| - 1], t);
      if t < peer.players[last].expiration then GetAll(peer.players[last], t) + before else before
  }

  ghost predicate Has(game: map<string, seq<Block>>, p: string, t: int, key: string)
    requires p in game
  {
    Played(game, p, t, key).Some?
  }

  /** The first available player, in order, that has the key at the time. */
  ghost function FirstHolder(available: set<string>, game: map<string, seq<Block>>, order: seq<string>, t: int,
                             key: string)
    : (first: Option<string>)
    requires forall p | p in order :: p in game
    ensures first.Some? ==> first.value in order && first.value in available && Has(game, first.value, t, key)
    ensures first.None? ==> forall p | p in order && p in available :: !Has(game, p, t, key)
    decreases |order|
  {
    if order == [] then None
    else if order[0] in available && Has(game, order[0], t, key) then Some(order[0])
    else FirstHolder(available, game, order[1..], t, key)
  }

  lemma {:induction false} LastIsAskedLast(available: set<string>, game: map<string, seq<Block>>, order: seq<string>,
                                           t: int, key: string)
    requires order != [] && forall p | p in order :: p in game
    ensures var n := |order| - 1;
      var before := FirstHolder(available, game, order[..n], t, key);
      FirstHolder(available, game, order, t, key) ==
        if before.Some? then before
        else if order[n] in available && Has(game, order[n], t, key) then Some(order[n]) else None
    decreases |order|
  {
    var n := |order| - 1;
    if n > 0 {
      LastIsAskedLast(available, game, order[1..], t, key);
      assert order[1..][..n - 1] == order[..n][1..];
    }
  }

  /** The value of a key in a full state is the one its first holder played. */
  lemma {:induction false} FullStateValue(peer: Peer, game: map<string, seq<Block>>, order: seq<string>, t: int,
                                          key: string)
    requires InGame(peer, game) && 0 <= t && forall p | p in order :: p in game
    ensures var first := FirstHolder(Available(peer, t), game, order, t, key);
      && (key in FullState(peer, order, t) <==> first.Some?)
      && (first.Some? ==> Some(FullState(peer, order, t)[key]) == Played(game, first.value, t, key))
    decreases |order|
  {
    if order != [] {
      var n := |order| - 1;
      assert order[n] in order;
      FullStateValue(peer, game, order[..n], t, key);
      LastIsAskedLast(Available(peer, t), game, order, t, key);
      if order[n] in Available(peer, t) {
        ReplicaAnswersAsPlayed(peer.players[order[n]], game[order[n]], t, key);
      }
    }
  }

  /** For one key, the first players to have it on either peer played the same value. */
  ghost predicate SameFirstValue(a: Peer, b: Peer, game: map<string, seq<Block>>, order: seq<string>, t: int,
                                 key: string)
    requires forall p | p in order :: p in game
  {
    var onA, onB := FirstHolder(Available(a, t), game, order, t, key),
      FirstHolder(Available(b, t), game, order, t, key);
    && (onA.Some? <==> onB.Some?)
    && (onA.Some? ==> Played(game, onA.value, t, key) == Played(game, onB.value, t, key))
  }

  /** Two states say the same about a key. */
  ghost predicate SameAt(a: map<string, string>, b: map<string, string>, key: string) {
    (key in a <==> key in b) && (key in a ==> a[key] == b[key])
  }

  lemma SameEverywhere(a: map<string, string>, b: map<string, string>)
    ensures a == b <==> forall key :: SameAt(a, b, key)
  {
    if forall key :: SameAt(a, b, key) {
      assert forall key | key in a :: SameAt(a, b, key);
      assert forall key | key in b :: SameAt(a, b, key);
    }
  }

  lemma SameFirstSameValue(a: Peer, b: Peer, game: map<string, seq<Block>>, order: seq<string>, t: int, key: string)
    requires InGame(a, game) && InGame(b, game) && 0 <= t && forall p | p in order :: p in game
    ensures SameFirstValue(a, b, game, order, t, key) <==> SameAt(FullState(a, order, t), FullState(b, order, t), key)
  {
    FullStateValue(a, game, order, t, key);
    FullStateValue(b, game, order, t, key);
  }

  /** Two peers build the same full state exactly if, for every key, the first players to have it agree. */
  lemma FullStatesAgreeExactly(a: Peer, b: Peer, game: map<string, seq<Block>>, order: seq<string>, t: int)
    requires InGame(a, game) && InGame(b, game) && 0 <= t && forall p | p in order :: p in game
    ensures FullState(a, order, t) == FullState(b, order, t) <==>
      forall key :: SameFirstValue(a, b, game, order, t, key)
  {
    forall key
      ensures SameFirstValue(a, b, game, order, t, key) <==>
        SameAt(FullState(a, order, t), FullState(b, order, t), key)
    {
      SameFirstSameValue(a, b, game, order, t, key);
    }
    SameEverywhere(FullState(a, order, t), FullState(b, order, t));
  }

  /** A player whose data reaches the time on one of the two peers only. */
  ghost predicate MissingOnOne(a: Peer, b: Peer, t: int, p: string) {
    (p in Available(a, t)) != (p in Available(b, t))
  }

  ghost predicate NobodyMissed(a: Peer, b: Peer, game: map<string, seq<Block>>, order: seq<string>, t: int)
    requires forall p | p in order :: p in game
  {
    forall p, key | p in order && MissingOnOne(a, b, t, p) :: !Has(game, p, t, key)
  }

  lemma {:induction false} SameHolder(a: Peer, b: Peer, game: map<string, seq<Block>>, order: seq<string>, t: int,
                                      key: string)
    requires (forall p | p in order :: p in game) && NobodyMissed(a, b, game, order, t)
    ensures FirstHolder(Available(a, t), game, order, t, key) == FirstHolder(Available(b, t), game, order, t, key)
    decreases |order|
  {
    if order != [] {
      assert order[0] in order;
      assert NobodyMissed(a, b, game, order[1..], t);
      SameHolder(a, b, game, order[1..], t, key);
    }
  }

  /** No two players have the same key at the time. */
  ghost predicate KeysApart(game: map<string, seq<Block>>, order: seq<string>, t: int)
    requires forall p | p in order :: p in game
  {
    forall p, q, key | p in order && q in order && p != q :: !(Has(game, p, t, key) && Has(game, q, t, key))
  }

  /**
   If no player available to one peer only has a key, the full states are equal; and where players
   keep to keys of their own, only then.
   */
  lemma FullStatesNeedEveryHolder(a: Peer, b: Peer, game: map<string, seq<Block>>, order: seq<string>, t: int)
    requires InGame(a, game) && InGame(b, game) && 0 <= t && forall p | p in order :: p in game
    ensures NobodyMissed(a, b, game, order, t) ==> FullState(a, order, t) == FullState(b, order, t)
    ensures KeysApart(game, order, t) ==>
      (FullState(a, order, t) == FullState(b, order, t) <==> NobodyMissed(a, b, game, order, t))
  {
    FullStatesAgreeExactly(a, b, game, order, t);
    if NobodyMissed(a, b, game, order, t) {
      forall key
        ensures SameFirstValue(a, b, game, order, t, key)
      {
        SameHolder(a, b, game, order, t, key);
      }
    } else if KeysApart(game, order, t) {
      var key := MissedKey(a, b, game, order, t);
      assert !SameFirstValue(a, b, game, order, t, key);
    }
  }

  lemma MissedKey(a: Peer, b: Peer, game: map<string, seq<Block>>, order: seq<string>, t: int) returns (key: string)
    requires (forall p | p in order :: p in game) && KeysApart(game, order, t) && !NobodyMissed(a, b, game, order, t)
    ensures !SameFirstValue(a, b, game, order, t, key)
  {
    var p;
    p, key :| p in order && MissingOnOne(a, b, t, p) && Has(game, p, t, key);
  }

  /** A player that is down is either available to both peers or to neither. */
  ghost predicate AgreeOnDown(a: Peer, b: Peer, t: int) {
    forall p | p in a.players && p in b.players && p in a.down + b.down ::
      t < a.players[p].expiration <==> t < b.players[p].expiration
  }

  /** Two ready peers that have every player that is down alike build the same full state. */
  lemma LockstepFullState(a: Peer, b: Peer, game: map<string, seq<Block>>, order: seq<string>, t: int)
    requires InGame(a, game) && InGame(b, game) && AgreeOnDown(a, b, t)
    requires 0 <= t && Ready(a, t) && Ready(b, t) && forall p | p in order :: p in game
    ensures FullState(a, order, t) == FullState(b, order, t)
  {
    forall p | p in order
      ensures !MissingOnOne(a, b, t, p)
    {
      assert p in Living(a) ==> p in Available(a, t);
      assert p in Living(b) ==> p in Available(b, t);
    }
    FullStatesNeedEveryHolder(a, b, game, order, t);
  }

  // --------------------------------------------------------- a player lost in mid-broadcast

  const LOST_BLOCK := Block(0, 10, map["k" := "v"])

  /**
   Two peers that agree on who plays and on who lives and dies, and that wait for nobody: the last block
   of the lost player reached one of them only, and their full states differ.
   */
  lemma LostPlayerSplitsPeers() returns (a: Peer, b: Peer, game: map<string, seq<Block>>)
    ensures InGame(a, game) && InGame(b, game) && a.down == b.down && Living(a) == Living(b)
    ensures "p" in game && Ready(a, 5) && Ready(b, 5)
    ensures FullState(a, ["p"], 5) == map["k" := "v"] && FullState(b, ["p"], 5) == map[]
    ensures AllInputValues(a, 5) == AllInputValues(b, 5)
  {
    var blocks := [LOST_BLOCK];
    game := map["p" := blocks];
    var got := DeliverAll(blocks, [0]);
    assert [0][..0] == [];
    Convergence(blocks, [0]);
    Convergence(blocks, []);
    assert 1 !in Elements([0]) && 0 in Elements([0]);
    assert IsDelivery([0], blocks) && IsDelivery([], blocks);
    a := Peer(map["p" := got.state], {"p"});
    b := Peer(map["p" := EMPTY], {"p"});
    assert Replicates(got.state, blocks) && Replicates(EMPTY, blocks);
    OneBlockAvailable(got.state, blocks);
    LostState(a, game);
    LostState(b, game);
    InputsAgreeExactly(a, b, game, 5);
  }

  lemma OneBlockAvailable(c: Chrono, blocks: seq<Block>)
    requires blocks == [LOST_BLOCK] && Holds(c, blocks, Elements([0]))
    ensures c.expiration == 10
  {
    assert 0 in Elements([0]);
    assert Front(Elements([0]), 0, 1) == 1;
  }

  lemma LostPlayed(game: map<string, seq<Block>>, key: string)
    requires game == map["p" := [LOST_BLOCK]]
    ensures Played(game, "p", 5, key) == if key == "k" then Some("v") else None
  {
    assert PlainGet(game["p"], 0, 5, key) == None;
  }

  lemma LostState(peer: Peer, game: map<string, seq<Block>>)
    requires game == map["p" := [LOST_BLOCK]] && InGame(peer, game)
    ensures FullState(peer, ["p"], 5) == if 5 < peer.players["p"].expiration then map["k" := "v"] else map[]
  {
    forall key: string
      ensures key in FullState(peer, ["p"], 5) <==> key == "k" && 5 < peer.players["p"].expiration
      ensures key in FullState(peer, ["p"], 5) ==> FullState(peer, ["p"], 5)[key] == "v"
    {
      LostValue(peer, game, ["p"], key);
    }
  }

  lemma LostValue(peer: Peer, game: map<string, seq<Block>>, order: seq<string>, key: string)
    requires game == map["p" := [LOST_BLOCK]] && InGame(peer, game) && order == ["p"]
    ensures key in FullState(peer, order, 5) <==> key == "k" && 5 < peer.players["p"].expiration
    ensures key in FullState(peer, order, 5) ==> FullState(peer, order, 5)[key] == "v"
  {
    assert order[0] == "p" && order[1..] == [];
    LostPlayed(game, key);
    FullStateValue(peer, game, order, 5, key);
  }

  // ------------------------------------------------------- from updates and messages to answers

  lemma OneUpdateLess(updates: seq<Update>)
    requires updates != [] && Play(updates).Alive?
    ensures var init := updates[..|updates| - 1];
      Play(init).Alive? && Play(init).blocks <= Play(updates).blocks
  {
  }

  /** The first updates of a player make the first blocks. */
  lemma {:induction false} PlayPrefix(updates: seq<Update>, n: nat)
    requires n <= |updates| && Play(updates).Alive?
    ensures Play(updates[..n]).Alive? && Play(updates[..n]).blocks <= Play(updates).blocks
    decreases |updates|
  {
    if n == |updates| {
      assert updates[..n] == updates;
    } else {
      var init := updates[..|updates| - 1];
      OneUpdateLess(updates);
      PlayPrefix(init, n);
      assert init[..n] == updates[..n];
    }
  }

  /** The order of a delivery without gap, repetition or disorder. */
  ghost function InOrder(n: nat): seq<nat> {
    seq(n, k => k)
  }

  /** The owner's own map, after its first `n` updates, is a delivery of the blocks it makes in all. */
  lemma OwnerReplicates(updates: seq<Update>, n: nat)
    requires n <= |updates| && Play(updates).Alive?
    ensures Play(updates[..n]).Alive?
    ensures Replicates(Play(updates[..n]).owner.mine, Play(updates).blocks)
  {
    PlayOk(updates);
    PlayPrefix(updates, n);
    PlayOk(updates[..n]);
    OwnMapIsDelivered(Play(updates[..n]).owner, Play(updates[..n]).blocks, Play(updates).blocks);
  }

  lemma OwnMapIsDelivered(owner: Owner, made: seq<Block>, blocks: seq<Block>)
    requires BlocksOk(owner, made) && made <= blocks
    requires IsPartition(blocks) && (|blocks| > 1 ==> blocks[0].changes.Keys != {})
    ensures Replicates(owner.mine, blocks)
  {
    var n := |made|;
    assert blocks == made + blocks[n..];
    ReplayPrefix(made, blocks[n..], n);
    PrefixIsDelivered(blocks, n);
    assert IsDelivery(InOrder(n), blocks);
  }

  lemma PrefixIsDelivered(blocks: seq<Block>, n: nat)
    requires IsPartition(blocks) && n <= |blocks| && (|blocks| > 1 ==> blocks[0].changes.Keys != {})
    ensures DeliverAll(blocks, InOrder(n)) == Done(Chrono(Replay(blocks, n), TimeAt(blocks, n), map[]))
  {
    var order := InOrder(n);
    Convergence(blocks, order);
    forall i: nat
      ensures i in Elements(order) <==> i < n
    {
      if i < n {
        assert order[i] == i;
      }
    }
    FrontOfPrefix(Elements(order), 0, n, |blocks|);
    NoneWaitsBeyond(DeliverAll(blocks, order).state.future, blocks, Elements(order), n);
  }

  lemma {:induction false} FrontOfPrefix(delivered: set<nat>, p: nat, n: nat, m: nat)
    requires p <= n <= m && forall i: nat :: i in delivered <==> i < n
    ensures Front(delivered, p, m) == n
    decreases n - p
  {
    if p < n {
      FrontOfPrefix(delivered, p + 1, n, m);
    }
  }

  lemma NoneWaitsBeyond(future: map<int, Block>, blocks: seq<Block>, delivered: set<nat>, p: nat)
    requires InRange(delivered, |blocks|) && IsWaiting(future, blocks, delivered, p)
    requires forall i | i in delivered :: i < p
    ensures future == map[]
  {
    if future.Keys != {} {
      var s := SomeElement(future.Keys);
      assert false;
    }
  }

  /** Whatever was received, a replica is a delivery of the owner's blocks; it never dies. */
  lemma ReplicaReplicates(updates: seq<Update>, received: seq<nat>)
    requires Play(updates).Alive? && forall k | 0 <= k < |received| :: received[k] < |updates|
    ensures |Play(updates).messages| == |updates| && ReceiveAll(Play(updates).messages, received).Done?
    ensures Replicates(ReceiveAll(Play(updates).messages, received).state, Play(updates).blocks)
  {
    PlayOk(updates);
    var h := Play(updates);
    ReceiveIsDeliver(h.blocks, h.messages, received);
    Convergence(h.blocks, Flatten(received));
    assert InRange(Elements(Flatten(received)), |h.blocks|);
    assert IsDelivery(Flatten(received), h.blocks);
  }

  /**
   Where a peer stands: which player it is, how many of its own updates it has made, which messages of
   each player it received, in order and with repetition, and whom it sees as shut down.
   */
  datatype Seat = Seat(me: string, made: nat, received: map<string, seq<nat>>, down: set<string>)

  /** The updates of the whole game, player by player; none is fatal to the player that makes it. */
  ghost predicate PlayersSurvive(updates: map<string, seq<Update>>) {
    forall p | p in updates :: Play(updates[p]).Alive?
  }

  ghost predicate SeatOk(seat: Seat, updates: map<string, seq<Update>>) {
    && seat.me in updates && seat.made <= |updates[seat.me]| && seat.received.Keys == updates.Keys
    && forall p, k | p in updates && 0 <= k < |seat.received[p]| :: seat.received[p][k] < |updates[p]|
  }

  /** The blocks all the updates turn into. */
  ghost function GameOf(updates: map<string, seq<Update>>): map<string, seq<Block>>
    requires PlayersSurvive(updates)
  {
    map p | p in updates :: Play(updates[p]).blocks
  }

  /** The map of one player on one peer: its own after its updates, or what the messages left. */
  ghost function MapOf(seat: Seat, updates: map<string, seq<Update>>, p: string): (c: Chrono)
    requires PlayersSurvive(updates) && SeatOk(seat, updates) && p in updates
    ensures Replicates(c, Play(updates[p]).blocks)
  {
    if p == seat.me then
      OwnerReplicates(updates[p], seat.made);
      Play(updates[p][..seat.made]).owner.mine
    else
      ReplicaReplicates(updates[p], seat.received[p]);
      ReceiveAll(Play(updates[p]).messages, seat.received[p]).state
  }

  /** The peer in a seat. It is in the game by the contract of its maps. */
  ghost function PeerOf(seat: Seat, updates: map<string, seq<Update>>): (peer: Peer)
    requires PlayersSurvive(updates) && SeatOk(seat, updates)
    ensures InGame(peer, GameOf(updates))
  {
    Peer(map p | p in updates :: MapOf(seat, updates, p), seat.down)
  }

  /** What a player's full updates say about a key: the last update in force that has it. */
  ghost function Typed(updates: seq<Update>, t: int, key: string): Option<string> {
    PlainGet(FullBlocks(updates), |updates|, t, key)
  }

  /**
   From the updates that were made, through deltas, windows and whatever messages arrived, to the
   answer: a ready peer reads what each living player last typed.
   */
  lemma ReadsWhatWasTyped(seat: Seat, updates: map<string, seq<Update>>, t: int, p: string, key: string)
    requires PlayersSurvive(updates) && SeatOk(seat, updates) && 0 <= t && Ready(PeerOf(seat, updates), t)
    ensures InputOf(AllInputValues(PeerOf(seat, updates), t), p, key) ==
      if p in updates && p !in seat.down then Typed(updates[p], t, key) else None
  {
    InputIsPlayed(PeerOf(seat, updates), GameOf(updates), t, p, key);
    if p in updates {
      DeltasKeepMeaning(updates[p], t, key);
    }
  }

  /** No player down on one of the two seats only has typed anything in force at the time. */
  ghost predicate LossesAreSilent(a: Seat, b: Seat, updates: map<string, seq<Update>>, t: int) {
    forall p, key | p in updates && (p in a.down) != (p in b.down) :: Typed(updates[p], t, key) == None
  }

  lemma PlayedIsTyped(updates: map<string, seq<Update>>, t: int)
    requires PlayersSurvive(updates)
    ensures forall p, key | p in updates :: Played(GameOf(updates), p, t, key) == Typed(updates[p], t, key)
  {
    forall p, key | p in updates
      ensures Played(GameOf(updates), p, t, key) == Typed(updates[p], t, key)
    {
      DeltasKeepMeaning(updates[p], t, key);
    }
  }

  lemma SeenFromSeats(p: Peer, q: Peer, a: Seat, b: Seat, updates: map<string, seq<Update>>)
    requires p.players.Keys == updates.Keys == q.players.Keys && p.down == a.down && q.down == b.down
    ensures forall i | i in updates :: SeenByOne(p, q, i) <==> (i in a.down) != (i in b.down)
  {
  }

  lemma SameSilence(p: Peer, q: Peer, game: map<string, seq<Block>>, a: Seat, b: Seat,
                    updates: map<string, seq<Update>>, t: int)
    requires game.Keys == updates.Keys
    requires forall i, key | i in updates :: Played(game, i, t, key) == Typed(updates[i], t, key)
    requires forall i | i in updates :: SeenByOne(p, q, i) <==> (i in a.down) != (i in b.down)
    ensures NothingSeenByOne(p, q, game, t) <==> LossesAreSilent(a, b, updates, t)
  {
  }

  /** Any two peers of a game, whatever each received, read the same inputs exactly if losses are silent. */
  lemma PeersReadAlike(a: Seat, b: Seat, updates: map<string, seq<Update>>, t: int)
    requires PlayersSurvive(updates) && SeatOk(a, updates) && SeatOk(b, updates) && 0 <= t
    requires Ready(PeerOf(a, updates), t) && Ready(PeerOf(b, updates), t)
    ensures AllInputValues(PeerOf(a, updates), t) == AllInputValues(PeerOf(b, updates), t) <==>
      LossesAreSilent(a, b, updates, t)
  {
    PlayedIsTyped(updates, t);
    SeenFromSeats(PeerOf(a, updates), PeerOf(b, updates), a, b, updates);
    AlikeIfSilent(PeerOf(a, updates), PeerOf(b, updates), GameOf(updates), a, b, updates, t);
  }

  lemma AlikeIfSilent(p: Peer, q: Peer, game: map<string, seq<Block>>, a: Seat, b: Seat,
                      updates: map<string, seq<Update>>, t: int)
    requires InGame(p, game) && InGame(q, game) && 0 <= t && Ready(p, t) && Ready(q, t) && game.Keys == updates.Keys
    requires forall i, key | i in updates :: Played(game, i, t, key) == Typed(updates[i], t, key)
    requires forall i | i in updates :: SeenByOne(p, q, i) <==> (i in a.down) != (i in b.down)
    ensures AllInputValues(p, t) == AllInputValues(q, t) <==> LossesAreSilent(a, b, updates, t)
  {
    InputsAgreeExactly(p, q, game, t);
    SameSilence(p, q, game, a, b, updates, t);
  }

  ghost function ValueAt(state: map<string, string>, key: string): Option<string> {
    if key in state then Some(state[key]) else None
  }

  /** What the first of the available players to have typed a key, in order, typed last. */
  ghost function FirstTyped(available: set<string>, updates: map<string, seq<Update>>, order: seq<string>, t: int,
                            key: string)
    : (value: Option<string>)
    requires forall p | p in order :: p in updates
    ensures value.None? <==> forall p | p in order && p in available :: Typed(updates[p], t, key) == None
    decreases |order|
  {
    if order == [] then None
    else if order[0] in available && Typed(updates[order[0]], t, key).Some? then Typed(updates[order[0]], t, key)
    else FirstTyped(available, updates, order[1..], t, key)
  }

  /** The first player to have typed the key, among these or among those, typed the same. */
  ghost predicate SameFirstTyped(a: set<string>, b: set<string>, updates: map<string, seq<Update>>, order: seq<string>,
                                 t: int, key: string)
    requires forall p | p in order :: p in updates
  {
    FirstTyped(a, updates, order, t, key) == FirstTyped(b, updates, order, t, key)
  }

  lemma {:induction false} HolderTyped(available: set<string>, game: map<string, seq<Block>>,
                                      updates: map<string, seq<Update>>, order: seq<string>, t: int, key: string)
    requires forall p | p in order :: p in game && p in updates && Played(game, p, t, key) == Typed(updates[p], t, key)
    ensures var first := FirstHolder(available, game, order, t, key);
      FirstTyped(available, updates, order, t, key) == if first.None? then None else Played(game, first.value, t, key)
    decreases |order|
  {
    if order != [] {
      assert order[0] in order;
      HolderTyped(available, game, updates, order[1..], t, key);
    }
  }

  /**
   A full state has for each key what the first available player that typed it typed, and no key that
   none of them typed.
   */
  lemma FullStateIsTyped(seat: Seat, updates: map<string, seq<Update>>, order: seq<string>, t: int, key: string)
    requires PlayersSurvive(updates) && SeatOk(seat, updates) && 0 <= t && forall p | p in order :: p in updates
    ensures ValueAt(FullState(PeerOf(seat, updates), order, t), key) ==
      FirstTyped(Available(PeerOf(seat, updates), t), updates, order, t, key)
  {
    var peer, game := PeerOf(seat, updates), GameOf(updates);
    FullStateValue(peer, game, order, t, key);
    PlayedIsTyped(updates, t);
    HolderTyped(Available(peer, t), game, updates, order, t, key);
  }

  /** Whoever is available to one of the two seats only has typed nothing in force at the time. */
  ghost predicate GapsAreSilent(a: set<string>, b: set<string>, updates: map<string, seq<Update>>, order: seq<string>,
                                t: int)
    requires forall p | p in order :: p in updates
  {
    forall p, key | p in order && (p in a) != (p in b) :: Typed(updates[p], t, key) == None
  }

  /** No two players typed the same key. */
  ghost predicate TypedApart(updates: map<string, seq<Update>>, order: seq<string>, t: int)
    requires forall p | p in order :: p in updates
  {
    forall p, q, key | p in order && q in order && p != q ::
      Typed(updates[p], t, key) == None || Typed(updates[q], t, key) == None
  }

  lemma TypedMeansHas(a: Peer, b: Peer, game: map<string, seq<Block>>, updates: map<string, seq<Update>>,
                      order: seq<string>, t: int)
    requires forall p | p in order :: p in game && p in updates
    requires forall p, key | p in updates && p in game :: Played(game, p, t, key) == Typed(updates[p], t, key)
    ensures KeysApart(game, order, t) <==> TypedApart(updates, order, t)
    ensures NobodyMissed(a, b, game, order, t) <==>
      GapsAreSilent(Available(a, t), Available(b, t), updates, order, t)
  {
    assert forall p, key | p in order :: Has(game, p, t, key) <==> Typed(updates[p], t, key) != None;
  }

  /**
   Any two peers of a game, whatever each received, build the same full state exactly if for every key the
   first available player that typed it typed the same; and where players type keys of their own, exactly
   if whoever is available to one of them only has typed nothing in force.
   */
  lemma PeersBuildAlike(a: Seat, b: Seat, updates: map<string, seq<Update>>, order: seq<string>, t: int)
    requires PlayersSurvive(updates) && SeatOk(a, updates) && SeatOk(b, updates) && 0 <= t
    requires forall p | p in order :: p in updates
    ensures var p, q := PeerOf(a, updates), PeerOf(b, updates);
      && (FullState(p, order, t) == FullState(q, order, t) <==>
          forall key :: SameFirstTyped(Available(p, t), Available(q, t), updates, order, t, key))
      && (TypedApart(updates, order, t) ==>
          (FullState(p, order, t) == FullState(q, order, t) <==>
           GapsAreSilent(Available(p, t), Available(q, t), updates, order, t)))
  {
    SeatBuildsTyped(a, updates, order, t);
    SeatBuildsTyped(b, updates, order, t);
    BuildAlikeByKey(PeerOf(a, updates), PeerOf(b, updates), updates, order, t);
    BuildAlikeApart(PeerOf(a, updates), PeerOf(b, updates), updates, order, t);
  }

  /** The full state of a peer is, for every key, what its available players typed. */
  ghost predicate BuildsTyped(p: Peer, updates: map<string, seq<Update>>, order: seq<string>, t: int)
    requires (forall i | i in order :: i in updates) && forall i | i in order :: i in p.players
  {
    forall key :: ValueAt(FullState(p, order, t), key) == FirstTyped(Available(p, t), updates, order, t, key)
  }

  lemma SeatBuildsTyped(seat: Seat, updates: map<string, seq<Update>>, order: seq<string>, t: int)
    requires PlayersSurvive(updates) && SeatOk(seat, updates) && 0 <= t && forall p | p in order :: p in updates
    ensures BuildsTyped(PeerOf(seat, updates), updates, order, t)
  {
    forall key
      ensures ValueAt(FullState(PeerOf(seat, updates), order, t), key) ==
        FirstTyped(Available(PeerOf(seat, updates), t), updates, order, t, key)
    {
      FullStateIsTyped(seat, updates, order, t, key);
    }
  }

  lemma BuildAlikeByKey(p: Peer, q: Peer, updates: map<string, seq<Update>>, order: seq<string>, t: int)
    requires forall i | i in order :: i in updates && i in p.players && i in q.players
    requires BuildsTyped(p, updates, order, t) && BuildsTyped(q, updates, order, t)
    ensures FullState(p, order, t) == FullState(q, order, t) <==>
      forall key :: SameFirstTyped(Available(p, t), Available(q, t), updates, order, t, key)
  {
    var x, y := FullState(p, order, t), FullState(q, order, t);
    forall key
      ensures SameFirstTyped(Available(p, t), Available(q, t), updates, order, t, key) <==> SameAt(x, y, key)
    {
      assert ValueAt(x, key) == FirstTyped(Available(p, t), updates, order, t, key);
      assert ValueAt(y, key) == FirstTyped(Available(q, t), updates, order, t, key);
    }
    SameEverywhere(x, y);
  }

  lemma BuildAlikeApart(p: Peer, q: Peer, updates: map<string, seq<Update>>, order: seq<string>, t: int)
    requires PlayersSurvive(updates) && InGame(p, GameOf(updates)) && InGame(q, GameOf(updates)) && 0 <= t
    requires forall i | i in order :: i in updates
    ensures TypedApart(updates, order, t) ==>
      (FullState(p, order, t) == FullState(q, order, t) <==>
       GapsAreSilent(Available(p, t), Available(q, t), updates, order, t))
  {
    PlayedIsTyped(updates, t);
    TypedMeansHas(p, q, GameOf(updates), updates, order, t);
    FullStatesNeedEveryHolder(p, q, GameOf(updates), order, t);
  }
}
