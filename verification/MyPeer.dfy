/** `MyPeer`: the methods that write and read player inputs, over one `ChronoMap` object a player. */
module MyPeers {
  import opened Options
  import opened ChronoState
  import opened PeerState
  import opened Lockstep
  import opened ChronoMaps

  // ------------------------------------------------------------- player ids in map order

  /** The order of strings in an ordered map. */
  predicate Precedes(a: string, b: string) {
    b != "" && (a == "" || a[0] < b[0] || (a[0] == b[0] && Precedes(a[1..], b[1..])))
  }

  lemma {:induction false} PrecedesIsTotal(a: string, b: string)
    ensures a == b || Precedes(a, b) || Precedes(b, a)
  {
    if a != "" && b != "" && a[0] == b[0] {
      PrecedesIsTotal(a[1..], b[1..]);
      assert a == [a[0]] + a[1..] && b == [b[0]] + b[1..];
    }
  }

  lemma {:induction false} PrecedesIsTransitive(a: string, b: string, c: string)
    requires Precedes(a, b) && Precedes(b, c)
    ensures Precedes(a, c)
  {
    if a != "" && a[0] == b[0] && b[0] == c[0] {
      PrecedesIsTransitive(a[1..], b[1..], c[1..]);
    }
  }

  lemma {:induction false} PrecedesIsStrict(a: string, b: string)
    requires Precedes(a, b)
    ensures !Precedes(b, a) && a != b
  {
    if a != "" && a[0] == b[0] {
      PrecedesIsStrict(a[1..], b[1..]);
    }
  }

  /** Up to `k` the two agree, and there the first one ends or has the smaller character. */
  ghost predicate DiffersAt(a: string, b: string, k: nat) {
    k <= |a| && k < |b| && a[..k] == b[..k] && (k == |a| || a[k] < b[k])
  }

  /** Smaller at the first difference: the lexicographic order of std::string. */
  ghost predicate Smaller(a: string, b: string) {
    exists k :: DiffersAt(a, b, k)
  }

  lemma DiffersFurther(a: string, b: string, k: nat)
    requires a != "" && b != "" && a[0] == b[0]
    ensures DiffersAt(a, b, k + 1) <==> DiffersAt(a[1..], b[1..], k)
  {
    if k < |a| && k < |b| {
      assert a[..k + 1] == [a[0]] + a[1..][..k] && b[..k + 1] == [b[0]] + b[1..][..k];
      assert a[..k + 1][1..] == a[1..][..k] && b[..k + 1][1..] == b[1..][..k];
    }
  }

  lemma SameStart(a: string, b: string, k: nat)
    requires DiffersAt(a, b, k) && k > 0
    ensures a != "" && b != "" && a[0] == b[0]
  {
    assert a[..k][0] == a[0] && b[..k][0] == b[0];
  }

  /** The order decides by the first difference. */
  lemma {:induction false} PrecedesIsSmaller(a: string, b: string)
    ensures Precedes(a, b) <==> Smaller(a, b)
  {
    if b == "" || a == "" || a[0] != b[0] {
      assert DiffersAt(a, b, 0) <==> Precedes(a, b);
      if k: nat :| DiffersAt(a, b, k) && k > 0 {
        SameStart(a, b, k);
      }
    } else {
      PrecedesIsSmaller(a[1..], b[1..]);
      if k: nat :| DiffersAt(a, b, k) {
        if k > 0 {
          DiffersFurther(a, b, k - 1);
        }
      }
      if k: nat :| DiffersAt(a[1..], b[1..], k) {
        DiffersFurther(a, b, k);
      }
    }
  }

  ghost predicate InMapOrder(order: seq<string>) {
    forall i, j | 0 <= i < j < |order| :: Precedes(order[i], order[j])
  }

  lemma HasElement(a: seq<string>)
    requires a != []
    ensures exists p :: p in a
  {
    assert a[0] in a;
  }

  /** A set of ids has one iteration order, so peers with the same players agree on it. */
  lemma {:induction false} MapOrderIsUnique(a: seq<string>, b: seq<string>)
    requires InMapOrder(a) && InMapOrder(b) && forall p :: p in a <==> p in b
    ensures a == b
  {
    if a == [] {
      if b != [] {
        HasElement(b);
        assert false;
      }
    } else {
      assert a[0] in b && b[0] in b;
      SameFirst(a, b);
      TailElements(a);
      TailElements(b);
      MapOrderIsUnique(a[1..], b[1..]);
      assert a == [a[0]] + a[1..] && b == [b[0]] + b[1..];
    }
  }

  lemma SameFirst(a: seq<string>, b: seq<string>)
    requires InMapOrder(a) && InMapOrder(b) && a != [] && b != []
    requires a[0] in b && b[0] in a
    ensures a[0] == b[0]
  {
    if a[0] != b[0] {
      var i :| 0 <= i < |b| && b[i] == a[0];
      var j :| 0 <= j < |a| && a[j] == b[0];
      PrecedesIsStrict(a[0], b[0]);
    }
  }

  lemma TailElements(a: seq<string>)
    requires InMapOrder(a) && a != []
    ensures forall p :: p in a[1..] <==> p in a && p != a[0]
  {
    forall k | 0 < k < |a|
      ensures a[k] != a[0]
    {
      PrecedesIsStrict(a[0], a[k]);
    }
  }

  /** The ids of a map in iteration order, each once. */
  ghost predicate Lists(order: seq<string>, ids: set<string>) {
    InMapOrder(order) && forall p :: p in order <==> p in ids
  }

  /** Goes through the ids of a map in iteration order. */
  method IdsInOrder(ids: set<string>) returns (order: seq<string>)
    ensures Lists(order, ids)
  {
    order := [];
    var left := ids;
    while left != {}
      invariant left <= ids && InMapOrder(order)
      invariant forall p :: p in ids <==> p in left || p in order
      invariant forall p, q | p in order && q in left :: Precedes(p, q)
      decreases left
    {
      var first := FirstId(left);
      left := left - {first};
      order := order + [first];
    }
  }

  method FirstId(ids: set<string>) returns (first: string)
    requires ids != {}
    ensures first in ids && forall p | p in ids :: p == first || Precedes(first, p)
  {
    first :| first in ids;
    var left := ids;
    while left != {}
      invariant left <= ids && first in ids
      invariant forall p | p in ids :: p in left || p == first || Precedes(first, p)
      decreases left
    {
      var it :| it in left;
      left := left - {it};
      PrecedesIsTotal(it, first);
      if Precedes(it, first) {
        forall p | p in ids && Precedes(first, p)
          ensures Precedes(it, p)
        {
          PrecedesIsTransitive(it, first, p);
        }
        first := it;
      }
    }
  }

  ghost predicate OrdersAll(order: seq<string>, game: map<string, seq<ChronoState.Block>>) {
    Lists(order, game.Keys)
  }

  /**
   Two peers of a game, each going through its own map of players, build the same full state exactly if
   for every key the first player available to each that has it gives the same value. Where players keep
   to keys of their own, that is: no player available to one peer only has a key. It holds in
   particular if both are ready and agree on whether the data of each player that is down suffices.
   */
  lemma PeersBuildTheSameState(a: Peer, b: Peer, game: map<string, seq<ChronoState.Block>>,
                               orderA: seq<string>, orderB: seq<string>, t: int)
    requires InGame(a, game) && InGame(b, game) && 0 <= t && OrdersAll(orderA, game) && OrdersAll(orderB, game)
    ensures FullState(a, orderA, t) == FullState(b, orderB, t) <==>
      forall key :: SameFirstValue(a, b, game, orderA, t, key)
    ensures KeysApart(game, orderA, t) ==>
      (FullState(a, orderA, t) == FullState(b, orderB, t) <==> NobodyMissed(a, b, game, orderA, t))
    ensures Ready(a, t) && Ready(b, t) && AgreeOnDown(a, b, t) ==> FullState(a, orderA, t) == FullState(b, orderB, t)
  {
    MapOrderIsUnique(orderA, orderB);
    FullStatesAgreeExactly(a, b, game, orderA, t);
    FullStatesNeedEveryHolder(a, b, game, orderA, t);
    if Ready(a, t) && Ready(b, t) && AgreeOnDown(a, b, t) {
      LockstepFullState(a, b, game, orderA, t);
    }
  }

  // ----------------------------------------------------------------------------- the class

  class MyPeer {
    const userId: string
    var peerData: map<string, ChronoMap>
    var lastSendBuffer: seq<Block>
    var broadcasts: seq<Message>

    /** Each player has a map object of its own. */
    ghost predicate Valid()
      reads this, peerData.Values
    {
      && userId in peerData && |lastSendBuffer| <= WINDOW
      && (forall p, q | p in peerData && q in peerData && p != q :: peerData[p] != peerData[q])
      && (forall p | p in peerData :: peerData[p].Valid())
    }

    ghost function Players(): (players: map<string, Chrono>)
      reads this, peerData.Values
      ensures players.Keys == peerData.Keys
    {
      map p | p in peerData :: peerData[p].State()
    }

    ghost function View(down: set<string>): Peer
      reads this, peerData.Values
    {
      Peer(Players(), down)
    }

    ghost function Mine(): Owner
      requires userId in peerData
      reads this, peerData.Values
    {
      Owner(peerData[userId].State(), lastSendBuffer)
    }

    /** updateState: record the changes and broadcast the window. */
    method UpdateState(timestamp: int, data: Changes) returns (fatal: bool)
      requires Valid()
      modifies this`lastSendBuffer, this`broadcasts, peerData[userId]
      ensures fatal <==> PeerState.UpdateState(old(Mine()), Update(timestamp, data)).Died?
      ensures !fatal ==>
        var sending := PeerState.UpdateState(old(Mine()), Update(timestamp, data));
        Valid() && Mine() == sending.owner && broadcasts == old(broadcasts) + [sending.message]
    {
      var mine := peerData[userId];
      var lastExpirationTime := mine.expirationTime;
      var changedData := mine.GetChanges(data);
      fatal := mine.Put(lastExpirationTime, timestamp, changedData);
      if !fatal {
        var b := Block(lastExpirationTime, timestamp, changedData);
        lastSendBuffer := Push(lastSendBuffer, b);
        var message := WindowMessage(lastSendBuffer);
        broadcasts := broadcasts + [message];
      }
    }

    /** The receive loop of update for one request of a player. */
    method ReceiveInputs(peerKey: string, message: Message) returns (fatal: bool)
      requires Valid() && peerKey in peerData && |message| == WINDOW
      modifies peerData[peerKey]
      ensures fatal <==> PutAll(old(peerData[peerKey].State()), message).Fatal?
      ensures !fatal ==>
        Valid() && PutAll(old(peerData[peerKey].State()), message) == Outcome.Done(peerData[peerKey].State())
    {
      var input := peerData[peerKey];
      ghost var start := input.State();
      fatal := false;
      var a := 0;
      while a < WINDOW && !fatal
        invariant 0 <= a <= WINDOW
        invariant !fatal ==> input.Valid() && PutAll(start, message[..a]) == Outcome.Done(input.State())
        invariant fatal ==> PutAll(start, message).Fatal?
        decreases WINDOW - a, !fatal
      {
        assert message[..a + 1][..a] == message[..a];
        fatal := input.Put(message[a].start, message[a].end, message[a].changes);
        if fatal {
          FatalStays(start, message, a + 1);
        }
        a := a + 1;
      }
      assert message[..WINDOW] == message;
    }

    /** The pair inserted for one player's keys into the nested result. */
    method AddInputs(values: map<string, map<string, string>>, player: string, inputs: map<string, string>)
      returns (r: map<string, map<string, string>>)
      ensures r == WithPlayer(values, player, inputs)
    {
      r := values;
      var left := inputs.Keys;
      WithNothing(values, player);
      assert inputs - left == map[];
      while left != {}
        invariant left <= inputs.Keys && r == WithPlayer(values, player, inputs - left)
        decreases left
      {
        var key :| key in left;
        WithOneMore(values, player, inputs, left, key);
        r := r[key := (if key in r then r[key] else map[])[player := inputs[key]]];
        left := left - {key};
      }
      assert inputs - {} == inputs;
    }

    /** getAllInputValues; `down` is what isPeerShutDown says. */
    method GetAllInputValues(timestamp: int, down: set<string>) returns (values: map<string, map<string, string>>)
      requires Valid() && timestamp >= 0 && Ready(View(down), timestamp)
      ensures values == AllInputValues(View(down), timestamp)
    {
      ghost var players := Players();
      values := CollectInputs(timestamp, down, players);
      assert View(down) == Peer(players, down);
    }

    method CollectInputs(timestamp: int, down: set<string>, ghost players: map<string, Chrono>)
      returns (values: map<string, map<string, string>>)
      requires Valid() && timestamp >= 0 && players == Players()
      ensures values == AllInputValues(Peer(players, down), timestamp)
    {
      var order := IdsInOrder(peerData.Keys);
      values := AllPlayers(order, timestamp, down, players);
      EverybodyCounted(players, down, order, timestamp);
    }

    /** The loop over the players. */
    method AllPlayers(order: seq<string>, timestamp: int, down: set<string>, ghost players: map<string, Chrono>)
      returns (values: map<string, map<string, string>>)
      requires Valid() && timestamp >= 0 && players == Players() && Lists(order, players.Keys)
      ensures values == ValuesSoFar(players, down, order, |order|, timestamp)
    {
      values := map[];
      NobodyLiving(players, down, order, timestamp);
      for k := 0 to |order|
        invariant values == ValuesSoFar(players, down, order, k, timestamp)
      {
        assert order[k] in order;
        OneMorePlayer(players, down, order, k, timestamp);
        values := AddPlayer(values, order[k], timestamp, down, players);
      }
    }

    /** One turn of the loop above. */
    method AddPlayer(values: map<string, map<string, string>>, player: string, timestamp: int, down: set<string>,
                     ghost players: map<string, Chrono>)
      returns (r: map<string, map<string, string>>)
      requires Valid() && timestamp >= 0 && players == Players() && player in players
      ensures r == if player in down then values else WithPlayer(values, player, GetAll(players[player], timestamp))
    {
      r := values;
      if player !in down {
        var inputs := PlayerInputs(player, timestamp);
        r := AddInputs(values, player, inputs);
      }
    }

    method PlayerInputs(player: string, timestamp: int) returns (inputs: map<string, string>)
      requires Valid() && timestamp >= 0 && player in peerData
      ensures inputs == GetAll(Players()[player], timestamp)
    {
      inputs := peerData[player].GetAll(timestamp);
    }

    /** getFullState: players in map order, the first to have a key wins. */
    method GetFullState(timestamp: int, down: set<string>)
      returns (state: map<string, string>, ghost order: seq<string>)
      requires Valid() && timestamp >= 0 && Ready(View(down), timestamp)
      ensures InMapOrder(order) && (forall p :: p in order <==> p in peerData)
      ensures state == FullState(View(down), order, timestamp)
      ensures forall key :: key in state <==> exists p :: Offers(View(down), p, timestamp, key)
      ensures forall key | key in state :: exists p ::
        IsLeastOffer(View(down), p, timestamp, key) && state[key] == GetAll(Players()[p], timestamp)[key]
    {
      state := map[];
      var ids := IdsInOrder(peerData.Keys);
      ghost var peer := View(down);
      for k := 0 to |ids|
        invariant forall p | p in ids[..k] :: p in peer.players
        invariant state == FullState(peer, ids[..k], timestamp)
      {
        FullStateStep(peer, ids, k, timestamp);
        if timestamp < peerData[ids[k]].expirationTime {
          var peerState := PlayerInputs(ids[k], timestamp);
          state := peerState + state;
        }
      }
      assert ids[..|ids|] == ids;
      order := ids;
      LeastOffersWin(peer, order, timestamp);
    }
  }

  /** The player's data reaches the time and has the key. */
  ghost predicate Offers(peer: Peer, p: string, t: int, key: string) {
    p in peer.players && t < peer.players[p].expiration && key in GetAll(peer.players[p], t)
  }

  /** No other player that has the key is smaller. */
  ghost predicate IsLeastOffer(peer: Peer, p: string, t: int, key: string) {
    Offers(peer, p, t, key) && forall q | Offers(peer, q, t, key) && q != p :: Smaller(p, q)
  }

  /** The last player in order gives a key only if no other does. */
  lemma LastOffer(peer: Peer, order: seq<string>, t: int, key: string)
    requires order != [] && forall p | p in order :: p in peer.players
    ensures var n := |order| - 1;
      var all, before := FullState(peer, order, t), FullState(peer, order[..n], t);
      && (key in all <==> key in before || Offers(peer, order[n], t, key))
      && (key in before ==> all[key] == before[key])
      && (key in all && key !in before ==> all[key] == GetAll(peer.players[order[n]], t)[key])
  {
  }

  /** The first player in order that has the key. */
  ghost predicate IsFirstOffer(peer: Peer, order: seq<string>, t: int, key: string, i: nat)
    requires forall p | p in order :: p in peer.players
  {
    && (key in FullState(peer, order, t) <==> i < |order|)
    && (forall j | 0 <= j < i && j < |order| :: !Offers(peer, order[j], t, key))
    && (i < |order| ==>
          && Offers(peer, order[i], t, key)
          && FullState(peer, order, t)[key] == GetAll(peer.players[order[i]], t)[key])
  }

  lemma {:induction false} FirstOffer(peer: Peer, order: seq<string>, t: int, key: string) returns (i: nat)
    requires forall p | p in order :: p in peer.players
    ensures IsFirstOffer(peer, order, t, key, i)
    decreases |order|
  {
    i := 0;
    if order != [] {
      var n := |order| - 1;
      i := FirstOffer(peer, order[..n], t, key);
      i := OneOfferMore(peer, order, t, key, i);
    }
  }

  lemma OneOfferMore(peer: Peer, order: seq<string>, t: int, key: string, first: nat) returns (i: nat)
    requires order != [] && forall p | p in order :: p in peer.players
    requires IsFirstOffer(peer, order[..|order| - 1], t, key, first)
    ensures IsFirstOffer(peer, order, t, key, i)
  {
    var n := |order| - 1;
    LastOffer(peer, order, t, key);
    assert forall j | 0 <= j < n :: order[..n][j] == order[j];
    i := if first < n then first else if Offers(peer, order[n], t, key) then n else n + 1;
  }

  lemma FirstIsLeast(peer: Peer, order: seq<string>, t: int, key: string, i: nat)
    requires Lists(order, peer.players.Keys) && i < |order| && IsFirstOffer(peer, order, t, key, i)
    ensures IsLeastOffer(peer, order[i], t, key)
  {
    forall q | Offers(peer, q, t, key) && q != order[i]
      ensures Smaller(order[i], q)
    {
      assert q in order;
      var j :| 0 <= j < |order| && order[j] == q;
      PrecedesIsSmaller(order[i], q);
    }
  }

  /** Whoever comes first among the players that have a key, by the first difference of their ids, gives its value. */
  lemma LeastOfferWins(peer: Peer, order: seq<string>, t: int, key: string)
    requires Lists(order, peer.players.Keys)
    ensures key in FullState(peer, order, t) <==> exists p :: Offers(peer, p, t, key)
    ensures key in FullState(peer, order, t) ==> exists p ::
      IsLeastOffer(peer, p, t, key) && FullState(peer, order, t)[key] == GetAll(peer.players[p], t)[key]
  {
    var i := FirstOffer(peer, order, t, key);
    if p :| Offers(peer, p, t, key) {
      assert p in order;
    }
    if i < |order| {
      FirstIsLeast(peer, order, t, key, i);
    }
  }

  lemma LeastOffersWin(peer: Peer, order: seq<string>, t: int)
    requires Lists(order, peer.players.Keys)
    ensures forall key :: key in FullState(peer, order, t) <==> exists p :: Offers(peer, p, t, key)
    ensures forall key | key in FullState(peer, order, t) :: exists p ::
      IsLeastOffer(peer, p, t, key) && FullState(peer, order, t)[key] == GetAll(peer.players[p], t)[key]
  {
    forall key
      ensures key in FullState(peer, order, t) <==> exists p :: Offers(peer, p, t, key)
      ensures key in FullState(peer, order, t) ==> exists p ::
        IsLeastOffer(peer, p, t, key) && FullState(peer, order, t)[key] == GetAll(peer.players[p], t)[key]
    {
      LeastOfferWins(peer, order, t, key);
    }
  }

  lemma FullStateStep(peer: Peer, ids: seq<string>, k: nat, t: int)
    requires k < |ids| && forall p | p in ids :: p in peer.players
    ensures forall p | p in ids[..k + 1] :: p in peer.players
    ensures var before := FullState(peer, ids[..k], t);
      FullState(peer, ids[..k + 1], t) ==
        if t < peer.players[ids[k]].expiration then GetAll(peer.players[ids[k]], t) + before else before
  {
    assert ids[..k + 1][..k] == ids[..k];
  }

  /** push_back, then pop_front while the window is exceeded. */
  method Push(buffer: seq<Block>, b: Block) returns (r: seq<Block>)
    requires |buffer| <= WINDOW
    ensures r == Slide(buffer, b)
  {
    r := buffer + [b];
    while |r| > WINDOW
      invariant 0 < |r| && (|r| > WINDOW ==> r == buffer + [b]) && (|r| <= WINDOW ==> r == Slide(buffer, b))
    {
      r := r[1..];
    }
  }

  /** The blocks of the buffer, then its last block until the window is full. */
  method WindowMessage(buffer: seq<Block>) returns (message: Message)
    requires 0 < |buffer| <= WINDOW
    ensures message == Pad(buffer)
  {
    message := [];
    for k := 0 to |buffer|
      invariant message == buffer[..k]
    {
      message := message + [buffer[k]];
    }
    assert buffer[..|buffer|] == buffer;
    var numMaps := |buffer|;
    while numMaps < WINDOW
      invariant |message| == numMaps <= WINDOW && message[numMaps - 1] == buffer[|buffer| - 1]
      invariant 0 < numMaps && Pad(message) == Pad(buffer)
    {
      message := message + [buffer[|buffer| - 1]];
      numMaps := numMaps + 1;
    }
  }

  /** Once fatal, the rest of the message cannot bring the process back. */
  lemma {:induction false} FatalStays(c: Chrono, message: Message, k: nat)
    requires k <= |message| && PutAll(c, message[..k]).Fatal?
    ensures PutAll(c, message).Fatal?
    decreases |message| - k
  {
    if k == |message| {
      assert message[..k] == message;
    } else {
      assert message[..k + 1][..k] == message[..k];
      FatalStays(c, message, k + 1);
    }
  }

  ghost function WithPlayer(values: map<string, map<string, string>>, player: string, inputs: map<string, string>)
    : map<string, map<string, string>>
  {
    map key | key in values.Keys + inputs.Keys :: WithValue(values, player, inputs, key)
  }

  ghost function WithValue(values: map<string, map<string, string>>, player: string, inputs: map<string, string>,
                           key: string)
    : map<string, string>
  {
    var present := if key in values then values[key] else map[];
    if key in inputs then present[player := inputs[key]] else present
  }

  lemma WithNothing(values: map<string, map<string, string>>, player: string)
    ensures WithPlayer(values, player, map[]) == values
  {
  }

  lemma WithOneMore(values: map<string, map<string, string>>, player: string, inputs: map<string, string>,
                    left: set<string>, key: string)
    requires key in left && left <= inputs.Keys
    ensures var r := WithPlayer(values, player, inputs - left);
      WithPlayer(values, player, inputs - (left - {key})) ==
        r[key := (if key in r then r[key] else map[])[player := inputs[key]]]
  {
    var r, r' := WithPlayer(values, player, inputs - left), WithPlayer(values, player, inputs - (left - {key}));
    assert r'.Keys == r.Keys + {key};
    forall other | other in r'
      ensures r'[other] == if other == key then (if key in r then r[key] else map[])[player := inputs[key]]
        else r[other]
    {
      assert other != key ==> (other in inputs - left <==> other in inputs - (left - {key}));
    }
  }

  /** The players from position `k` on. */
  ghost function Rest(order: seq<string>, k: nat): set<string>
    requires k <= |order|
  {
    set p | p in order[k..]
  }

  lemma RestStep(order: seq<string>, k: nat)
    requires InMapOrder(order) && k < |order|
    ensures Rest(order, k) == Rest(order, k + 1) + {order[k]} && order[k] !in Rest(order, k + 1)
  {
    assert order[k..] == [order[k]] + order[k + 1..];
    forall j | k < j < |order|
      ensures order[j] != order[k]
    {
      PrecedesIsStrict(order[k], order[j]);
    }
  }

  /** The values once the players before position `k` had their turn; the others count as down. */
  ghost function ValuesSoFar(players: map<string, Chrono>, down: set<string>, order: seq<string>, k: nat, t: int)
    : map<string, map<string, string>>
    requires k <= |order|
  {
    AllInputValues(Peer(players, down + Rest(order, k)), t)
  }

  lemma NobodyLiving(players: map<string, Chrono>, down: set<string>, order: seq<string>, t: int)
    requires Lists(order, players.Keys)
    ensures ValuesSoFar(players, down, order, 0, t) == map[]
  {
    assert Living(Peer(players, down + Rest(order, 0))) == {};
  }

  lemma EverybodyCounted(players: map<string, Chrono>, down: set<string>, order: seq<string>, t: int)
    ensures ValuesSoFar(players, down, order, |order|, t) == AllInputValues(Peer(players, down), t)
  {
    assert down + Rest(order, |order|) == down;
  }

  /** Each turn adds that player's values. */
  lemma OneMorePlayer(players: map<string, Chrono>, down: set<string>, order: seq<string>, k: nat, t: int)
    requires Lists(order, players.Keys) && k < |order|
    ensures order[k] in players
    ensures var before := ValuesSoFar(players, down, order, k, t);
      ValuesSoFar(players, down, order, k + 1, t) ==
        if order[k] in down then before else WithPlayer(before, order[k], GetAll(players[order[k]], t))
  {
    RestStep(order, k);
    var player := order[k];
    var peer, more := Peer(players, down + Rest(order, k)), Peer(players, down + Rest(order, k + 1));
    if player in down {
      assert peer == more;
    } else {
      assert Living(more) == Living(peer) + {player};
      AddLiving(peer, player, more, t);
    }
  }

  lemma AddLiving(peer: Peer, player: string, more: Peer, t: int)
    requires player in peer.players && more.players == peer.players
    requires Living(more) == Living(peer) + {player} && player !in Living(peer)
    ensures AllInputValues(more, t) == WithPlayer(AllInputValues(peer, t), player, GetAll(peer.players[player], t))
  {
    var inputs := GetAll(peer.players[player], t);
    AddLivingKeys(peer, player, more, t);
    forall key | key in InputKeys(more, t)
      ensures ValuesOf(more, t, key) ==
        WithValue(AllInputValues(peer, t), player, inputs, key)
    {
      AddLivingValues(peer, player, more, t, key);
    }
  }

  lemma AddLivingKeys(peer: Peer, player: string, more: Peer, t: int)
    requires player in peer.players && more.players == peer.players && Living(more) == Living(peer) + {player}
    ensures InputKeys(more, t) == InputKeys(peer, t) + GetAll(peer.players[player], t).Keys
  {
    forall key
      ensures key in InputKeys(more, t) <==> key in InputKeys(peer, t) || key in GetAll(peer.players[player], t).Keys
    {
      if key in InputKeys(peer, t) {
        var p :| p in Living(peer) && p in peer.players && key in GetAll(peer.players[p], t).Keys;
        assert p in Living(more);
      }
      if key in GetAll(peer.players[player], t).Keys {
        assert player in Living(more);
      }
    }
  }

  lemma AddLivingValues(peer: Peer, player: string, more: Peer, t: int, key: string)
    requires player in peer.players && more.players == peer.players
    requires Living(more) == Living(peer) + {player} && player !in Living(peer)
    ensures var inputs := GetAll(peer.players[player], t);
      ValuesOf(more, t, key) ==
        WithValue(AllInputValues(peer, t), player, inputs, key)
  {
    if key !in InputKeys(peer, t) {
      assert ValuesOf(peer, t, key) == map[];
    }
  }
}
