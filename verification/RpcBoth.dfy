/** Draining both directions at once: a node re-sends requests only when it has no reply left to re-send. */
module RpcBoth {
  // A beat is what one node's re-sending brings about when nothing is lost: its stored replies arrive and
  // are acknowledged, or, if it stores none, its outgoing requests arrive and are answered. It may take any
  // number of packets, and older copies of messages may arrive as well. In a cycle one node has its beat,
  // then the other.

  import opened RpcState
  import opened RpcLink
  import opened RpcDrain

  /** Two nodes: what the first asks the second, and what the second asks the first. */
  datatype Pair = Pair(there: Link, back: Link)

  ghost function Swap(p: Pair): Pair {
    Pair(p.back, p.there)
  }

  ghost predicate PairInv(p: Pair) {
    Inv(p.there) && Inv(p.back)
  }

  /** Deliveries and answers, or replies and acknowledgements. */
  datatype Beat = Beat(arrive: seq<Action>, respond: seq<Action>)

  ghost predicate IsRequestBeat(l: Link, b: Beat) {
    && Runs(l, b.arrive) && AllDeliveries(b.arrive) && l.client.outgoing.Keys <= Targets(b.arrive)
    && var l' := Execute(l, b.arrive);
    && Runs(l', b.respond) && AllAnswers(b.respond) && l'.server.incoming.Keys <= Targets(b.respond)
  }

  ghost predicate IsReplyBeat(l: Link, b: Beat) {
    && Runs(l, b.arrive) && AllReplies(b.arrive) && l.server.outgoingReplies.Keys <= Targets(b.arrive)
    && var l' := Execute(l, b.arrive);
    && Runs(l', b.respond) && AllAcks(b.respond) && l'.server.outgoingReplies.Keys <= Targets(b.respond)
  }

  ghost function AfterBeat(l: Link, b: Beat): Link
    requires Runs(l, b.arrive) && Runs(Execute(l, b.arrive), b.respond)
  {
    Execute(Execute(l, b.arrive), b.respond)
  }

  ghost predicate Stores(l: Link) {
    l.server.outgoingReplies.Keys != {}
  }

  ghost predicate Asks(l: Link) {
    l.client.outgoing.Keys != {}
  }

  /** The first node's re-sending: replies it stores go before requests. */
  ghost predicate IsBeat(p: Pair, b: Beat) {
    if Stores(p.back) then IsReplyBeat(p.back, b) else Asks(p.there) ==> IsRequestBeat(p.there, b)
  }

  ghost function Beaten(p: Pair, b: Beat): Pair
    requires IsBeat(p, b)
  {
    if Stores(p.back) then p.(back := AfterBeat(p.back, b))
    else if Asks(p.there) then p.(there := AfterBeat(p.there, b))
    else p
  }

  /** The first node's beat, then the second's. */
  datatype Cycle = Cycle(first: Beat, second: Beat)

  ghost predicate IsCycle(p: Pair, c: Cycle) {
    IsBeat(p, c.first) && IsBeat(Swap(Beaten(p, c.first)), c.second)
  }

  ghost function AfterCycle(p: Pair, c: Cycle): Pair
    requires IsCycle(p, c)
  {
    Swap(Beaten(Swap(Beaten(p, c.first)), c.second))
  }

  // ------------------------------------------------------------------------ what a beat does

  /** Everything outgoing has reached the server and is answered. */
  ghost predicate Ripe(l: Link) {
    l.server.incoming.Keys == {} && forall i | i in l.client.outgoing :: Seen(l.server, i)
  }

  lemma RequestBeatEffect(l: Link, b: Beat)
    requires Inv(l) && IsRequestBeat(l, b)
    ensures var l' := AfterBeat(l, b); Inv(l') && l'.client == l.client && Ripe(l')
  {
    var l1 := Execute(l, b.arrive);
    ExecuteInv(l, b.arrive);
    AfterDeliveries(l, b.arrive);
    ExecuteInv(l1, b.respond);
    AfterAnswers(l1, b.respond);
  }

  lemma ReplyBeatEffect(l: Link, b: Beat)
    requires Inv(l) && IsReplyBeat(l, b)
    ensures var l' := AfterBeat(l, b);
      && Inv(l') && !Stores(l')
      && Pending(l'.client) <= Pending(l.client)
      && (Ripe(l) ==> Pending(l'.client) == l.client.delayed.Keys)
  {
    var l1 := Execute(l, b.arrive);
    ExecuteInv(l, b.arrive);
    AfterReplies(l, b.arrive);
    RepliesLeaveServer(l, b.arrive);
    ExecuteInv(l1, b.respond);
    AfterAcks(l1, b.respond);
    if Ripe(l) {
      PendingAfterReplies(l, b.arrive);
    }
  }

  lemma FewerBarriers(ids: set<RpcId>, more: set<RpcId>)
    requires ids <= more
    ensures BarriersOf(ids) <= BarriersOf(more) && |BarriersOf(ids)| <= |BarriersOf(more)|
  {
    SubsetSize(BarriersOf(ids), BarriersOf(more));
  }

  lemma SubsetSize(a: set<int>, b: set<int>)
    requires a <= b
    ensures |a| <= |b|
  {
    assert b == a + (b - a);
  }

  /** A reply beat of a ripe link finishes its front barrier. */
  lemma RipeFinishesABarrier(l: Link, b: Beat)
    requires Inv(l) && IsReplyBeat(l, b) && Ripe(l) && Asks(l)
    ensures |PendingBarriers(AfterBeat(l, b))| == |PendingBarriers(l)| - 1
  {
    ReplyBeatEffect(l, b);
    var c := l.client;
    var front :| InOrderAt(front, c.outgoing.Keys, c.delayed.Keys, c.onBarrier);
    FrontBarrierGoes(front, c.outgoing.Keys, c.delayed.Keys, c.onBarrier);
  }

  lemma RipeStores(l: Link)
    requires Inv(l) && Ripe(l) && Asks(l)
    ensures Stores(l)
  {
    SeenAreReplied(l);
    var i :| i in l.client.outgoing;
    assert i in l.server.outgoingReplies.Keys;
  }

  // ----------------------------------------------------------------------- what a cycle does

  /** After a cycle: the second node stores nothing, and what the first stores answers all that is outgoing. */
  ghost predicate Settled(p: Pair) {
    PairInv(p) && !Stores(p.there) && (Stores(p.back) ==> Ripe(p.back) && Asks(p.back))
  }

  ghost function Barriers(p: Pair): nat {
    |PendingBarriers(p.there)| + |PendingBarriers(p.back)|
  }

  /** A beat leaves its node without stored replies, adds no barrier, and touches one direction only. */
  lemma BeatEffect(p: Pair, b: Beat)
    requires PairInv(p) && IsBeat(p, b)
    ensures var q := Beaten(p, b);
      && PairInv(q) && !Stores(q.back)
      && |PendingBarriers(q.there)| <= |PendingBarriers(p.there)|
      && |PendingBarriers(q.back)| <= |PendingBarriers(p.back)|
    ensures Stores(p.back) ==> Beaten(p, b).there == p.there
    ensures !Stores(p.back) ==> Beaten(p, b).back == p.back
    ensures !Stores(p.back) && Asks(p.there) ==> Ripe(Beaten(p, b).there) && Asks(Beaten(p, b).there)
  {
    if Stores(p.back) {
      ReplyBeatEffect(p.back, b);
      FewerBarriers(Pending(AfterBeat(p.back, b).client), Pending(p.back.client));
    } else if Asks(p.there) {
      RequestBeatEffect(p.there, b);
    }
  }

  lemma CycleSettles(p: Pair, c: Cycle)
    requires PairInv(p) && IsCycle(p, c)
    ensures Settled(AfterCycle(p, c)) && Barriers(AfterCycle(p, c)) <= Barriers(p)
  {
    var q := Swap(Beaten(p, c.first));
    BeatEffect(p, c.first);
    BeatEffect(q, c.second);
  }

  /** The cycles it takes from a settled state: one more when the second node must first get to its requests. */
  ghost function ToGo(p: Pair): nat {
    Barriers(p) + if Stores(p.back) || PendingBarriers(p.back) == {} then 0 else 1
  }

  lemma AsksHasBarriers(l: Link)
    requires Inv(l)
    ensures Asks(l) <==> PendingBarriers(l) != {}
  {
    var c := l.client;
    var front :| InOrderAt(front, c.outgoing.Keys, c.delayed.Keys, c.onBarrier);
    if i :| i in c.outgoing.Keys {
      assert i in Pending(c) && i.barrier in PendingBarriers(l);
    } else {
      FrontBarrierGoes(front, c.outgoing.Keys, c.delayed.Keys, c.onBarrier);
    }
  }

  /** The first node's replies are due: they finish a barrier of the other direction. */
  lemma RepliesComeFirst(p: Pair, c: Cycle)
    requires Settled(p) && IsCycle(p, c) && Stores(p.back)
    ensures ToGo(AfterCycle(p, c)) < ToGo(p)
  {
    var q := Beaten(p, c.first);
    BeatEffect(p, c.first);
    RipeFinishesABarrier(p.back, c.first);
    BeatEffect(Swap(q), c.second);
    AsksHasBarriers(q.back);
    if Asks(q.back) {
      RipeStores(AfterCycle(p, c).back);
    }
  }

  /**
   Why the bound below adds up both directions: while the first node has requests to re-send and no reply, a
   cycle finishes one of its barriers and leaves the other direction as it was.
   */
  lemma OtherDirectionWaits(p: Pair, c: Cycle)
    requires Settled(p) && IsCycle(p, c) && !Stores(p.back) && Asks(p.there)
    ensures AfterCycle(p, c).back == p.back
    ensures |PendingBarriers(AfterCycle(p, c).there)| == |PendingBarriers(p.there)| - 1
  {
    var q := Beaten(p, c.first);
    BeatEffect(p, c.first);
    RipeStores(q.there);
    RequestBeatEffect(p.there, c.first);
    RipeFinishesABarrier(q.there, c.second);
  }

  /** Only the second node's requests are left: they get through. */
  lemma RequestsComeBack(p: Pair, c: Cycle)
    requires Settled(p) && IsCycle(p, c) && !Stores(p.back) && !Asks(p.there) && Asks(p.back)
    ensures ToGo(AfterCycle(p, c)) < ToGo(p)
  {
    BeatEffect(p, c.first);
    BeatEffect(Swap(p), c.second);
    RequestBeatEffect(p.back, c.second);
    RipeStores(AfterCycle(p, c).back);
    AsksHasBarriers(p.back);
  }

  lemma CycleProgress(p: Pair, c: Cycle)
    requires Settled(p) && IsCycle(p, c) && (Asks(p.there) || Asks(p.back))
    ensures ToGo(AfterCycle(p, c)) < ToGo(p)
  {
    if Stores(p.back) {
      RepliesComeFirst(p, c);
    } else if Asks(p.there) {
      OtherDirectionWaits(p, c);
    } else {
      RequestsComeBack(p, c);
    }
  }

  // --------------------------------------------------------------------------- the joint bound

  ghost predicate AreCycles(p: Pair, cycles: seq<Cycle>)
    decreases |cycles|
  {
    cycles == [] || (IsCycle(p, cycles[0]) && AreCycles(AfterCycle(p, cycles[0]), cycles[1..]))
  }

  ghost function AfterCycles(p: Pair, cycles: seq<Cycle>): Pair
    requires AreCycles(p, cycles)
    decreases |cycles|
  {
    if cycles == [] then p else AfterCycles(AfterCycle(p, cycles[0]), cycles[1..])
  }

  /** Nothing is pending, held or stored, and everything issued is answered. */
  ghost predicate Drained(l: Link) {
    && Pending(l.client) == {} && l.server.incoming.Keys == {} && l.server.outgoingReplies.Keys == {}
    && forall i | i in l.issued :: i in l.answered
  }

  lemma NothingToGo(l: Link)
    requires Inv(l) && !Asks(l) && !Stores(l)
    ensures Drained(l)
  {
    AsksHasBarriers(l);
    assert forall i | i in Pending(l.client) :: i.barrier in PendingBarriers(l);
    assert Pending(l.client) == {};
  }

  lemma {:induction false} SettledDrains(p: Pair, cycles: seq<Cycle>)
    requires Settled(p) && AreCycles(p, cycles) && |cycles| >= ToGo(p)
    ensures Drained(AfterCycles(p, cycles).there) && Drained(AfterCycles(p, cycles).back)
    decreases |cycles|
  {
    if !Asks(p.there) && !Asks(p.back) {
      StaysDrained(p, cycles);
    } else {
      AsksHasBarriers(p.there);
      AsksHasBarriers(p.back);
      CycleProgress(p, cycles[0]);
      CycleSettles(p, cycles[0]);
      SettledDrains(AfterCycle(p, cycles[0]), cycles[1..]);
    }
  }

  lemma {:induction false} StaysDrained(p: Pair, cycles: seq<Cycle>)
    requires Settled(p) && AreCycles(p, cycles) && !Asks(p.there) && !Asks(p.back)
    ensures Drained(AfterCycles(p, cycles).there) && Drained(AfterCycles(p, cycles).back)
    decreases |cycles|
  {
    if cycles == [] {
      NothingToGo(p.there);
      NothingToGo(p.back);
    } else {
      assert AfterCycle(p, cycles[0]) == p;
      StaysDrained(p, cycles[1..]);
    }
  }

  /**
   From any reachable states of the two directions, as many cycles as both have distinct pending barriers
   together, and two more, empty every queue of both nodes.
   */
  lemma JointDrainBound(p: Pair, cycles: seq<Cycle>)
    requires PairInv(p) && AreCycles(p, cycles)
    requires |cycles| >= |PendingBarriers(p.there)| + |PendingBarriers(p.back)| + 2
    ensures Drained(AfterCycles(p, cycles).there) && Drained(AfterCycles(p, cycles).back)
  {
    CycleSettles(p, cycles[0]);
    SettledDrains(AfterCycle(p, cycles[0]), cycles[1..]);
  }

  // ------------------------------------------------------------ a cycle can always be played

  lemma BeatExists(p: Pair) returns (b: Beat)
    requires PairInv(p)
    ensures IsBeat(p, b)
  {
    if Stores(p.back) {
      b := ReplyBeatExists(p.back);
    } else {
      b := RequestBeatExists(p.there);
    }
  }

  lemma RequestBeatExists(l: Link) returns (b: Beat)
    requires Inv(l)
    ensures IsRequestBeat(l, b)
  {
    var arrive := DeliveriesExist(l, l.client.outgoing.Keys);
    var l' := Execute(l, arrive);
    ExecuteInv(l, arrive);
    var respond := AnswersExist(l', l'.server.incoming.Keys);
    b := Beat(arrive, respond);
  }

  lemma ReplyBeatExists(l: Link) returns (b: Beat)
    requires Inv(l)
    ensures IsReplyBeat(l, b)
  {
    assert l.server.outgoingReplies.Keys <= RepliedIds(l.server);
    var arrive := RepliesExist(l, l.server.outgoingReplies.Keys);
    var l' := Execute(l, arrive);
    RepliesLeaveServer(l, arrive);
    RepliesAreAcked(l, arrive);
    var respond := AcksExist(l', l'.server.outgoingReplies.Keys);
    b := Beat(arrive, respond);
  }

  lemma CycleExists(p: Pair) returns (c: Cycle)
    requires PairInv(p)
    ensures IsCycle(p, c)
  {
    var first := BeatExists(p);
    BeatEffect(p, first);
    var second := BeatExists(Swap(Beaten(p, first)));
    c := Cycle(first, second);
  }
}
