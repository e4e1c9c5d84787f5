/** Draining: with nothing lost, all that is pending is done after one round for each pending barrier. */
module RpcDrain {
  // A round has four phases, each a list of steps of one kind in any order and with any repetition:
  // outgoing requests are delivered, held requests are answered, stored replies are delivered, and
  // acknowledgements are delivered. The application issues nothing meanwhile.

  import opened RpcState
  import opened RpcLink

  ghost predicate Runs(l: Link, steps: seq<Action>)
    decreases |steps|
  {
    steps == [] || (Enabled(l, steps[0]) && Runs(Apply(l, steps[0]), steps[1..]))
  }

  ghost function Execute(l: Link, steps: seq<Action>): Link
    requires Runs(l, steps)
    decreases |steps|
  {
    if steps == [] then l else Execute(Apply(l, steps[0]), steps[1..])
  }

  /** The request a delivery or answer step is about. */
  ghost function Target(a: Action): set<RpcId> {
    match a
    case ReceiveRequest(request, _) => {request.id}
    case AnswerRequest(id, _, _) => {id}
    case ReceiveReply(reply, _) => {reply.id}
    case ReceiveAck(id) => {id}
    case _ => {}
  }

  ghost function Targets(steps: seq<Action>): set<RpcId> {
    if steps == [] then {} else Target(steps[0]) + Targets(steps[1..])
  }

  ghost predicate AllDeliveries(steps: seq<Action>) { forall a | a in steps :: a.ReceiveRequest? }
  ghost predicate AllAnswers(steps: seq<Action>) { forall a | a in steps :: a.AnswerRequest? }
  ghost predicate AllReplies(steps: seq<Action>) { forall a | a in steps :: a.ReceiveReply? }
  ghost predicate AllAcks(steps: seq<Action>) { forall a | a in steps :: a.ReceiveAck? }

  lemma {:induction false} ExecuteInv(l: Link, steps: seq<Action>)
    requires Inv(l) && Runs(l, steps)
    ensures Inv(Execute(l, steps))
    decreases |steps|
  {
    if steps != [] {
      InvStep(l, steps[0]);
      ExecuteInv(Apply(l, steps[0]), steps[1..]);
    }
  }

  // -------------------------------------------------------------------------- the four phases

  lemma DeliveryStep(l: Link, a: Action)
    requires ServerOk(l.server) && a.ReceiveRequest? && Enabled(l, a)
    ensures var l' := Apply(l, a);
      && l'.client == l.client && l'.issued == l.issued
      && (forall i | Seen(l.server, i) || i in Target(a) :: Seen(l'.server, i))
  {
  }

  lemma {:induction false} AfterDeliveries(l: Link, steps: seq<Action>)
    requires Inv(l) && Runs(l, steps) && AllDeliveries(steps)
    ensures var l' := Execute(l, steps);
      && l'.client == l.client && l'.issued == l.issued
      && (forall i | Seen(l.server, i) || i in Targets(steps) :: Seen(l'.server, i))
    decreases |steps|
  {
    if steps != [] {
      var a, rest := steps[0], steps[1..];
      assert a in steps && forall b | b in rest :: b in steps;
      InvStep(l, a);
      DeliveryStep(l, a);
      AfterDeliveries(Apply(l, a), rest);
    }
  }

  lemma AnswerStep(l: Link, a: Action)
    requires a.AnswerRequest? && Enabled(l, a)
    ensures var l' := Apply(l, a);
      && l'.client == l.client && l'.issued == l.issued
      && l'.server.incoming.Keys == l.server.incoming.Keys - Target(a)
      && (forall i | Seen(l.server, i) :: Seen(l'.server, i))
  {
  }

  lemma {:induction false} AfterAnswers(l: Link, steps: seq<Action>)
    requires Runs(l, steps) && AllAnswers(steps)
    ensures var l' := Execute(l, steps);
      && l'.client == l.client && l'.issued == l.issued
      && l'.server.incoming.Keys == l.server.incoming.Keys - Targets(steps)
      && (forall i | Seen(l.server, i) :: Seen(l'.server, i))
    decreases |steps|
  {
    if steps != [] {
      var a, rest := steps[0], steps[1..];
      assert a in steps && forall b | b in rest :: b in steps;
      AnswerStep(l, a);
      AfterAnswers(Apply(l, a), rest);
    }
  }

  lemma ReplyStep(l: Link, a: Action)
    requires Inv(l) && a.ReceiveReply? && Enabled(l, a)
    ensures var l' := Apply(l, a);
      && Inv(l') && l'.server == l.server && l'.issued == l.issued
      && Pending(l'.client) == Pending(l.client) - Target(a)
    ensures Target(a) <= RepliedIds(l.server)
  {
    ReplyPending(l, a.reply, a.now);
    InvStep(l, a);
  }

  /** Replies come from what the server sent; the server does not change while they arrive. */
  lemma {:induction false} RepliesLeaveServer(l: Link, steps: seq<Action>)
    requires Runs(l, steps) && AllReplies(steps)
    ensures Execute(l, steps).server == l.server && Targets(steps) <= RepliedIds(l.server)
    decreases |steps|
  {
    if steps != [] {
      var a, rest := steps[0], steps[1..];
      assert a in steps && forall b | b in rest :: b in steps;
      RepliesLeaveServer(Apply(l, a), rest);
    }
  }

  lemma {:induction false} AfterReplies(l: Link, steps: seq<Action>)
    requires Inv(l) && Runs(l, steps) && AllReplies(steps)
    ensures Pending(Execute(l, steps).client) == Pending(l.client) - Targets(steps)
    decreases |steps|
  {
    if steps == [] {
      assert Execute(l, steps) == l;
    } else {
      var a, rest := steps[0], steps[1..];
      assert a in steps && forall b | b in rest :: b in steps;
      ReplyStep(l, a);
      AfterReplies(Apply(l, a), rest);
      MinusMinus(Pending(l.client), Target(a), Targets(rest));
    }
  }

  lemma MinusMinus(all: set<RpcId>, first: set<RpcId>, rest: set<RpcId>)
    ensures all - first - rest == all - (first + rest)
  {
  }

  lemma ReplyPending(l: Link, reply: StampedReply, now: int)
    requires Inv(l) && Enabled(l, ReceiveReply(reply, now))
    ensures Pending(Apply(l, ReceiveReply(reply, now)).client) == Pending(l.client) - {reply.id}
  {
    if reply.id in l.client.outgoing {
      ClientInvUsefulReply(l.client, l.issued, reply.id, reply.payload, now);
    } else {
      InvOldReply(l, reply, now);
    }
  }

  lemma AckStep(l: Link, a: Action)
    requires a.ReceiveAck? && Enabled(l, a)
    ensures var l' := Apply(l, a);
      && l'.client == l.client && l'.issued == l.issued && l'.server.incoming == l.server.incoming
      && l'.server.outgoingReplies.Keys == l.server.outgoingReplies.Keys - Target(a)
  {
  }

  lemma {:induction false} AfterAcks(l: Link, steps: seq<Action>)
    requires Runs(l, steps) && AllAcks(steps)
    ensures var l' := Execute(l, steps);
      && l'.client == l.client && l'.issued == l.issued && l'.server.incoming == l.server.incoming
      && l'.server.outgoingReplies.Keys == l.server.outgoingReplies.Keys - Targets(steps)
    decreases |steps|
  {
    if steps != [] {
      var a, rest := steps[0], steps[1..];
      assert a in steps && forall b | b in rest :: b in steps;
      AckStep(l, a);
      AfterAcks(Apply(l, a), rest);
    }
  }

  // --------------------------------------------------------------------------------- a round

  datatype Round = Round(deliver: seq<Action>, answer: seq<Action>, reply: seq<Action>, ack: seq<Action>)

  /** The steps of each phase can be taken and reach everything the phase is about. */
  ghost predicate IsRound(l: Link, r: Round) {
    && Runs(l, r.deliver) && AllDeliveries(r.deliver) && l.client.outgoing.Keys <= Targets(r.deliver)
    && var l1 := Execute(l, r.deliver);
    && Runs(l1, r.answer) && AllAnswers(r.answer) && l1.server.incoming.Keys <= Targets(r.answer)
    && var l2 := Execute(l1, r.answer);
    && Runs(l2, r.reply) && AllReplies(r.reply) && l2.server.outgoingReplies.Keys <= Targets(r.reply)
    && var l3 := Execute(l2, r.reply);
    && Runs(l3, r.ack) && AllAcks(r.ack) && l3.server.outgoingReplies.Keys <= Targets(r.ack)
  }

  ghost function AfterRound(l: Link, r: Round): Link
    requires IsRound(l, r)
  {
    Execute(Execute(Execute(Execute(l, r.deliver), r.answer), r.reply), r.ack)
  }

  ghost function BarriersOf(ids: set<RpcId>): set<int> {
    set i | i in ids :: i.barrier
  }

  ghost function PendingBarriers(l: Link): set<int> {
    BarriersOf(Pending(l.client))
  }

  /** Only sent requests are ever answered, so a delayed one has no reply. */
  lemma RepliedNotDelayed(l: Link)
    requires Inv(l)
    ensures RepliedIds(l.server) !! l.client.delayed.Keys
  {
    forall i | i in RepliedIds(l.server)
      ensures i !in l.client.delayed.Keys
    {
      var r :| r in l.server.sentReplies && r.id == i;
      assert IdPayload(i, l.issued[i].payload) in l.client.sentRequests;
    }
  }

  /** When everything outgoing has been seen and nothing is held, every outgoing request has its reply kept. */
  lemma SeenAreReplied(l: Link)
    requires Inv(l) && l.server.incoming.Keys == {}
    requires forall i | i in l.client.outgoing :: Seen(l.server, i)
    ensures l.client.outgoing.Keys <= l.server.outgoingReplies.Keys
  {
    forall i | i in l.client.outgoing.Keys
      ensures i in l.server.outgoingReplies
    {
      assert i in Pending(l.client);
      assert i !in l.server.incoming.Keys;
    }
  }

  /** A round finishes exactly the outgoing requests and leaves nothing at the server. */
  lemma RoundEffect(l: Link, r: Round)
    requires Inv(l) && IsRound(l, r)
    ensures var l' := AfterRound(l, r);
      && Inv(l')
      && Pending(l'.client) == l.client.delayed.Keys
      && l'.server.incoming.Keys == {}
      && l'.server.outgoingReplies.Keys == {}
  {
    var l1 := Execute(l, r.deliver);
    ExecuteInv(l, r.deliver);
    AfterDeliveries(l, r.deliver);
    var l2 := Execute(l1, r.answer);
    ExecuteInv(l1, r.answer);
    AfterAnswers(l1, r.answer);
    RoundSecondHalf(l2, r);
  }

  /** What is pending after the replies arrive is exactly what was delayed before. */
  lemma PendingAfterReplies(l: Link, steps: seq<Action>)
    requires Inv(l) && l.server.incoming.Keys == {}
    requires forall i | i in l.client.outgoing :: Seen(l.server, i)
    requires Runs(l, steps) && AllReplies(steps) && l.server.outgoingReplies.Keys <= Targets(steps)
    ensures Pending(Execute(l, steps).client) == l.client.delayed.Keys
    ensures Execute(l, steps).server == l.server
  {
    SeenAreReplied(l);
    RepliedNotDelayed(l);
    AfterReplies(l, steps);
    RepliesLeaveServer(l, steps);
    Remaining(l.client.outgoing.Keys, l.client.delayed.Keys, Targets(steps));
  }

  lemma Remaining(outgoing: set<RpcId>, delayed: set<RpcId>, replied: set<RpcId>)
    requires outgoing <= replied && replied !! delayed
    ensures outgoing + delayed - replied == delayed
  {
  }

  lemma RoundSecondHalf(l2: Link, r: Round)
    requires Inv(l2) && l2.server.incoming.Keys == {}
    requires forall i | i in l2.client.outgoing :: Seen(l2.server, i)
    requires Runs(l2, r.reply) && AllReplies(r.reply) && l2.server.outgoingReplies.Keys <= Targets(r.reply)
    requires var l3 := Execute(l2, r.reply);
      Runs(l3, r.ack) && AllAcks(r.ack) && l3.server.outgoingReplies.Keys <= Targets(r.ack)
    ensures var l' := Execute(Execute(l2, r.reply), r.ack);
      && Inv(l')
      && Pending(l'.client) == l2.client.delayed.Keys
      && l'.server.incoming.Keys == {}
      && l'.server.outgoingReplies.Keys == {}
  {
    var l3 := Execute(l2, r.reply);
    ExecuteInv(l2, r.reply);
    PendingAfterReplies(l2, r.reply);
    ExecuteInv(l3, r.ack);
    AfterAcks(l3, r.ack);
  }

  lemma FrontBarrierGoes(front: int, outgoing: set<RpcId>, delayed: set<RpcId>, onBarrier: int)
    requires InOrderAt(front, outgoing, delayed, onBarrier)
    ensures outgoing == {} ==> BarriersOf(delayed) == {}
    ensures outgoing != {} ==> |BarriersOf(outgoing + delayed)| == |BarriersOf(delayed)| + 1
  {
    if outgoing != {} {
      var i :| i in outgoing;
      assert i in outgoing + delayed;
      forall b
        ensures b in BarriersOf(outgoing + delayed) <==> b in BarriersOf(delayed) || b == front
      {
        if b in BarriersOf(delayed) {
          var j :| j in delayed && j.barrier == b;
          assert j in outgoing + delayed;
        }
      }
      assert front !in BarriersOf(delayed);
      assert BarriersOf(outgoing + delayed) == BarriersOf(delayed) + {front};
    }
  }

  /** A round uses up one pending barrier, if any is left. */
  lemma RoundFinishesABarrier(l: Link, r: Round)
    requires Inv(l) && IsRound(l, r)
    ensures var l' := AfterRound(l, r);
      if PendingBarriers(l) == {} then PendingBarriers(l') == {}
      else |PendingBarriers(l')| == |PendingBarriers(l)| - 1
  {
    RoundEffect(l, r);
    var c := l.client;
    var front :| InOrderAt(front, c.outgoing.Keys, c.delayed.Keys, c.onBarrier);
    FrontBarrierGoes(front, c.outgoing.Keys, c.delayed.Keys, c.onBarrier);
    if i :| i in c.outgoing.Keys {
      assert i in Pending(c) && i.barrier in PendingBarriers(l);
    }
  }

  ghost predicate AreRounds(l: Link, rounds: seq<Round>)
    decreases |rounds|
  {
    rounds == [] || (IsRound(l, rounds[0]) && AreRounds(AfterRound(l, rounds[0]), rounds[1..]))
  }

  ghost function AfterRounds(l: Link, rounds: seq<Round>): Link
    requires AreRounds(l, rounds)
    decreases |rounds|
  {
    if rounds == [] then l else AfterRounds(AfterRound(l, rounds[0]), rounds[1..])
  }

  /** From any reachable state, one round per distinct pending barrier empties every queue. */
  lemma {:induction false} DrainBound(l: Link, rounds: seq<Round>)
    requires Inv(l) && AreRounds(l, rounds)
    requires |rounds| >= 1 && |rounds| >= |PendingBarriers(l)|
    ensures var l' := AfterRounds(l, rounds);
      && Pending(l'.client) == {}
      && l'.server.incoming.Keys == {}
      && l'.server.outgoingReplies.Keys == {}
      && (forall i | i in l'.issued :: i in l'.answered)
    decreases |rounds|
  {
    var next := AfterRound(l, rounds[0]);
    RoundEffect(l, rounds[0]);
    RoundFinishesABarrier(l, rounds[0]);
    if |rounds| == 1 {
      assert rounds[1..] == [];
      assert |PendingBarriers(next)| == 0;
      assert forall i | i in Pending(next.client) :: i.barrier in PendingBarriers(next);
    } else {
      DrainBound(next, rounds[1..]);
    }
  }

  // ------------------------------------------------------------- a round can always be played

  lemma StepThenRest(l: Link, a: Action, rest: seq<Action>)
    requires Enabled(l, a) && Runs(Apply(l, a), rest)
    ensures Runs(l, [a] + rest) && Targets([a] + rest) == Target(a) + Targets(rest)
  {
    assert ([a] + rest)[1..] == rest;
  }

  lemma DeliveryExists(l: Link, i: RpcId) returns (a: Action)
    requires ServerOk(l.server) && AsMessages(l.client.outgoing) <= l.client.sentRequests && i in l.client.outgoing
    ensures a.ReceiveRequest? && Target(a) == {i} && Enabled(l, a)
    ensures ServerOk(Apply(l, a).server) && Apply(l, a).client == l.client
  {
    var request := IdPayload(i, l.client.outgoing[i]);
    a := ReceiveRequest(request, 0);
    assert request in AsMessages(l.client.outgoing);
    OnRequestOk(l.server, request, 0);
  }

  lemma AnswerExists(l: Link, i: RpcId) returns (a: Action)
    requires ServerOk(l.server) && i in l.server.incoming
    ensures a.AnswerRequest? && Target(a) == {i} && Enabled(l, a) && ServerOk(Apply(l, a).server)
    ensures Apply(l, a).server.incoming.Keys == l.server.incoming.Keys - {i}
  {
    a := AnswerRequest(i, "OK", 0);
    AnswerOk(l.server, i, "OK", 0);
    AnswerStep(l, a);
  }

  lemma {:induction false} DeliveriesExist(l: Link, ids: set<RpcId>) returns (steps: seq<Action>)
    requires ServerOk(l.server) && AsMessages(l.client.outgoing) <= l.client.sentRequests
    requires ids <= l.client.outgoing.Keys
    ensures Runs(l, steps) && AllDeliveries(steps) && Targets(steps) == ids
    decreases ids
  {
    steps := [];
    if i :| i in ids {
      var a := DeliveryExists(l, i);
      var rest := DeliveriesExist(Apply(l, a), ids - {i});
      steps := [a] + rest;
      StepThenRest(l, a, rest);
    }
  }

  lemma {:induction false} AnswersExist(l: Link, ids: set<RpcId>) returns (steps: seq<Action>)
    requires ServerOk(l.server) && ids <= l.server.incoming.Keys
    ensures Runs(l, steps) && AllAnswers(steps) && Targets(steps) == ids
    decreases ids
  {
    steps := [];
    if i :| i in ids {
      var a := AnswerExists(l, i);
      var rest := AnswersExist(Apply(l, a), ids - {i});
      steps := [a] + rest;
      StepThenRest(l, a, rest);
    }
  }

  lemma {:induction false} RepliesExist(l: Link, ids: set<RpcId>) returns (steps: seq<Action>)
    requires ids <= RepliedIds(l.server)
    ensures Runs(l, steps) && AllReplies(steps) && Targets(steps) == ids
    decreases ids
  {
    steps := [];
    if i :| i in ids {
      var reply :| reply in l.server.sentReplies && reply.id == i;
      var a := ReceiveReply(reply, 0);
      var rest := RepliesExist(Apply(l, a), ids - {i});
      steps := [a] + rest;
      assert steps[1..] == rest;
    }
  }

  lemma {:induction false} AcksExist(l: Link, ids: set<RpcId>) returns (steps: seq<Action>)
    requires ids <= l.client.sentAcks
    ensures Runs(l, steps) && AllAcks(steps) && Targets(steps) == ids
    decreases ids
  {
    steps := [];
    if i :| i in ids {
      var a := ReceiveAck(i);
      var rest := AcksExist(Apply(l, a), ids - {i});
      steps := [a] + rest;
      assert steps[1..] == rest;
    }
  }

  /** Every reply delivered is acknowledged, useful or not. */
  lemma {:induction false} RepliesAreAcked(l: Link, steps: seq<Action>)
    requires Runs(l, steps) && AllReplies(steps)
    ensures l.client.sentAcks + Targets(steps) <= Execute(l, steps).client.sentAcks
    decreases |steps|
  {
    if steps != [] {
      var a, rest := steps[0], steps[1..];
      assert a in steps && forall b | b in rest :: b in steps;
      RepliesAreAcked(Apply(l, a), rest);
    }
  }

  /** From every reachable state there is a round, so the bound above is never vacuous. */
  lemma RoundExists(l: Link) returns (r: Round)
    requires Inv(l)
    ensures IsRound(l, r)
  {
    var deliver := DeliveriesExist(l, l.client.outgoing.Keys);
    var l1 := Execute(l, deliver);
    ExecuteInv(l, deliver);
    var answer := AnswersExist(l1, l1.server.incoming.Keys);
    var l2 := Execute(l1, answer);
    ExecuteInv(l1, answer);
    assert l2.server.outgoingReplies.Keys <= RepliedIds(l2.server);
    var reply := RepliesExist(l2, l2.server.outgoingReplies.Keys);
    var l3 := Execute(l2, reply);
    RepliesLeaveServer(l2, reply);
    RepliesAreAcked(l2, reply);
    var ack := AcksExist(l3, l3.server.outgoingReplies.Keys);
    r := Round(deliver, answer, reply, ack);
  }
}
