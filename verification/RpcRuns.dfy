/** What holds over whole runs of a link, under any loss, duplication and reordering. */
module RpcRuns {
  import opened RpcState
  import opened RpcLink

  ghost predicate IsRun(states: seq<Link>, actions: seq<Action>) {
    && |states| == |actions| + 1
    && states[0] == NEW_LINK
    && forall k {:trigger actions[k]} | 0 <= k < |actions| ::
         Enabled(states[k], actions[k]) && states[k + 1] == Apply(states[k], actions[k])
  }

  lemma {:induction false} RunInv(states: seq<Link>, actions: seq<Action>, k: nat)
    requires IsRun(states, actions) && k < |states|
    ensures Inv(states[k])
  {
    if k == 0 {
      InvInit();
    } else {
      RunInv(states, actions, k - 1);
      assert states[k] == Apply(states[k - 1], actions[k - 1]);
      InvStep(states[k - 1], actions[k - 1]);
    }
  }

  // ------------------------------------------------------------------- steps only go forward

  /** How far a request has come. */
  ghost function Stage(l: Link, id: RpcId): nat {
    if id !in l.issued then 0
    else if id in l.client.delayed then 1
    else if id in l.client.outgoing then
      if id in l.server.incoming then 3 else if id in l.server.processed then 4 else 2
    else if id in l.server.outgoingReplies then 5
    else 6
  }

  lemma SeenStep(l: Link, a: Action, id: RpcId)
    requires Enabled(l, a) && Seen(l.server, id)
    ensures Seen(Apply(l, a).server, id)
  {
  }

  lemma ClientStepForward(l: Link, l': Link, id: RpcId)
    requires l'.server == l.server && (id in l.issued ==> id in l'.issued)
    requires id in l.issued && id in Pending(l'.client) ==> id in Pending(l.client)
    requires id in l.issued && id in l'.client.delayed ==> id in l.client.delayed
    ensures Stage(l, id) <= Stage(l', id)
  {
  }

  lemma ServerStepForward(l: Link, l': Link, id: RpcId)
    requires l'.client == l.client && l'.issued == l.issued
    requires id in l.server.processed ==> id in l'.server.processed && id !in l'.server.incoming
    requires Seen(l.server, id) ==> Seen(l'.server, id)
    requires Done(l, id) && id in l'.server.outgoingReplies ==> id in l.server.outgoingReplies
    ensures Stage(l, id) <= Stage(l', id)
  {
  }

  lemma StageAfterIssue(l: Link, request: IdPayload, oneWay: bool, now: int, id: RpcId)
    requires ClientOk(l.client) && DoneAnswered(l.client, l.issued, l.answered) && PendingIssued(l.client, l.issued)
    requires Enabled(l, IssueRequest(request, oneWay, now))
    ensures Stage(l, id) <= Stage(Apply(l, IssueRequest(request, oneWay, now)), id)
  {
    IssueEffect(l.client, request, oneWay, now);
    ClientStepForward(l, Apply(l, IssueRequest(request, oneWay, now)), id);
  }

  lemma StageAfterReply(l: Link, reply: StampedReply, now: int, id: RpcId)
    requires ClientOk(l.client) && SentNotDelayed(l.client) && Enabled(l, ReceiveReply(reply, now))
    ensures Stage(l, id) <= Stage(Apply(l, ReceiveReply(reply, now)), id)
  {
    var l' := Apply(l, ReceiveReply(reply, now));
    if reply.id in l.client.outgoing {
      assert reply.id in Pending(l.client);
      ReplyMoves(l.client, reply.id, reply.payload, now);
      assert id in Pending(l'.client) <==> id in Pending(l.client) && id != reply.id;
    } else {
      assert l'.client.outgoing == l.client.outgoing && l'.client.delayed == l.client.delayed;
    }
    ClientStepForward(l, l', id);
  }

  /** A done request is never taken up again, so its reply is never stored again. */
  lemma NoNewReplyWhenDone(l: Link, a: Action, id: RpcId)
    requires ServerInv(l.server, l.client.sentRequests, l.issued, l.answered)
    requires DoneAnswered(l.client, l.issued, l.answered)
    requires Enabled(l, a) && Done(l, id) && id in Apply(l, a).server.outgoingReplies
    requires a.ReceiveRequest? || a.AnswerRequest? || a.ReceiveAck? || a.ResendSomeReplies?
    ensures id in l.server.outgoingReplies
  {
  }

  lemma StageAfterServerStep(l: Link, a: Action, id: RpcId)
    requires ServerInv(l.server, l.client.sentRequests, l.issued, l.answered)
    requires DoneAnswered(l.client, l.issued, l.answered)
    requires Enabled(l, a)
    requires a.ReceiveRequest? || a.AnswerRequest? || a.ReceiveAck? || a.ResendSomeReplies?
    ensures Stage(l, id) <= Stage(Apply(l, a), id)
  {
    if Seen(l.server, id) {
      SeenStep(l, a, id);
    }
    if Done(l, id) && id in Apply(l, a).server.outgoingReplies {
      NoNewReplyWhenDone(l, a, id);
    }
    ServerStepForward(l, Apply(l, a), id);
  }

  /** No step takes a request back: delayed, outgoing, at the peer, replied, received, acknowledged. */
  lemma {:induction false} StageNeverDrops(l: Link, a: Action, id: RpcId)
    requires Inv(l) && Enabled(l, a)
    ensures Stage(l, id) <= Stage(Apply(l, a), id)
  {
    match a
    case IssueRequest(request, oneWay, now) => StageAfterIssue(l, request, oneWay, now, id);
    case ReceiveReply(reply, now) => StageAfterReply(l, reply, now, id);
    case RaiseTheBarrier => StageAfterIdle(l, a, id);
    case ConsumeReply(_) => StageAfterIdle(l, a, id);
    case ResendSomeRequests(_) => StageAfterIdle(l, a, id);
    case _ => StageAfterServerStep(l, a, id);
  }

  lemma StageAfterIdle(l: Link, a: Action, id: RpcId)
    requires Enabled(l, a) && (a.RaiseTheBarrier? || a.ConsumeReply? || a.ResendSomeRequests?)
    ensures Stage(Apply(l, a), id) == Stage(l, id)
  {
  }

  /** What one link has in common with every later one. */
  ghost predicate Extends(l: Link, l': Link) {
    && (forall i | i in l.issued :: i in l'.issued && l'.issued[i] == l.issued[i])
    && (forall i | i in l'.issued && i !in l.issued :: l.client.onBarrier <= i.barrier)
    && l.client.onBarrier <= l'.client.onBarrier
    && (forall i | i in l.answered :: i in l'.answered && l'.answered[i] == l.answered[i])
    && (forall i :: Stage(l, i) <= Stage(l', i))
  }

  lemma StepExtends(l: Link, a: Action)
    requires Inv(l) && Enabled(l, a)
    ensures Extends(l, Apply(l, a))
  {
    forall i
      ensures Stage(l, i) <= Stage(Apply(l, a), i)
    {
      StageNeverDrops(l, a, i);
    }
    FieldsExtend(l, a);
  }

  lemma BarrierNeverDrops(l: Link, a: Action)
    requires Enabled(l, a)
    ensures l.client.onBarrier <= Apply(l, a).client.onBarrier
  {
  }

  lemma FieldsExtend(l: Link, a: Action)
    requires HoldsSent(l.server, l.client.sentRequests, l.issued, l.answered.Keys) && ServerOk(l.server)
    requires Enabled(l, a)
    ensures var l' := Apply(l, a);
      && (forall i | i in l.issued :: i in l'.issued && l'.issued[i] == l.issued[i])
      && (forall i | i in l'.issued && i !in l.issued :: l.client.onBarrier <= i.barrier)
      && l.client.onBarrier <= l'.client.onBarrier
      && (forall i | i in l.answered :: i in l'.answered && l'.answered[i] == l.answered[i])
  {
    BarrierNeverDrops(l, a);
  }

  lemma RunStepExtends(states: seq<Link>, actions: seq<Action>, k: nat)
    requires IsRun(states, actions) && k < |actions|
    ensures Extends(states[k], states[k + 1])
  {
    RunInv(states, actions, k);
    StepExtends(states[k], actions[k]);
  }

  lemma ExtendsFurther(a: Link, b: Link, c: Link)
    requires Extends(a, b) && Extends(b, c)
    ensures Extends(a, c)
  {
  }

  lemma {:induction false} RunExtends(states: seq<Link>, actions: seq<Action>, i: nat, j: nat)
    requires IsRun(states, actions) && i <= j < |states|
    ensures Extends(states[i], states[j])
  {
    if i < j {
      RunExtends(states, actions, i, j - 1);
      RunStepExtends(states, actions, j - 1);
      ExtendsFurther(states[i], states[j - 1], states[j]);
    }
  }

  // --------------------------------------------------------------------------- barrier order

  /**
   While the server holds a request, every request of an older barrier that the client ever
   issues in the run has already been issued, answered and received.
   */
  lemma BarrierOrder(states: seq<Link>, actions: seq<Action>, i: nat, j: nat, held: RpcId, older: RpcId)
    requires IsRun(states, actions) && i < |states| && j < |states|
    requires held in states[i].server.incoming
    requires older in states[j].issued && older.barrier < held.barrier
    ensures Done(states[i], older) && older in states[i].answered
    ensures states[i].issued[older].oneWay || HasReply(states[i].client, older)
  {
    var l := states[i];
    RunInv(states, actions, i);
    var request := IdPayload(held, l.server.incoming[held]);
    assert request in l.client.sentRequests;
    assert held.barrier <= l.client.onBarrier;
    if i <= j {
      RunExtends(states, actions, i, j);
    } else {
      RunExtends(states, actions, j, i);
    }
    assert Passed(held.barrier, Pending(l.client));
  }

  // --------------------------------------------------------------------------- what barrier() does

  lemma RaiseSeparates(l: Link, l': Link)
    requires PendingIssued(l.client, l.issued) && Enabled(l, RaiseTheBarrier) && l' == Apply(l, RaiseTheBarrier)
    ensures l'.issued == l.issued && forall i | i in l.issued :: i.barrier < l'.client.onBarrier
  {
  }

  /** Every id issued after a barrier() is strictly later than every id issued before it. */
  lemma BarrierSeparates(states: seq<Link>, actions: seq<Action>, k: nat, j: nat, early: RpcId, late: RpcId)
    requires IsRun(states, actions) && k < |actions| && actions[k].RaiseTheBarrier? && j < |states|
    requires early in states[k].issued && late in states[j].issued && late !in states[k].issued
    ensures k < j && early.barrier < late.barrier
  {
    RunInv(states, actions, k);
    RaiseSeparates(states[k], states[k + 1]);
    if j <= k {
      RunExtends(states, actions, j, k);
    } else {
      RunExtends(states, actions, k + 1, j);
    }
  }

  /**
   While the server holds a request issued after a barrier(), everything issued before it has been answered
   and its reply received.
   */
  lemma NothingPassesABarrier(states: seq<Link>, actions: seq<Action>, k: nat, i: nat, held: RpcId, early: RpcId)
    requires IsRun(states, actions) && k < |actions| && actions[k].RaiseTheBarrier? && i < |states|
    requires early in states[k].issued && held !in states[k].issued && held in states[i].server.incoming
    ensures Done(states[i], early) && early in states[i].answered
    ensures states[i].issued[early].oneWay || HasReply(states[i].client, early)
  {
    HeldIsIssued(states, actions, i, held);
    BarrierSeparates(states, actions, k, i, early, held);
    BarrierOrder(states, actions, i, k, held, early);
  }

  lemma HeldIsIssued(states: seq<Link>, actions: seq<Action>, i: nat, held: RpcId)
    requires IsRun(states, actions) && i < |states| && held in states[i].server.incoming
    ensures held in states[i].issued
  {
    RunInv(states, actions, i);
    assert IdPayload(held, states[i].server.incoming[held]) in states[i].client.sentRequests;
  }

  /** A request issued right after a barrier() is not sent while anything issued before is pending. */
  lemma IssuedAfterBarrierWaits(l: Link, request: IdPayload, oneWay: bool, now: int)
    requires Inv(l) && Pending(l.client) != {}
    requires Enabled(Apply(l, RaiseTheBarrier), IssueRequest(request, oneWay, now))
    ensures var l' := Apply(Apply(l, RaiseTheBarrier), IssueRequest(request, oneWay, now));
      && request.id in l'.client.delayed && request.id !in l'.client.outgoing
      && l'.client.sentRequests == l.client.sentRequests
  {
    var i :| i in l.client.outgoing;
    assert i in l.issued && i.barrier <= l.client.onBarrier;
  }

  // --------------------------------------------------------------------------- control requests

  /** A PING or SHUTDOWN is never held for the application, and has its fixed reply. */
  ghost predicate ControlOk(l: Link) {
    && (forall i | i in l.server.incoming :: l.server.incoming[i] != "PING" && l.server.incoming[i] != "SHUTDOWN")
    && (forall i | i in l.answered && i in l.issued ::
          && (l.issued[i].payload == "PING" ==> l.answered[i] == "PONG")
          && (l.issued[i].payload == "SHUTDOWN" ==> l.answered[i] == "SHUTDOWN_REPLY"))
  }

  lemma ControlReceive(l: Link, request: IdPayload, now: int)
    requires Genuine(l.client.sentRequests, l.issued) && ControlOk(l)
    requires Enabled(l, ReceiveRequest(request, now))
    ensures ControlOk(Apply(l, ReceiveRequest(request, now)))
  {
    assert request.payload == l.issued[request.id].payload;
  }

  lemma ControlAnswer(l: Link, id: RpcId, payload: string, now: int)
    requires HoldsSent(l.server, l.client.sentRequests, l.issued, l.answered.Keys)
    requires Genuine(l.client.sentRequests, l.issued) && ControlOk(l) && Enabled(l, AnswerRequest(id, payload, now))
    ensures ControlOk(Apply(l, AnswerRequest(id, payload, now)))
  {
    assert IdPayload(id, l.server.incoming[id]) in l.client.sentRequests;
  }

  lemma ControlIssue(l: Link, request: IdPayload, oneWay: bool, now: int)
    requires HoldsSent(l.server, l.client.sentRequests, l.issued, l.answered.Keys)
    requires ControlOk(l) && Enabled(l, IssueRequest(request, oneWay, now))
    ensures ControlOk(Apply(l, IssueRequest(request, oneWay, now)))
  {
  }

  lemma ControlIdle(l: Link, a: Action)
    requires ControlOk(l) && Enabled(l, a)
    requires !a.ReceiveRequest? && !a.AnswerRequest? && !a.IssueRequest?
    ensures ControlOk(Apply(l, a))
  {
  }

  lemma ControlStep(l: Link, a: Action)
    requires Inv(l) && Enabled(l, a) && ControlOk(l)
    ensures ControlOk(Apply(l, a))
  {
    match a
    case ReceiveRequest(request, now) => ControlReceive(l, request, now);
    case AnswerRequest(id, payload, now) => ControlAnswer(l, id, payload, now);
    case IssueRequest(request, oneWay, now) => ControlIssue(l, request, oneWay, now);
    case _ => ControlIdle(l, a);
  }

  /** Over every run the node answers its two control requests itself, each with its own reply. */
  lemma {:induction false} ControlRequests(states: seq<Link>, actions: seq<Action>, k: nat)
    requires IsRun(states, actions) && k < |states|
    ensures ControlOk(states[k])
  {
    if k > 0 {
      ControlRequests(states, actions, k - 1);
      RunInv(states, actions, k - 1);
      ControlStep(states[k - 1], actions[k - 1]);
    }
  }

  // ------------------------------------------------------------------------------- no stuck id

  /** A request still outgoing that the server has answered can always be answered again. */
  lemma NoStuckRequest(states: seq<Link>, actions: seq<Action>, k: nat, id: RpcId)
    requires IsRun(states, actions) && k < |states|
    requires id in states[k].client.outgoing && id in states[k].server.processed
    ensures id in states[k].server.outgoingReplies && id in states[k].answered
    ensures states[k].server.outgoingReplies[id] == states[k].answered[id]
    ensures id in RepliedIds(states[k].server)
  {
    RunInv(states, actions, k);
    assert id in Pending(states[k].client);
  }

  /** An acknowledgement in flight means the client is finished with the request, now and later. */
  lemma AckMeansDone(states: seq<Link>, actions: seq<Action>, k: nat, later: nat, id: RpcId)
    requires IsRun(states, actions) && k <= later < |states| && id in states[k].client.sentAcks
    ensures Done(states[later], id)
  {
    RunInv(states, actions, k);
    RunInv(states, actions, later);
    RunExtends(states, actions, k, later);
    assert Stage(states[k], id) >= 5;
    assert Stage(states[later], id) >= 5;
  }

  // ------------------------------------------------------------------------------ exactly once

  /** The step puts the request into incomingRequests. */
  ghost predicate Accepts(l: Link, a: Action, id: RpcId) {
    a.ReceiveRequest? && a.request.id == id && !Seen(l.server, id)
  }

  /** The step calls reply for the request. */
  ghost predicate Answers(l: Link, a: Action, id: RpcId) {
    || (a.AnswerRequest? && a.id == id)
    || (Accepts(l, a, id) && (a.request.payload == PING || a.request.payload == SHUTDOWN))
  }

  /** The step puts a reply into incomingReplies. */
  ghost predicate Collects(l: Link, a: Action, id: RpcId)
    requires Enabled(l, a)
  {
    a.ReceiveReply? && id !in l.client.incomingReplies && id in Apply(l, a).client.incomingReplies
  }

  lemma AcceptEffect(l: Link, a: Action, id: RpcId)
    requires Inv(l) && Enabled(l, a) && Accepts(l, a, id)
    ensures id in l.issued && a.request.payload == l.issued[id].payload
    ensures Stage(l, id) == 2
    ensures Seen(Apply(l, a).server, id)
  {
    assert a.request in l.client.sentRequests;
  }

  lemma AnswerEffect(l: Link, a: Action, id: RpcId)
    requires Inv(l) && Enabled(l, a) && Answers(l, a, id)
    ensures id !in l.answered && id in Apply(l, a).answered
  {
  }

  lemma CollectEffect(l: Link, a: Action, id: RpcId)
    requires Inv(l) && Enabled(l, a) && Collects(l, a, id)
    ensures id in l.client.outgoing && id in l.issued && !l.issued[id].oneWay
    ensures id in l.answered && Apply(l, a).client.incomingReplies[id] == l.answered[id]
    ensures Done(Apply(l, a), id)
  {
    if a.reply.id in l.client.outgoing {
      assert a.reply.id in Pending(l.client);
      ReplyDelivers(l.client, a.reply.id, a.reply.payload, a.now);
    }
    InvStep(l, a);
  }

  /** Over a run a request is accepted at most once, with the payload it was issued with. */
  lemma AcceptedOnce(states: seq<Link>, actions: seq<Action>, i: nat, j: nat, id: RpcId)
    requires IsRun(states, actions) && i < |actions| && j < |actions|
    requires Accepts(states[i], actions[i], id) && Accepts(states[j], actions[j], id)
    ensures i == j
    ensures id in states[i].issued && actions[i].request.payload == states[i].issued[id].payload
  {
    AcceptedBefore(states, actions, i, j, id);
    AcceptedBefore(states, actions, j, i, id);
    RunInv(states, actions, i);
    AcceptEffect(states[i], actions[i], id);
  }

  lemma SeenNext(states: seq<Link>, actions: seq<Action>, k: nat, id: RpcId)
    requires IsRun(states, actions) && k < |actions| && Seen(states[k].server, id)
    ensures Seen(states[k + 1].server, id)
  {
    SeenStep(states[k], actions[k], id);
  }

  /** Once seen by the server, always seen. */
  lemma {:induction false} SeenForever(states: seq<Link>, actions: seq<Action>, i: nat, j: nat, id: RpcId)
    requires IsRun(states, actions) && i <= j < |states| && Seen(states[i].server, id)
    ensures Seen(states[j].server, id)
  {
    if i < j {
      SeenForever(states, actions, i, j - 1, id);
      SeenNext(states, actions, j - 1, id);
    }
  }

  lemma SeenAfterAccepting(states: seq<Link>, actions: seq<Action>, k: nat, id: RpcId)
    requires IsRun(states, actions) && k < |actions| && Accepts(states[k], actions[k], id)
    ensures Seen(states[k + 1].server, id)
  {
    RunInv(states, actions, k);
    AcceptEffect(states[k], actions[k], id);
  }

  lemma AcceptedBefore(states: seq<Link>, actions: seq<Action>, i: nat, j: nat, id: RpcId)
    requires IsRun(states, actions) && i < |actions| && j < |actions|
    requires Accepts(states[i], actions[i], id) && Accepts(states[j], actions[j], id)
    ensures j <= i
  {
    if i < j {
      SeenAfterAccepting(states, actions, i, id);
      SeenForever(states, actions, i + 1, j, id);
    }
  }

  lemma AnsweredHere(states: seq<Link>, actions: seq<Action>, k: nat, id: RpcId)
    requires IsRun(states, actions) && k < |actions| && Answers(states[k], actions[k], id)
    ensures id !in states[k].answered && id in states[k + 1].answered
  {
    RunInv(states, actions, k);
    AnswerEffect(states[k], actions[k], id);
  }

  lemma AnsweredBefore(states: seq<Link>, actions: seq<Action>, i: nat, j: nat, id: RpcId)
    requires IsRun(states, actions) && i < |actions| && j < |actions|
    requires Answers(states[i], actions[i], id) && Answers(states[j], actions[j], id)
    ensures j <= i
  {
    AnsweredHere(states, actions, i, id);
    AnsweredHere(states, actions, j, id);
    if i < j {
      RunExtends(states, actions, i + 1, j);
    }
  }

  /** Over a run a request is answered at most once. */
  lemma AnsweredOnce(states: seq<Link>, actions: seq<Action>, i: nat, j: nat, id: RpcId)
    requires IsRun(states, actions) && i < |actions| && j < |actions|
    requires Answers(states[i], actions[i], id) && Answers(states[j], actions[j], id)
    ensures i == j
  {
    AnsweredBefore(states, actions, i, j, id);
    AnsweredBefore(states, actions, j, i, id);
  }

  lemma NotCollectedBefore(states: seq<Link>, actions: seq<Action>, j: nat, id: RpcId)
    requires IsRun(states, actions) && j < |actions| && Collects(states[j], actions[j], id)
    ensures Stage(states[j], id) < 5
  {
    RunInv(states, actions, j);
    CollectEffect(states[j], actions[j], id);
  }

  lemma NoSecondCollect(states: seq<Link>, actions: seq<Action>, i: nat, j: nat, id: RpcId)
    requires IsRun(states, actions) && i < |actions| && j < |actions|
    requires Collects(states[i], actions[i], id) && Collects(states[j], actions[j], id)
    ensures j <= i
  {
    if i < j {
      CollectedStage(states, actions, i, id);
      RunExtends(states, actions, i + 1, j);
      NotCollectedBefore(states, actions, j, id);
    }
  }

  lemma CollectedStage(states: seq<Link>, actions: seq<Action>, i: nat, id: RpcId)
    requires IsRun(states, actions) && i < |actions| && Collects(states[i], actions[i], id)
    ensures Stage(states[i + 1], id) >= 5
  {
    RunInv(states, actions, i);
    CollectEffect(states[i], actions[i], id);
    assert states[i + 1] == Apply(states[i], actions[i]);
  }

  /** Over a run a request yields at most one incoming reply, the given answer, and a one-way request none. */
  lemma CollectedOnce(states: seq<Link>, actions: seq<Action>, i: nat, j: nat, id: RpcId)
    requires IsRun(states, actions) && i < |actions| && j < |actions|
    requires Collects(states[i], actions[i], id) && Collects(states[j], actions[j], id)
    ensures i == j
    ensures id in states[i].issued && !states[i].issued[id].oneWay
    ensures id in states[i].answered && states[i + 1].client.incomingReplies[id] == states[i].answered[id]
  {
    NoSecondCollect(states, actions, i, j, id);
    NoSecondCollect(states, actions, j, i, id);
    CollectedHere(states, actions, i, id);
  }

  lemma CollectedHere(states: seq<Link>, actions: seq<Action>, i: nat, id: RpcId)
    requires IsRun(states, actions) && i < |actions| && Collects(states[i], actions[i], id)
    ensures id in states[i].issued && !states[i].issued[id].oneWay
    ensures id in states[i].answered && id in states[i + 1].client.incomingReplies
    ensures states[i + 1].client.incomingReplies[id] == states[i].answered[id]
  {
    RunInv(states, actions, i);
    CollectEffect(states[i], actions[i], id);
  }
}
