/** One direction of a connection: the client role of one node facing the server role of the other. */
module RpcLink {
  // The network may lose, duplicate and reorder everything. `issued` and `answered` are history: what the
  // application asked for, and what it, or the automatic PING and SHUTDOWN handling, answered. Both only grow.

  import opened RpcState

  datatype Issued = Issued(payload: string, oneWay: bool)

  datatype Link = Link(client: Client, server: Server, issued: map<RpcId, Issued>, answered: map<RpcId, string>)

  const NEW_LINK := Link(NEW_CLIENT, NEW_SERVER, map[], map[])

  /** The steps of a link. A receive step is handed any message the other side ever sent. */
  datatype Action =
    | IssueRequest(request: IdPayload, oneWay: bool, now: int)
    | RaiseTheBarrier
    | ConsumeReply(id: RpcId)
    | ResendSomeRequests(ids: set<RpcId>)
    | ReceiveReply(reply: StampedReply, now: int)
    | ReceiveRequest(request: IdPayload, now: int)
    | AnswerRequest(id: RpcId, payload: string, now: int)
    | ReceiveAck(id: RpcId)
    | ResendSomeReplies(times: map<RpcId, int>)

  /** An issued id is a fresh random number under the current barrier. */
  ghost predicate Enabled(l: Link, a: Action) {
    match a
    case IssueRequest(request, _, _) => request.id !in l.issued && request.id.barrier == l.client.onBarrier
    case RaiseTheBarrier => true
    case ConsumeReply(id) => id in l.client.incomingReplies
    case ResendSomeRequests(ids) => ids <= l.client.outgoing.Keys
    case ReceiveReply(reply, _) => reply in l.server.sentReplies
    case ReceiveRequest(request, _) =>
      request in l.client.sentRequests && l.server.outgoingReplies.Keys <= l.server.receiveTimes.Keys
    case AnswerRequest(id, _, _) => id in l.server.incoming && id in l.server.receiveTimes
    case ReceiveAck(id) => id in l.client.sentAcks
    case ResendSomeReplies(times) => times.Keys <= l.server.outgoingReplies.Keys <= l.server.receiveTimes.Keys
  }

  /** A control request is answered by the step that accepts it. */
  ghost function AnsweredOnReceipt(l: Link, request: IdPayload): map<RpcId, string> {
    if !Seen(l.server, request.id) && request.id !in l.server.outgoingReplies
       && (request.payload == PING || request.payload == SHUTDOWN)
    then l.answered[request.id := AutomaticReply(request.payload)]
    else l.answered
  }

  ghost function IssueEither(c: Client, request: IdPayload, oneWay: bool, now: int): Client {
    if oneWay then IssueOneWay(c, request, now) else Issue(c, request, now)
  }

  ghost function Apply(l: Link, a: Action): Link
    requires Enabled(l, a)
  {
    match a
    case IssueRequest(request, oneWay, now) =>
      l.(client := IssueEither(l.client, request, oneWay, now),
         issued := l.issued[request.id := Issued(request.payload, oneWay)])
    case RaiseTheBarrier => l.(client := RaiseBarrier(l.client))
    case ConsumeReply(id) => l.(client := TakeReply(l.client, id))
    case ResendSomeRequests(ids) => l.(client := ResendRequests(l.client, ids))
    case ReceiveReply(reply, now) => l.(client := OnReply(l.client, reply.id, reply.payload, now))
    case ReceiveRequest(request, now) =>
      l.(server := OnRequest(l.server, request, now), answered := AnsweredOnReceipt(l, request))
    case AnswerRequest(id, payload, now) =>
      l.(server := Answer(l.server, id, payload, now), answered := l.answered[id := payload])
    case ReceiveAck(id) => l.(server := OnAck(l.server, id))
    case ResendSomeReplies(times) => l.(server := ResendReplies(l.server, times))
  }

  // -------------------------------------------------------------------------- the invariant

  /** The reply to `id` has reached the client. */
  ghost predicate Done(l: Link, id: RpcId) {
    id in l.issued && id !in Pending(l.client)
  }

  /** Everything pending is an issued request with its own payload. */
  ghost predicate PendingIssued(c: Client, issued: map<RpcId, Issued>) {
    && (forall i | i in c.outgoing :: i in issued && c.outgoing[i] == issued[i].payload)
    && (forall i | i in c.delayed :: i in issued && c.delayed[i] == issued[i].payload)
    && (forall i | i in Pending(c) :: i in c.oneWay <==> issued[i].oneWay)
    && (forall i | i in issued :: i.barrier <= c.onBarrier)
  }

  /** Every sent request is an issued one with its own payload. */
  ghost predicate Genuine(sent: set<IdPayload>, issued: map<RpcId, Issued>) {
    forall r | r in sent :: r.id in issued && r.payload == issued[r.id].payload
  }

  /** What was sent has left the delayed queue for good; what is outgoing was sent. */
  ghost predicate SentNotDelayed(c: Client) {
    && (forall r | r in c.sentRequests :: r.id !in c.delayed)
    && AsMessages(c.outgoing) <= c.sentRequests
  }

  /** Nothing of a barrier below `barrier` is still pending. */
  ghost predicate Passed(barrier: int, pending: set<RpcId>) {
    forall i | i in pending :: barrier <= i.barrier
  }

  /** A request is only ever sent once every request of an older barrier is done. */
  ghost predicate SentInOrder(sent: set<IdPayload>, pending: set<RpcId>) {
    forall r | r in sent :: Passed(r.id.barrier, pending)
  }

  /** The server holds only requests it was sent, and answers only those. */
  ghost predicate HoldsSent(s: Server, sent: set<IdPayload>, issued: map<RpcId, Issued>, answered: set<RpcId>) {
    && (forall i | i in s.incoming :: IdPayload(i, s.incoming[i]) in sent)
    && s.processed == answered
    && (forall i | i in answered :: i in issued && IdPayload(i, issued[i].payload) in sent)
  }

  ghost function RepliedIds(s: Server): set<RpcId> {
    set r | r in s.sentReplies :: r.id
  }

  /** Every reply, kept or sent, carries the answer the application gave. */
  ghost predicate RepliesFaithful(s: Server, answered: map<RpcId, string>) {
    && (forall i | i in s.outgoingReplies :: i in answered && s.outgoingReplies[i] == answered[i])
    && s.outgoingReplies.Keys <= RepliedIds(s)
    && (forall r | r in s.sentReplies :: r.id in answered && r.payload == answered[r.id])
  }

  /** What is no longer pending was answered, and a two-way request kept exactly that answer. */
  ghost predicate DoneAnswered(c: Client, issued: map<RpcId, Issued>, answered: map<RpcId, string>) {
    && (forall i | i in issued && i !in Pending(c) :: i in answered && (HasReply(c, i) <==> !issued[i].oneWay))
    && (forall i | HasReply(c, i) :: i in issued && i !in Pending(c))
    && (forall i | i in c.incomingReplies :: i in answered && c.incomingReplies[i] == answered[i])
  }

  /** An acknowledgement is only sent for a request that is done. */
  ghost predicate AcksDone(c: Client, issued: set<RpcId>) {
    forall i | i in c.sentAcks :: i in issued && i !in Pending(c)
  }

  /** An answered request the client still waits for has its reply kept for re-sending. */
  ghost predicate RepliesKept(s: Server, pending: set<RpcId>) {
    forall i | i in s.processed && i in pending :: i in s.outgoingReplies
  }

  /** The part of the invariant that only the client's steps can threaten. */
  ghost predicate ClientInv(c: Client, issued: map<RpcId, Issued>) {
    && ClientOk(c)
    && PendingIssued(c, issued)
    && Genuine(c.sentRequests, issued)
    && SentNotDelayed(c)
    && SentInOrder(c.sentRequests, Pending(c))
    && AcksDone(c, issued.Keys)
  }

  ghost predicate ServerInv(s: Server, sent: set<IdPayload>, issued: map<RpcId, Issued>, answered: map<RpcId, string>) {
    && ServerOk(s)
    && HoldsSent(s, sent, issued, answered.Keys)
    && RepliesFaithful(s, answered)
  }

  ghost predicate Inv(l: Link) {
    && ClientInv(l.client, l.issued)
    && ServerInv(l.server, l.client.sentRequests, l.issued, l.answered)
    && DoneAnswered(l.client, l.issued, l.answered)
    && RepliesKept(l.server, Pending(l.client))
  }

  lemma InvInit()
    ensures Inv(NEW_LINK)
  {
    assert InOrderAt(0, NEW_LINK.client.outgoing.Keys, NEW_LINK.client.delayed.Keys, 0);
  }

  // ----------------------------------------------------------------------- barriers in order

  lemma OutgoingPassed(c: Client, id: RpcId)
    requires BarriersOk(c) && id in c.outgoing
    ensures Passed(id.barrier, Pending(c))
  {
  }

  /** Sending only what is outgoing, and making nothing older pending, keeps the order of barriers. */
  lemma SentInOrderStep(c: Client, c': Client)
    requires SentInOrder(c.sentRequests, Pending(c)) && BarriersOk(c')
    requires forall r | r in c.sentRequests :: r.id.barrier <= c.onBarrier
    requires c'.sentRequests <= c.sentRequests + AsMessages(c'.outgoing)
    requires forall i | i in Pending(c') :: i in Pending(c) || c.onBarrier <= i.barrier
    ensures SentInOrder(c'.sentRequests, Pending(c'))
  {
    forall r | r in c'.sentRequests
      ensures Passed(r.id.barrier, Pending(c'))
    {
      if r in c.sentRequests {
        assert Passed(r.id.barrier, Pending(c));
      } else {
        assert r in AsMessages(c'.outgoing);
        OutgoingPassed(c', r.id);
      }
    }
  }

  // -------------------------------------------------------------------------- client steps

  ghost predicate SentAtOnce(c: Client, r: Client, request: IdPayload) {
    && (forall i | i in c.outgoing :: i.barrier == c.onBarrier)
    && r.outgoing == c.outgoing[request.id := request.payload] && r.delayed == c.delayed
    && r.sentRequests == c.sentRequests + {request}
  }

  ghost predicate Queued(c: Client, r: Client, request: IdPayload) {
    && r.outgoing == c.outgoing && r.delayed == c.delayed[request.id := request.payload]
    && r.sentRequests == c.sentRequests
  }

  /** What issuing changes, said about the fields the invariant reads. */
  lemma IssueEffect(c: Client, request: IdPayload, oneWay: bool, now: int)
    requires ClientOk(c) && request.id.barrier == c.onBarrier && request.id !in Pending(c) && !HasReply(c, request.id)
    ensures var r := IssueEither(c, request, oneWay, now);
      && ClientOk(r) && Pending(r) == Pending(c) + {request.id}
      && r.oneWay == c.oneWay + (if oneWay then {request.id} else {})
      && r.incomingReplies == c.incomingReplies && r.processedReplies == c.processedReplies
      && r.sentAcks == c.sentAcks && r.onBarrier == c.onBarrier
      && (SentAtOnce(c, r, request) || Queued(c, r, request))
  {
    if oneWay {
      IssueOneWayOk(c, request, now);
      IssueSplits(c.(oneWay := c.oneWay + {request.id}), request, now);
    } else {
      IssueOk(c, request, now);
      IssueSplits(c, request, now);
    }
  }

  /** A request is sent at once or queued, and nothing else happens. */
  lemma IssueSplits(c: Client, request: IdPayload, now: int)
    ensures var r := Issue(c, request, now);
      && r.oneWay == c.oneWay && r.incomingReplies == c.incomingReplies && r.processedReplies == c.processedReplies
      && r.sentAcks == c.sentAcks && r.onBarrier == c.onBarrier
      && (SentAtOnce(c, r, request) || Queued(c, r, request))
  {
  }

  lemma IssueSends(c: Client, r: Client, request: IdPayload)
    requires SentNotDelayed(c) && request.id !in c.delayed
    requires
      || SentAtOnce(c, r, request)
      || (Queued(c, r, request) && forall s | s in c.sentRequests :: s.id != request.id)
    ensures SentNotDelayed(r) && r.sentRequests <= c.sentRequests + AsMessages(r.outgoing)
  {
    if SentAtOnce(c, r, request) {
      assert IdPayload(request.id, r.outgoing[request.id]) in AsMessages(r.outgoing);
      forall m | m in AsMessages(r.outgoing)
        ensures m in r.sentRequests
      {
        assert m.id == request.id || m in AsMessages(c.outgoing);
      }
    }
  }

  lemma IssueKeepsIssued(c: Client, r: Client, issued: map<RpcId, Issued>, request: IdPayload, oneWay: bool)
    requires PendingIssued(c, issued) && request.id !in issued && request.id.barrier == c.onBarrier
    requires Pending(r) == Pending(c) + {request.id} && r.onBarrier == c.onBarrier
    requires r.oneWay == c.oneWay + (if oneWay then {request.id} else {})
    requires c.oneWay <= Pending(c) && (SentAtOnce(c, r, request) || Queued(c, r, request))
    ensures PendingIssued(r, issued[request.id := Issued(request.payload, oneWay)])
  {
  }

  lemma IssueKeepsOrder(c: Client, r: Client, issued: map<RpcId, Issued>, request: IdPayload)
    requires Genuine(c.sentRequests, issued) && (forall i | i in issued :: i.barrier <= c.onBarrier)
    requires SentInOrder(c.sentRequests, Pending(c)) && BarriersOk(r)
    requires Pending(r) == Pending(c) + {request.id} && request.id.barrier == c.onBarrier
    requires r.sentRequests <= c.sentRequests + AsMessages(r.outgoing)
    ensures SentInOrder(r.sentRequests, Pending(r))
  {
    SentInOrderStep(c, r);
  }

  lemma {:induction false} ClientInvIssue(c: Client, issued: map<RpcId, Issued>, request: IdPayload, oneWay: bool,
                                          now: int)
    requires ClientInv(c, issued) && request.id.barrier == c.onBarrier && request.id !in issued
    requires !HasReply(c, request.id)
    ensures ClientInv(IssueEither(c, request, oneWay, now), issued[request.id := Issued(request.payload, oneWay)])
  {
    assert request.id !in Pending(c);
    IssueEffect(c, request, oneWay, now);
    var r := IssueEither(c, request, oneWay, now);
    IssueSends(c, r, request);
    IssueKeepsIssued(c, r, issued, request, oneWay);
    IssueKeepsOrder(c, r, issued, request);
  }

  lemma ClientInvRaiseBarrier(c: Client, issued: map<RpcId, Issued>)
    requires ClientInv(c, issued)
    ensures ClientInv(RaiseBarrier(c), issued)
  {
    var front :| InOrderAt(front, c.outgoing.Keys, c.delayed.Keys, c.onBarrier);
    assert InOrderAt(front, c.outgoing.Keys, c.delayed.Keys, c.onBarrier + 1);
  }

  lemma ClientInvTakeReply(c: Client, issued: map<RpcId, Issued>, id: RpcId)
    requires ClientInv(c, issued) && id in c.incomingReplies
    ensures ClientInv(TakeReply(c, id), issued)
  {
    assert Pending(TakeReply(c, id)) == Pending(c);
  }

  lemma ResendRequestsIsIdle(c: Client, ids: set<RpcId>)
    requires SentNotDelayed(c) && ids <= c.outgoing.Keys
    ensures ResendRequests(c, ids) == c
  {
    assert forall i | i in ids :: IdPayload(i, c.outgoing[i]) in AsMessages(c.outgoing);
  }

  lemma ReleaseSends(c: Client, id: RpcId, now: int)
    requires id in c.outgoing && AsMessages(c.outgoing) <= c.sentRequests
    ensures var r := EraseAndRelease(c, id, now); r.sentRequests == c.sentRequests + AsMessages(r.outgoing)
  {
    var erased := c.(outgoing := c.outgoing - {id});
    assert AsMessages(erased.outgoing) <= AsMessages(c.outgoing);
  }

  /** What a useful reply changes in the request queues. */
  ghost predicate Moved(c: Client, r: Client, id: RpcId) {
    && Pending(r) == Pending(c) - {id}
    && (forall i | i in r.outgoing ::
      r.outgoing[i] == if i in c.outgoing then c.outgoing[i] else if i in c.delayed then c.delayed[i] else "")
    && (forall i | i in r.delayed :: i in c.delayed && r.delayed[i] == c.delayed[i])
    && r.sentRequests == c.sentRequests + AsMessages(r.outgoing)
    && r.onBarrier == c.onBarrier
  }

  lemma ReplyMoves(c: Client, id: RpcId, payload: string, now: int)
    requires BarriersOk(c) && c.outgoing.Keys !! c.delayed.Keys && !HasReply(c, id)
    requires id in c.outgoing && AsMessages(c.outgoing) <= c.sentRequests
    ensures Moved(c, OnReply(c, id, payload, now), id)
  {
    EraseAndReleaseOk(c, id, now);
    ReleaseSends(c, id, now);
    DeliverLeaves(EraseAndRelease(c, id, now), id, payload);
  }

  /** Delivering a reply does not touch what is pending or sent. */
  lemma DeliverLeaves(e: Client, id: RpcId, payload: string)
    ensures var r := Deliver(e, id, payload);
      && r.outgoing == e.outgoing && r.delayed == e.delayed && r.onBarrier == e.onBarrier
      && r.sentRequests == e.sentRequests && Pending(r) == Pending(e)
  {
  }

  /** What a useful reply changes elsewhere. */
  lemma ReplyDelivers(c: Client, id: RpcId, payload: string, now: int)
    requires id in c.outgoing && !HasReply(c, id)
    ensures var r := OnReply(c, id, payload, now);
      && r.oneWay == c.oneWay - {id}
      && r.incomingReplies == (if id in c.oneWay then c.incomingReplies else c.incomingReplies[id := payload])
      && r.processedReplies == c.processedReplies
      && r.sentAcks == c.sentAcks + {id}
  {
  }

  lemma MovedKeepsIssued(c: Client, r: Client, id: RpcId, issued: map<RpcId, Issued>)
    requires PendingIssued(c, issued) && Moved(c, r, id) && r.oneWay == c.oneWay - {id}
    ensures PendingIssued(r, issued)
  {
    forall i | i in r.outgoing
      ensures i in issued && r.outgoing[i] == issued[i].payload
    {
      assert i in Pending(r);
      assert i in Pending(c);
    }
  }

  lemma MovedKeepsSent(c: Client, r: Client, id: RpcId, issued: map<RpcId, Issued>)
    requires Genuine(c.sentRequests, issued) && SentNotDelayed(c) && Moved(c, r, id)
    requires PendingIssued(r, issued) && r.outgoing.Keys !! r.delayed.Keys
    ensures Genuine(r.sentRequests, issued) && SentNotDelayed(r)
  {
  }

  lemma {:induction false} ClientInvUsefulReply(c: Client, issued: map<RpcId, Issued>, id: RpcId, payload: string,
                                                now: int)
    requires ClientInv(c, issued) && id in c.outgoing
    ensures ClientInv(OnReply(c, id, payload, now), issued)
    ensures Pending(OnReply(c, id, payload, now)) == Pending(c) - {id}
  {
    assert id in Pending(c);
    OnReplyOk(c, id, payload, now);
    ReplyMoves(c, id, payload, now);
    ReplyDelivers(c, id, payload, now);
    var r := OnReply(c, id, payload, now);
    MovedKeepsIssued(c, r, id, issued);
    MovedKeepsSent(c, r, id, issued);
    SentInOrderStep(c, r);
  }

  lemma ClientInvOldReply(c: Client, issued: map<RpcId, Issued>, id: RpcId, payload: string, now: int)
    requires ClientInv(c, issued) && id in issued && id !in Pending(c)
    ensures ClientInv(OnReply(c, id, payload, now), issued)
    ensures Pending(OnReply(c, id, payload, now)) == Pending(c)
  {
  }

  // -------------------------------------------------------------------------- server steps

  lemma HoldsSentGrows(s: Server, sent: set<IdPayload>, sent': set<IdPayload>,
                       issued: map<RpcId, Issued>, issued': map<RpcId, Issued>, answered: set<RpcId>)
    requires HoldsSent(s, sent, issued, answered)
    requires sent <= sent' && forall i | i in issued :: i in issued' && issued'[i] == issued[i]
    ensures HoldsSent(s, sent', issued', answered)
  {
  }

  lemma ServerInvAnswer(s: Server, sent: set<IdPayload>, issued: map<RpcId, Issued>, answered: map<RpcId, string>,
                        id: RpcId, payload: string, now: int)
    requires ServerInv(s, sent, issued, answered) && Genuine(sent, issued) && id in s.incoming
    ensures ServerInv(Answer(s, id, payload, now), sent, issued, answered[id := payload])
  {
    AnswerOk(s, id, payload, now);
    var r := Answer(s, id, payload, now);
    assert IdPayload(id, s.incoming[id]) in sent;
    assert RepliedIds(r) == RepliedIds(s) + {id};
  }

  lemma ServerInvAccept(s: Server, sent: set<IdPayload>, issued: map<RpcId, Issued>, answered: map<RpcId, string>,
                        request: IdPayload, now: int)
    requires ServerInv(s, sent, issued, answered) && request in sent && !Seen(s, request.id)
    ensures ServerInv(Accept(s, request, now), sent, issued, answered)
  {
    var r := Accept(s, request, now);
    assert RepliedIds(r) == RepliedIds(s);
  }

  lemma ServerInvAck(s: Server, sent: set<IdPayload>, issued: map<RpcId, Issued>, answered: map<RpcId, string>,
                     id: RpcId)
    requires ServerInv(s, sent, issued, answered)
    ensures ServerInv(OnAck(s, id), sent, issued, answered)
  {
    OnAckOk(s, id);
    assert RepliedIds(OnAck(s, id)) == RepliedIds(s);
  }

  lemma ServerInvResend(s: Server, sent: set<IdPayload>, issued: map<RpcId, Issued>, answered: map<RpcId, string>,
                        times: map<RpcId, int>)
    requires ServerInv(s, sent, issued, answered) && times.Keys <= s.outgoingReplies.Keys
    ensures ServerInv(ResendReplies(s, times), sent, issued, answered)
  {
    assert RepliedIds(s) <= RepliedIds(ResendReplies(s, times));
  }

  // ---------------------------------------------------------------------------- link steps

  lemma DoneAnsweredIssue(l: Link, request: IdPayload, oneWay: bool, now: int)
    requires ClientOk(l.client) && DoneAnswered(l.client, l.issued, l.answered) && PendingIssued(l.client, l.issued)
    requires Enabled(l, IssueRequest(request, oneWay, now))
    ensures var l' := Apply(l, IssueRequest(request, oneWay, now)); DoneAnswered(l'.client, l'.issued, l'.answered)
  {
    IssueEffect(l.client, request, oneWay, now);
  }

  lemma InvIssue(l: Link, request: IdPayload, oneWay: bool, now: int)
    requires Inv(l) && Enabled(l, IssueRequest(request, oneWay, now))
    ensures Inv(Apply(l, IssueRequest(request, oneWay, now)))
  {
    ClientInvIssue(l.client, l.issued, request, oneWay, now);
    ServerInvIssue(l, request, oneWay, now);
    DoneAnsweredIssue(l, request, oneWay, now);
  }

  lemma ServerInvIssue(l: Link, request: IdPayload, oneWay: bool, now: int)
    requires Inv(l) && Enabled(l, IssueRequest(request, oneWay, now))
    ensures var l' := Apply(l, IssueRequest(request, oneWay, now));
      ServerInv(l'.server, l'.client.sentRequests, l'.issued, l'.answered) && RepliesKept(l'.server, Pending(l'.client))
  {
    var l' := Apply(l, IssueRequest(request, oneWay, now));
    IssueEffect(l.client, request, oneWay, now);
    HoldsSentGrows(l.server, l.client.sentRequests, l'.client.sentRequests, l.issued, l'.issued, l.answered.Keys);
  }

  lemma DoneAnsweredReply(c: Client, issued: map<RpcId, Issued>, answered: map<RpcId, string>, id: RpcId, now: int)
    requires DoneAnswered(c, issued, answered) && PendingIssued(c, issued)
    requires id in c.outgoing && id in answered
    requires Pending(OnReply(c, id, answered[id], now)) == Pending(c) - {id}
    ensures DoneAnswered(OnReply(c, id, answered[id], now), issued, answered)
  {
    assert id in Pending(c);
    ReplyDelivers(c, id, answered[id], now);
  }

  lemma InvUsefulReply(l: Link, reply: StampedReply, now: int)
    requires Inv(l) && Enabled(l, ReceiveReply(reply, now)) && reply.id in l.client.outgoing
    ensures Inv(Apply(l, ReceiveReply(reply, now)))
  {
    var id := reply.id;
    var l' := Apply(l, ReceiveReply(reply, now));
    assert id in Pending(l.client);
    ClientInvUsefulReply(l.client, l.issued, id, reply.payload, now);
    DoneAnsweredReply(l.client, l.issued, l.answered, id, now);
    ReplyMoves(l.client, id, reply.payload, now);
    HoldsSentGrows(l.server, l.client.sentRequests, l'.client.sentRequests, l.issued, l.issued, l.answered.Keys);
  }

  /** A reply to anything but an outgoing request is a reply the client has had before. */
  lemma InvOldReply(l: Link, reply: StampedReply, now: int)
    requires Inv(l) && Enabled(l, ReceiveReply(reply, now)) && reply.id !in l.client.outgoing
    ensures Inv(Apply(l, ReceiveReply(reply, now)))
    ensures Done(l, reply.id)
  {
    assert IdPayload(reply.id, l.issued[reply.id].payload) in l.client.sentRequests;
    ClientInvOldReply(l.client, l.issued, reply.id, reply.payload, now);
  }

  lemma InvReceiveReply(l: Link, reply: StampedReply, now: int)
    requires Inv(l) && Enabled(l, ReceiveReply(reply, now))
    ensures Inv(Apply(l, ReceiveReply(reply, now)))
  {
    if reply.id in l.client.outgoing {
      InvUsefulReply(l, reply, now);
    } else {
      InvOldReply(l, reply, now);
    }
  }

  lemma InvReceiveRequest(l: Link, request: IdPayload, now: int)
    requires Inv(l) && Enabled(l, ReceiveRequest(request, now))
    ensures Inv(Apply(l, ReceiveRequest(request, now)))
  {
    var s, sent := l.server, l.client.sentRequests;
    if !Seen(s, request.id) {
      ServerInvAccept(s, sent, l.issued, l.answered, request, now);
      if request.payload == PING || request.payload == SHUTDOWN {
        ServerInvAnswer(Accept(s, request, now), sent, l.issued, l.answered, request.id,
          AutomaticReply(request.payload), now);
      }
    }
  }

  lemma InvAnswer(l: Link, id: RpcId, payload: string, now: int)
    requires Inv(l) && Enabled(l, AnswerRequest(id, payload, now))
    ensures Inv(Apply(l, AnswerRequest(id, payload, now)))
  {
    ServerInvAnswer(l.server, l.client.sentRequests, l.issued, l.answered, id, payload, now);
  }

  lemma InvReceiveAck(l: Link, id: RpcId)
    requires Inv(l) && Enabled(l, ReceiveAck(id))
    ensures Inv(Apply(l, ReceiveAck(id)))
  {
    ServerInvAck(l.server, l.client.sentRequests, l.issued, l.answered, id);
  }

  /** Every step keeps the invariant. */
  lemma InvStep(l: Link, a: Action)
    requires Inv(l) && Enabled(l, a)
    ensures Inv(Apply(l, a))
  {
    match a
    case IssueRequest(request, oneWay, now) => InvIssue(l, request, oneWay, now);
    case RaiseTheBarrier => InvIdle(l, a);
    case ConsumeReply(id) => InvIdle(l, a);
    case ResendSomeRequests(ids) => InvIdle(l, a);
    case ReceiveReply(reply, now) => InvReceiveReply(l, reply, now);
    case ReceiveRequest(request, now) => InvReceiveRequest(l, request, now);
    case AnswerRequest(id, payload, now) => InvAnswer(l, id, payload, now);
    case ReceiveAck(id) => InvReceiveAck(l, id);
    case ResendSomeReplies(times) => InvResendReplies(l, times);
  }

  /** The client steps that leave every request where it is. */
  lemma InvIdle(l: Link, a: Action)
    requires Inv(l) && Enabled(l, a) && (a.RaiseTheBarrier? || a.ConsumeReply? || a.ResendSomeRequests?)
    ensures Inv(Apply(l, a))
  {
    match a
    case RaiseTheBarrier => InvRaiseBarrier(l);
    case ConsumeReply(id) => InvTakeReply(l, id);
    case ResendSomeRequests(ids) => ResendRequestsIsIdle(l.client, ids);
  }

  lemma InvRaiseBarrier(l: Link)
    requires Inv(l)
    ensures Inv(Apply(l, RaiseTheBarrier))
  {
    ClientInvRaiseBarrier(l.client, l.issued);
  }

  lemma InvTakeReply(l: Link, id: RpcId)
    requires Inv(l) && Enabled(l, ConsumeReply(id))
    ensures Inv(Apply(l, ConsumeReply(id)))
  {
    ClientInvTakeReply(l.client, l.issued, id);
  }

  lemma InvResendReplies(l: Link, times: map<RpcId, int>)
    requires Inv(l) && Enabled(l, ResendSomeReplies(times))
    ensures Inv(Apply(l, ResendSomeReplies(times)))
  {
    ServerInvResend(l.server, l.client.sentRequests, l.issued, l.answered, times);
  }
}
