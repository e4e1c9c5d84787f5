/** The state of one `BiDirectionalRpc` node and the effect of each of its handlers. */
module RpcState {
  // A node plays two roles that share no map. As a client it issues requests and collects their replies; as
  // a server it holds the peer's requests and answers them. Each role is a datatype of its own, so every
  // handler is a function on one of the two.
  //
  // The network is a set of everything a role has ever sent. Nothing is removed from it, so a receiver may
  // be handed any of it any number of times, in any order, or never.


  datatype RpcId = RpcId(barrier: int, id: nat)

  datatype IdPayload = IdPayload(id: RpcId, payload: string)

  /** A reply carries the two server-side clock readings the clock synchroniser needs. */
  datatype StampedReply = StampedReply(id: RpcId, receiveTime: int, sendTime: int, payload: string)

  const PING := "PING"
  const PONG := "PONG"
  const SHUTDOWN := "SHUTDOWN"
  const SHUTDOWN_REPLY := "SHUTDOWN_REPLY"

  datatype Client = Client(
    delayed: map<RpcId, string>,
    outgoing: map<RpcId, string>,
    oneWay: set<RpcId>,
    incomingReplies: map<RpcId, string>,
    processedReplies: set<RpcId>,
    onBarrier: int,
    sendTimes: map<RpcId, int>,
    sentRequests: set<IdPayload>,
    sentAcks: set<RpcId>)

  datatype Server = Server(
    incoming: map<RpcId, string>,
    outgoingReplies: map<RpcId, string>,
    processed: set<RpcId>,
    receiveTimes: map<RpcId, int>,
    sentReplies: set<StampedReply>)

  const NEW_CLIENT := Client(map[], map[], {}, map[], {}, 0, map[], {}, {})
  const NEW_SERVER := Server(map[], map[], {}, map[], {})

  // ---------------------------------------------------------------- what each role keeps

  ghost predicate InOrderAt(front: int, outgoing: set<RpcId>, delayed: set<RpcId>, onBarrier: int) {
    && (forall i | i in outgoing :: i.barrier == front)
    && (forall i | i in delayed :: front < i.barrier <= onBarrier)
    && front <= onBarrier
    && (outgoing == {} ==> delayed == {})
  }

  /** Outgoing requests share one barrier, delayed ones are later and never wait for nothing. */
  ghost predicate InOrder(outgoing: set<RpcId>, delayed: set<RpcId>, onBarrier: int) {
    exists front :: InOrderAt(front, outgoing, delayed, onBarrier)
  }

  ghost predicate BarriersOk(c: Client) {
    InOrder(c.outgoing.Keys, c.delayed.Keys, c.onBarrier)
  }

  /** The maps of the client role, the clock's send times among them, agree on their keys. */
  ghost predicate BooksOk(c: Client) {
    && c.delayed.Keys !! c.outgoing.Keys
    && c.oneWay <= Pending(c)
    && c.sendTimes.Keys == c.outgoing.Keys
    && c.incomingReplies.Keys !! c.processedReplies
    && c.incomingReplies.Keys !! Pending(c)
    && c.processedReplies !! Pending(c)
  }

  ghost predicate ClientOk(c: Client) {
    BarriersOk(c) && BooksOk(c)
  }

  /** The bookkeeping of the server role. */
  ghost predicate ServerOk(s: Server) {
    && s.receiveTimes.Keys == s.incoming.Keys + s.outgoingReplies.Keys
    && s.incoming.Keys !! s.processed
    && s.outgoingReplies.Keys <= s.processed
  }

  // ------------------------------------------------------------------------- client role

  /** The ids the client still waits for. */
  ghost function Pending(c: Client): set<RpcId> {
    c.outgoing.Keys + c.delayed.Keys
  }

  /** requestWithId: send now, or queue behind the requests of an older barrier. */
  ghost function Issue(c: Client, request: IdPayload, now: int): Client {
    if forall i | i in c.outgoing :: i.barrier == c.onBarrier then
      c.(outgoing := c.outgoing[request.id := request.payload],
         sendTimes := c.sendTimes[request.id := now],
         sentRequests := c.sentRequests + {request})
    else
      c.(delayed := c.delayed[request.id := request.payload])
  }

  ghost function IssueOneWay(c: Client, request: IdPayload, now: int): Client {
    Issue(c.(oneWay := c.oneWay + {request.id}), request, now)
  }

  ghost predicate IsLowestBarrier(ids: set<RpcId>, barrier: int) {
    && (exists i :: i in ids && i.barrier == barrier)
    && (forall i | i in ids :: barrier <= i.barrier)
  }

  lemma LowestBarrierExists(ids: set<RpcId>)
    requires ids != {}
    ensures exists b :: IsLowestBarrier(ids, b)
  {
    var i :| i in ids;
    var rest := ids - {i};
    if rest == {} {
      assert ids == {i};
      assert IsLowestBarrier(ids, i.barrier);
    } else {
      LowestBarrierExists(rest);
      var b :| IsLowestBarrier(rest, b);
      assert IsLowestBarrier(ids, if b < i.barrier then b else i.barrier);
    }
  }

  lemma LowestBarrierIsUnique(ids: set<RpcId>, b1: int, b2: int)
    requires IsLowestBarrier(ids, b1) && IsLowestBarrier(ids, b2)
    ensures b1 == b2
  {
    var i :| i in ids && i.barrier == b1;
    var j :| j in ids && j.barrier == b2;
  }

  ghost function LowestBarrier(ids: set<RpcId>): (b: int)
    requires ids != {}
    ensures IsLowestBarrier(ids, b)
  {
    LowestBarrierExists(ids);
    var b :| IsLowestBarrier(ids, b);
    b
  }

  ghost function WithBarrier(requests: map<RpcId, string>, barrier: int): map<RpcId, string> {
    map i | i in requests && i.barrier == barrier :: requests[i]
  }

  /** The same time stamp for every id. */
  ghost function StampAll(ids: set<RpcId>, stamp: int): map<RpcId, int> {
    map i | i in ids :: stamp
  }

  /** Every entry of `requests` as a message. */
  ghost function AsMessages(requests: map<RpcId, string>): set<IdPayload> {
    set i | i in requests :: IdPayload(i, requests[i])
  }

  /** The delayed requests of one barrier become outgoing, timed and sent. */
  ghost function ReleaseBarrier(c: Client, barrier: int, now: int): Client {
    var next := WithBarrier(c.delayed, barrier);
    c.(outgoing := next,
       delayed := c.delayed - next.Keys,
       sendTimes := c.sendTimes + StampAll(next.Keys, now),
       sentRequests := c.sentRequests + AsMessages(next))
  }

  /** tryToSendBarrier: once nothing is outgoing, send all delayed requests of the lowest barrier. */
  ghost function Release(c: Client, now: int): Client {
    if c.delayed.Keys == {} || c.outgoing.Keys != {} then c
    else ReleaseBarrier(c, LowestBarrier(c.delayed.Keys), now)
  }

  ghost predicate HasReply(c: Client, id: RpcId) {
    id in c.incomingReplies || id in c.processedReplies
  }

  /** The client just after the erase in handleReply and the tryToSendBarrier that follows it. */
  ghost function EraseAndRelease(c: Client, id: RpcId, now: int): Client {
    Release(c.(outgoing := c.outgoing - {id}), now)
  }

  /** The rest of handleReply: store the reply unless the request was one-way, acknowledge, drop the send time. */
  ghost function Deliver(c: Client, id: RpcId, payload: string): Client {
    var delivered :=
      if id in c.oneWay then c.(oneWay := c.oneWay - {id})
      else c.(incomingReplies := c.incomingReplies[id := payload]);
    delivered.(sentAcks := c.sentAcks + {id}, sendTimes := c.sendTimes - {id})
  }

  /** handleReply: every branch acknowledges; only a reply to an outgoing request has any other effect. */
  ghost function OnReply(c: Client, id: RpcId, payload: string, now: int): Client {
    if !HasReply(c, id) && id in c.outgoing then
      Deliver(EraseAndRelease(c, id, now), id, payload)
    else
      c.(sentAcks := c.sentAcks + {id})
  }

  /** getFirstIncomingReply and consumeIncomingReplyWithId. */
  ghost function TakeReply(c: Client, id: RpcId): Client {
    c.(processedReplies := c.processedReplies + {id}, incomingReplies := c.incomingReplies - {id})
  }

  ghost function RaiseBarrier(c: Client): Client {
    c.(onBarrier := c.onBarrier + 1)
  }

  ghost function MessagesOf(requests: map<RpcId, string>, ids: set<RpcId>): set<IdPayload>
    requires ids <= requests.Keys
  {
    set i | i in ids :: IdPayload(i, requests[i])
  }

  /** A batched resend of some outgoing requests. */
  ghost function ResendRequests(c: Client, ids: set<RpcId>): Client
    requires ids <= c.outgoing.Keys
  {
    c.(sentRequests := c.sentRequests + MessagesOf(c.outgoing, ids))
  }

  // ------------------------------------------------------------------------- server role

  /** reply. */
  ghost function Answer(s: Server, id: RpcId, payload: string, now: int): Server
    requires id in s.receiveTimes
  {
    s.(incoming := s.incoming - {id},
       processed := s.processed + {id},
       outgoingReplies := s.outgoingReplies[id := payload],
       sentReplies := s.sentReplies + {StampedReply(id, s.receiveTimes[id], now, payload)})
  }

  /** The reply the node gives on its own to its two control requests. */
  ghost function AutomaticReply(payload: string): string
    requires payload == PING || payload == SHUTDOWN
  {
    if payload == PING then PONG else SHUTDOWN_REPLY
  }

  /** addIncomingRequest. */
  ghost function Accept(s: Server, request: IdPayload, now: int): Server {
    s.(receiveTimes := s.receiveTimes[request.id := now],
       incoming := s.incoming[request.id := request.payload])
  }

  ghost predicate Seen(s: Server, id: RpcId) {
    id in s.incoming || id in s.processed
  }

  /** handleRequest. */
  ghost function OnRequest(s: Server, request: IdPayload, now: int): Server
    requires s.outgoingReplies.Keys <= s.receiveTimes.Keys
  {
    var id := request.id;
    if Seen(s, id) then s
    else if id in s.outgoingReplies then
      s.(sentReplies := s.sentReplies + {StampedReply(id, s.receiveTimes[id], now, s.outgoingReplies[id])})
    else if request.payload == PING || request.payload == SHUTDOWN then
      Answer(Accept(s, request, now), id, AutomaticReply(request.payload), now)
    else
      Accept(s, request, now)
  }

  /** The ACKNOWLEDGE branch of receive. */
  ghost function OnAck(s: Server, id: RpcId): Server {
    if id in s.outgoingReplies then
      s.(outgoingReplies := s.outgoingReplies - {id}, receiveTimes := s.receiveTimes - {id})
    else s
  }

  /** Stored replies as messages, each stamped with its receive time and the time it is sent. */
  ghost function StampedReplies(replies: map<RpcId, string>, times: map<RpcId, int>, sent: map<RpcId, int>)
    : set<StampedReply>
    requires sent.Keys <= replies.Keys <= times.Keys
  {
    set i | i in sent :: StampedReply(i, times[i], sent[i], replies[i])
  }

  /** A batched resend of some outgoing replies, the clock being read for each of them. */
  ghost function ResendReplies(s: Server, sent: map<RpcId, int>): Server
    requires sent.Keys <= s.outgoingReplies.Keys <= s.receiveTimes.Keys
  {
    s.(sentReplies := s.sentReplies + StampedReplies(s.outgoingReplies, s.receiveTimes, sent))
  }

  // ------------------------------------------------------------ the handlers keep the books

  lemma IssueInOrder(outgoing: set<RpcId>, delayed: set<RpcId>, onBarrier: int, id: RpcId)
    requires InOrder(outgoing, delayed, onBarrier) && id.barrier == onBarrier
    ensures if forall i | i in outgoing :: i.barrier == onBarrier
      then InOrder(outgoing + {id}, delayed, onBarrier)
      else InOrder(outgoing, delayed + {id}, onBarrier)
  {
    var front :| InOrderAt(front, outgoing, delayed, onBarrier);
    if forall i | i in outgoing :: i.barrier == onBarrier {
      assert InOrderAt(onBarrier, outgoing + {id}, delayed, onBarrier);
    } else {
      assert InOrderAt(front, outgoing, delayed + {id}, onBarrier);
    }
  }

  lemma IssueOk(c: Client, request: IdPayload, now: int)
    requires ClientOk(c) && request.id.barrier == c.onBarrier
    requires request.id !in Pending(c) && !HasReply(c, request.id)
    ensures ClientOk(Issue(c, request, now))
    ensures Pending(Issue(c, request, now)) == Pending(c) + {request.id}
  {
    IssueInOrder(c.outgoing.Keys, c.delayed.Keys, c.onBarrier, request.id);
    IssueKeys(c, request, now);
    IssueBooks(c, request, now);
  }

  lemma IssueKeys(c: Client, request: IdPayload, now: int)
    ensures var r := Issue(c, request, now);
      if forall i | i in c.outgoing :: i.barrier == c.onBarrier
      then r.outgoing.Keys == c.outgoing.Keys + {request.id} && r.delayed == c.delayed && r.onBarrier == c.onBarrier
      else r.delayed.Keys == c.delayed.Keys + {request.id} && r.outgoing == c.outgoing && r.onBarrier == c.onBarrier
  {
  }

  lemma IssueBooks(c: Client, request: IdPayload, now: int)
    requires BooksOk(c) && request.id !in Pending(c) && !HasReply(c, request.id)
    ensures BooksOk(Issue(c, request, now)) && Pending(Issue(c, request, now)) == Pending(c) + {request.id}
  {
    IssueKeys(c, request, now);
  }

  lemma IssueOneWayOk(c: Client, request: IdPayload, now: int)
    requires ClientOk(c) && request.id.barrier == c.onBarrier
    requires request.id !in Pending(c) && !HasReply(c, request.id)
    ensures ClientOk(IssueOneWay(c, request, now))
    ensures Pending(IssueOneWay(c, request, now)) == Pending(c) + {request.id}
  {
    IssueOk(c, request, now);
    var r := Issue(c, request, now);
    assert IssueOneWay(c, request, now) == r.(oneWay := c.oneWay + {request.id});
  }

  lemma ReleaseInOrder(delayed: set<RpcId>, lowest: int, onBarrier: int)
    requires IsLowestBarrier(delayed, lowest) && forall i | i in delayed :: i.barrier <= onBarrier
    ensures var next := set i | i in delayed && i.barrier == lowest;
      InOrder(next, delayed - next, onBarrier)
  {
    var i :| i in delayed && i.barrier == lowest;
    var next := set i | i in delayed && i.barrier == lowest;
    assert i in next;
    assert InOrderAt(lowest, next, delayed - next, onBarrier);
  }

  /** Release only moves requests, never loses or invents one, and restores the barrier discipline. */
  lemma ReleaseOk(c: Client, now: int)
    requires c.outgoing.Keys == {}
    requires forall i | i in c.delayed.Keys :: i.barrier <= c.onBarrier
    ensures var r := Release(c, now);
      && BarriersOk(r)
      && r.outgoing.Keys + r.delayed.Keys == c.delayed.Keys
      && r.outgoing.Keys !! r.delayed.Keys
      && (forall i | i in r.outgoing :: i in c.delayed && r.outgoing[i] == c.delayed[i])
      && (forall i | i in r.delayed :: i in c.delayed && r.delayed[i] == c.delayed[i])
  {
    if c.delayed.Keys == {} {
      assert InOrderAt(c.onBarrier, c.outgoing.Keys, c.delayed.Keys, c.onBarrier);
    } else {
      var keys := c.delayed.Keys;
      var lowest := LowestBarrier(keys);
      ReleaseInOrder(keys, lowest, c.onBarrier);
      var r := Release(c, now);
      var next := set i | i in keys && i.barrier == lowest;
      assert r.outgoing.Keys == next;
      assert r.delayed.Keys == keys - next;
    }
  }

  lemma EraseAndReleaseOk(c: Client, id: RpcId, now: int)
    requires BarriersOk(c) && id in c.outgoing && c.outgoing.Keys !! c.delayed.Keys
    ensures var r := EraseAndRelease(c, id, now);
      && BarriersOk(r)
      && r.outgoing.Keys !! r.delayed.Keys
      && Pending(r) == Pending(c) - {id}
      && (forall i | i in r.outgoing :: r.outgoing[i] == if i in c.outgoing then c.outgoing[i] else c.delayed[i])
      && (forall i | i in r.delayed :: i in c.delayed && r.delayed[i] == c.delayed[i])
  {
    var erased := c.(outgoing := c.outgoing - {id});
    var front :| InOrderAt(front, c.outgoing.Keys, c.delayed.Keys, c.onBarrier);
    assert erased.outgoing.Keys == c.outgoing.Keys - {id};
    if erased.outgoing.Keys == {} {
      ReleaseOk(erased, now);
    } else {
      assert InOrderAt(front, erased.outgoing.Keys, c.delayed.Keys, c.onBarrier);
    }
  }

  lemma EraseAndReleaseSendTimes(c: Client, id: RpcId, now: int)
    requires c.sendTimes.Keys == c.outgoing.Keys && id in c.outgoing
    ensures EraseAndRelease(c, id, now).sendTimes.Keys == EraseAndRelease(c, id, now).outgoing.Keys + {id}
  {
    var erased := c.(outgoing := c.outgoing - {id});
    assert erased.outgoing.Keys == c.outgoing.Keys - {id};
  }

  lemma DeliverOk(c: Client, id: RpcId, payload: string)
    requires c.delayed.Keys !! c.outgoing.Keys && id !in Pending(c)
    requires c.oneWay <= Pending(c) + {id} && c.sendTimes.Keys == c.outgoing.Keys + {id}
    requires c.incomingReplies.Keys !! c.processedReplies && !HasReply(c, id)
    requires c.incomingReplies.Keys !! Pending(c) && c.processedReplies !! Pending(c)
    ensures BooksOk(Deliver(c, id, payload))
  {
    var d := Deliver(c, id, payload);
    assert Pending(d) == Pending(c);
    assert d.incomingReplies.Keys <= c.incomingReplies.Keys + {id};
  }

  lemma OnReplyOk(c: Client, id: RpcId, payload: string, now: int)
    requires ClientOk(c)
    ensures ClientOk(OnReply(c, id, payload, now))
    ensures Pending(OnReply(c, id, payload, now)) == Pending(c) - (if id in c.outgoing then {id} else {})
  {
    if id in c.outgoing {
      assert id in Pending(c);
      EraseAndReleaseOk(c, id, now);
      EraseAndReleaseSendTimes(c, id, now);
      DeliverOk(EraseAndRelease(c, id, now), id, payload);
    }
  }

  lemma OnRequestOk(s: Server, request: IdPayload, now: int)
    requires ServerOk(s)
    ensures ServerOk(OnRequest(s, request, now))
  {
  }

  lemma AnswerOk(s: Server, id: RpcId, payload: string, now: int)
    requires ServerOk(s) && id in s.incoming
    ensures ServerOk(Answer(s, id, payload, now))
  {
  }

  lemma ResendRequestsOk(c: Client, ids: set<RpcId>)
    requires ClientOk(c) && ids <= c.outgoing.Keys
    ensures ClientOk(ResendRequests(c, ids))
  {
  }

  lemma ResendRepliesOk(s: Server, sent: map<RpcId, int>)
    requires ServerOk(s) && sent.Keys <= s.outgoingReplies.Keys
    ensures ServerOk(ResendReplies(s, sent))
  {
  }

  lemma OnAckOk(s: Server, id: RpcId)
    requires ServerOk(s)
    ensures ServerOk(OnAck(s, id))
  {
  }

  /** The branch of handleRequest that re-sends a stored reply can never be taken. */
  lemma StoredReplyIsNeverResentOnRequest(s: Server, request: IdPayload)
    requires ServerOk(s) && request.id in s.outgoingReplies
    ensures Seen(s, request.id)
  {
  }
}
