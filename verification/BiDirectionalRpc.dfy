/**
 The node itself: every public method of `BiDirectionalRpc` as one atomic step on its maps,
 proved to be the corresponding function of `RpcState` on the role it touches.

 `wire` logs the packets handed to the virtual send(). Each method takes the readings it
 depends on: `raw` from the clock (in a batch, for each reply), and fresh random ids.
 */
module Rpc {
  import opened RpcState
  import opened Clock

  datatype Packet =
    | RequestPacket(requests: seq<IdPayload>)
    | ReplyPacket(replies: seq<StampedReply>)
    | AcknowledgePacket(id: RpcId)

  // ------------------------------------------------------------------- the messages in a log

  ghost function RequestsOf(p: Packet): set<IdPayload> {
    if p.RequestPacket? then set r | r in p.requests else {}
  }

  ghost function RepliesOf(p: Packet): set<StampedReply> {
    if p.ReplyPacket? then set r | r in p.replies else {}
  }

  ghost function AcksOf(p: Packet): set<RpcId> {
    if p.AcknowledgePacket? then {p.id} else {}
  }

  ghost function RequestsIn(wire: seq<Packet>): set<IdPayload> {
    if wire == [] then {} else RequestsIn(wire[..|wire| - 1]) + RequestsOf(wire[|wire| - 1])
  }

  ghost function RepliesIn(wire: seq<Packet>): set<StampedReply> {
    if wire == [] then {} else RepliesIn(wire[..|wire| - 1]) + RepliesOf(wire[|wire| - 1])
  }

  ghost function AcksIn(wire: seq<Packet>): set<RpcId> {
    if wire == [] then {} else AcksIn(wire[..|wire| - 1]) + AcksOf(wire[|wire| - 1])
  }

  ghost predicate AddsRequests(before: seq<Packet>, after: seq<Packet>, requests: set<IdPayload>) {
    && RequestsIn(after) == RequestsIn(before) + requests
    && RepliesIn(after) == RepliesIn(before) && AcksIn(after) == AcksIn(before)
  }

  ghost predicate AddsReplies(before: seq<Packet>, after: seq<Packet>, replies: set<StampedReply>) {
    && RepliesIn(after) == RepliesIn(before) + replies
    && RequestsIn(after) == RequestsIn(before) && AcksIn(after) == AcksIn(before)
  }

  ghost predicate AddsAck(before: seq<Packet>, after: seq<Packet>, id: RpcId) {
    && AcksIn(after) == AcksIn(before) + {id}
    && RequestsIn(after) == RequestsIn(before) && RepliesIn(after) == RepliesIn(before)
  }

  lemma AppendAdds(wire: seq<Packet>, p: Packet)
    ensures p.RequestPacket? ==> AddsRequests(wire, wire + [p], RequestsOf(p))
    ensures p.ReplyPacket? ==> AddsReplies(wire, wire + [p], RepliesOf(p))
    ensures p.AcknowledgePacket? ==> AddsAck(wire, wire + [p], p.id)
  {
    assert (wire + [p])[..|wire|] == wire;
  }

  lemma ReplyHandled(c: Client, reply: StampedReply, now: int) returns (d: Client)
    requires ClientOk(c)
    ensures d == OnReply(c, reply.id, reply.payload, now) && ClientOk(d)
    ensures reply.id in c.outgoing ==> reply.id in c.sendTimes && c.delayed.Keys !! c.sendTimes.Keys
  {
    OutgoingIsTimed(c, reply.id);
    OnReplyOk(c, reply.id, reply.payload, now);
    d := OnReply(c, reply.id, reply.payload, now);
  }

  // ------------------------------------------------------------------------- what is re-sent

  /** One packet was sent. */
  ghost predicate Appended(before: seq<Packet>, after: seq<Packet>) {
    |after| == |before| + 1 && after[..|before|] == before
  }

  /** The packet sent last has some stored replies, each with its own payload and receive time. */
  ghost predicate ResentReplies(wire: seq<Packet>, stored: map<RpcId, string>, times: map<RpcId, int>) {
    && wire != []
    && var p := wire[|wire| - 1];
    && p.ReplyPacket? && p.replies != []
    && forall r | r in p.replies ::
         r.id in stored && r.payload == stored[r.id] && r.id in times && r.receiveTime == times[r.id]
  }

  /** The packet sent last has some outgoing requests, each with its own payload. */
  ghost predicate ResentRequests(wire: seq<Packet>, outgoing: map<RpcId, string>) {
    && wire != []
    && var p := wire[|wire| - 1];
    && p.RequestPacket? && p.requests != []
    && forall r | r in p.requests :: r.id in outgoing && r.payload == outgoing[r.id]
  }

  lemma RepliesAreResent(wire: seq<Packet>, replies: seq<StampedReply>, stored: map<RpcId, string>,
                         times: map<RpcId, int>, sent: map<RpcId, int>)
    requires replies != [] && sent.Keys <= stored.Keys <= times.Keys
    requires RepliesOf(ReplyPacket(replies)) == StampedReplies(stored, times, sent)
    ensures ResentReplies(wire + [ReplyPacket(replies)], stored, times)
  {
    forall r | r in replies
      ensures r.id in stored && r.payload == stored[r.id] && r.receiveTime == times[r.id]
    {
      assert r in RepliesOf(ReplyPacket(replies));
    }
  }

  lemma RequestsAreResent(wire: seq<Packet>, requests: seq<IdPayload>, outgoing: map<RpcId, string>, ids: set<RpcId>)
    requires requests != [] && ids <= outgoing.Keys
    requires RequestsOf(RequestPacket(requests)) == MessagesOf(outgoing, ids)
    ensures ResentRequests(wire + [RequestPacket(requests)], outgoing)
  {
    forall r | r in requests
      ensures r.id in outgoing && r.payload == outgoing[r.id]
    {
      assert r in RequestsOf(RequestPacket(requests));
    }
  }

  // ------------------------------------------------------------- what replies do to the clock

  /** The first reply to an outgoing request. */
  ghost predicate IsFirstReply(c: Client, id: RpcId) {
    !HasReply(c, id) && id in c.outgoing
  }

  /** The clock after a sample of these four stamps. */
  ghost function Sampled(st: Installed, host: bool, sent: int, received: int, replied: int, now: int, r: Readings)
    : Installed
  {
    Install(st, host, TimeOffset(Sample(sent, received, replied, now, r.halfPing)), r.trained)
  }

  /** A first reply is a sample of the stored send time, its own two stamps and the present time; no other counts. */
  ghost function Measured(st: Installed, host: bool, c: Client, reply: StampedReply, now: int, r: Readings): Installed {
    if IsFirstReply(c, reply.id) && reply.id in c.sendTimes
    then Sampled(st, host, c.sendTimes[reply.id], reply.receiveTime, reply.sendTime, now, r) else st
  }

  ghost function MeasuredAll(st: Installed, host: bool, c: Client, replies: seq<StampedReply>, now: int, r: Readings)
    : Installed
  {
    if replies == [] then st else
      var n := |replies| - 1;
      Measured(MeasuredAll(st, host, c, replies[..n], now, r), host, OnReplies(c, replies[..n], now), replies[n], now,
        r)
  }

  lemma MeasuredAllStep(st: Installed, host: bool, c: Client, replies: seq<StampedReply>, k: nat, now: int, r: Readings)
    requires k < |replies|
    ensures MeasuredAll(st, host, c, replies[..k + 1], now, r) ==
      Measured(MeasuredAll(st, host, c, replies[..k], now, r), host, OnReplies(c, replies[..k], now), replies[k], now,
        r)
  {
    assert replies[..k + 1][..k] == replies[..k];
  }

  /**
   If the four stamps of the first host reply are an exchange with the host, the shift misses the negated
   offset by at most half the asymmetry of the delays and rounding.
   */
  lemma FirstReplyError(c: Client, reply: StampedReply, now: int, r: Readings, offset: int, delay: Delay)
    requires ClientOk(c) && reply.id in c.outgoing
    requires Exchange(Sample(c.sendTimes[reply.id], reply.receiveTime, reply.sendTime, now, r.halfPing), offset, delay)
    ensures 2 * Abs(Measured(NOTHING_INSTALLED, true, c, reply, now, r).shift + offset) <= delay.Asymmetry() + 1
  {
    OffsetError(Sample(c.sendTimes[reply.id], reply.receiveTime, reply.sendTime, now, r.halfPing), offset, delay);
  }

  /** A host one second ahead, 5 ms away, that takes two seconds to answer: the shift is one second. */
  lemma SlowAnswerIsNoOffset(c: Client, id: RpcId, payload: string, r: Readings)
    requires ClientOk(c) && id in c.outgoing && c.sendTimes[id] == 0
    ensures Measured(NOTHING_INSTALLED, true, c, StampedReply(id, 1005000, 3005000, payload), 2010000, r).shift ==
      -1000000
  {
  }

  /** An outgoing request has a send time, and no delayed one does. */
  lemma OutgoingIsTimed(c: Client, id: RpcId)
    requires ClientOk(c)
    ensures id in c.outgoing ==> id in c.sendTimes && c.delayed.Keys !! c.sendTimes.Keys
  {
  }

  class BiDirectionalRpc {
    var delayedRequests: map<RpcId, string>
    var outgoingRequests: map<RpcId, string>
    var incomingRequests: map<RpcId, string>
    var oneWayRequests: set<RpcId>
    var outgoingReplies: map<RpcId, string>
    var incomingReplies: map<RpcId, string>
    var processedRequests: set<RpcId>
    var processedReplies: set<RpcId>
    var onBarrier: int
    var flaky: bool
    var shuttingDown: bool
    var wire: seq<Packet>
    const clock: ClockSynchronizer

    ghost function ClientRole(): Client
      reads this, clock
    {
      Client(delayedRequests, outgoingRequests, oneWayRequests, incomingReplies, processedReplies, onBarrier,
             clock.requestSendTimeMap, RequestsIn(wire), AcksIn(wire))
    }

    ghost function ServerRole(): Server
      reads this, clock
    {
      Server(incomingRequests, outgoingReplies, processedRequests, clock.requestReceiveTimeMap, RepliesIn(wire))
    }

    /** The barrier discipline and the bookkeeping of both roles, the clock's two maps included. */
    ghost predicate Valid()
      reads this, clock
    {
      ClientOk(ClientRole()) && ServerOk(ServerRole())
    }

    constructor (clock: ClockSynchronizer, flaky: bool)
      requires clock.requestSendTimeMap == map[] && clock.requestReceiveTimeMap == map[]
      ensures Valid() && this.clock == clock
      ensures ClientRole() == NEW_CLIENT && ServerRole() == NEW_SERVER
    {
      delayedRequests, outgoingRequests, incomingRequests, oneWayRequests := map[], map[], map[], {};
      outgoingReplies, incomingReplies, processedRequests, processedReplies := map[], map[], {}, {};
      onBarrier, shuttingDown, wire := 0, false, [];
      this.flaky, this.clock := flaky, clock;
      new;
      assert InOrderAt(0, outgoingRequests.Keys, delayedRequests.Keys, onBarrier);
    }

    // ------------------------------------------------------------------------------ sending

    method Send(p: Packet)
      modifies this`wire
      ensures wire == old(wire) + [p]
    {
      wire := wire + [p];
    }

    /** One packet with the given request; a batch may attach other outgoing requests to it. */
    method SendRequest(id: RpcId, payload: string, batch: bool) returns (ghost ids: set<RpcId>)
      requires id in outgoingRequests && outgoingRequests[id] == payload
      modifies this`wire
      ensures id in ids && ids <= outgoingRequests.Keys && (!batch ==> ids == {id})
      ensures AddsRequests(old(wire), wire, MessagesOf(outgoingRequests, ids))
      ensures Appended(old(wire), wire) && ResentRequests(wire, outgoingRequests)
    {
      var requests := [IdPayload(id, payload)];
      ids := {id};
      if batch {
        requests, ids := AttachRequests(id);
      }
      AppendAdds(wire, RequestPacket(requests));
      RequestsAreResent(wire, requests, outgoingRequests, ids);
      Send(RequestPacket(requests));
    }

    /** Random draws until one repeats, everything is in, or the packet is full. */
    method AttachRequests(id: RpcId) returns (requests: seq<IdPayload>, ghost ids: set<RpcId>)
      requires id in outgoingRequests
      ensures id in ids && ids <= outgoingRequests.Keys && requests != []
      ensures (set r | r in requests) == MessagesOf(outgoingRequests, ids)
    {
      requests := [IdPayload(id, outgoingRequests[id])];
      var rpcsSent := {id};
      while |rpcsSent| < |outgoingRequests|
        invariant id in rpcsSent && rpcsSent <= outgoingRequests.Keys && requests != []
        invariant (set r | r in requests) == MessagesOf(outgoingRequests, rpcsSent)
        decreases |outgoingRequests| - |rpcsSent|
      {
        var drawn := Draw(outgoingRequests);
        var full := SizeLimitReached();
        if drawn in rpcsSent || full {
          break;
        }
        var next := IdPayload(drawn, outgoingRequests[drawn]);
        assert (set r | r in requests + [next]) == (set r | r in requests) + {next};
        rpcsSent := rpcsSent + {drawn};
        requests := requests + [next];
      }
      ids := rpcsSent;
    }

    /** The time stamps of replies, the clock being read for each of them. */
    ghost function Stamps(ids: set<RpcId>, raw: RpcId -> int): map<RpcId, int>
      reads clock.timeHandler
    {
      map i | i in ids :: clock.Stamp(raw(i))
    }

    ghost function Stamped(ids: set<RpcId>, raw: RpcId -> int): set<StampedReply>
      requires ids <= outgoingReplies.Keys <= clock.requestReceiveTimeMap.Keys
      reads this, clock, clock.timeHandler
    {
      StampedReplies(outgoingReplies, clock.requestReceiveTimeMap, Stamps(ids, raw))
    }

    /** One packet with the given reply; a batch may attach other outgoing replies to it. */
    method SendReply(id: RpcId, payload: string, batch: bool, raw: RpcId -> int) returns (ghost ids: set<RpcId>)
      requires id in outgoingReplies && outgoingReplies[id] == payload
      requires outgoingReplies.Keys <= clock.requestReceiveTimeMap.Keys
      modifies this`wire
      ensures id in ids && ids <= outgoingReplies.Keys && (!batch ==> ids == {id})
      ensures AddsReplies(old(wire), wire, Stamped(ids, raw))
      ensures Appended(old(wire), wire) && ResentReplies(wire, outgoingReplies, clock.requestReceiveTimeMap)
    {
      var receiveTime, sendTime := clock.GetReplyDuration(id, raw(id));
      var replies := [StampedReply(id, receiveTime, sendTime, payload)];
      ids := {id};
      if batch {
        replies, ids := AttachReplies(id, raw);
      }
      AppendAdds(wire, ReplyPacket(replies));
      RepliesAreResent(wire, replies, outgoingReplies, clock.requestReceiveTimeMap, Stamps(ids, raw));
      Send(ReplyPacket(replies));
    }

    /** One packet with one reply. */
    method SendOneReply(id: RpcId, payload: string, raw: int)
      requires id in outgoingReplies && outgoingReplies[id] == payload
      requires outgoingReplies.Keys <= clock.requestReceiveTimeMap.Keys
      modifies this`wire
      ensures var reply := StampedReply(id, clock.requestReceiveTimeMap[id], clock.Stamp(raw), payload);
        AddsReplies(old(wire), wire, {reply})
    {
      ghost var ids := SendReply(id, payload, false, i => raw);
    }

    method AttachReplies(id: RpcId, raw: RpcId -> int) returns (replies: seq<StampedReply>, ghost ids: set<RpcId>)
      requires id in outgoingReplies && outgoingReplies.Keys <= clock.requestReceiveTimeMap.Keys
      ensures id in ids && ids <= outgoingReplies.Keys && replies != []
      ensures (set r | r in replies) == Stamped(ids, raw)
    {
      var receiveTime, sendTime := clock.GetReplyDuration(id, raw(id));
      replies := [StampedReply(id, receiveTime, sendTime, outgoingReplies[id])];
      var rpcsSent := {id};
      while |rpcsSent| < |outgoingReplies|
        invariant id in rpcsSent && rpcsSent <= outgoingReplies.Keys && replies != []
        invariant (set r | r in replies) == Stamped(rpcsSent, raw)
        decreases |outgoingReplies| - |rpcsSent|
      {
        var drawn := Draw(outgoingReplies);
        var full := SizeLimitReached();
        if drawn in rpcsSent || full {
          break;
        }
        receiveTime, sendTime := clock.GetReplyDuration(drawn, raw(drawn));
        var next := StampedReply(drawn, receiveTime, sendTime, outgoingReplies[drawn]);
        assert (set r | r in replies + [next]) == (set r | r in replies) + {next};
        rpcsSent := rpcsSent + {drawn};
        replies := replies + [next];
      }
      ids := rpcsSent;
    }

    method SendAcknowledge(id: RpcId)
      modifies this`wire
      ensures AddsAck(old(wire), wire, id)
    {
      AppendAdds(wire, AcknowledgePacket(id));
      Send(AcknowledgePacket(id));
    }

    // ------------------------------------------------------------------------------ requests

    /** barrier */
    method Barrier()
      requires Valid()
      modifies this`onBarrier
      ensures Valid() && ClientRole() == RaiseBarrier(old(ClientRole())) && ServerRole() == old(ServerRole())
      ensures onBarrier == old(onBarrier) + 1
    {
      ghost var front :| InOrderAt(front, outgoingRequests.Keys, delayedRequests.Keys, onBarrier);
      onBarrier := onBarrier + 1;
      assert InOrderAt(front, outgoingRequests.Keys, delayedRequests.Keys, onBarrier);
    }

    /** The uuid is fresh: this node has not used it under the current barrier. */
    ghost predicate Unused(id: RpcId)
      reads this, clock
    {
      id !in Pending(ClientRole()) && !HasReply(ClientRole(), id)
    }

    method Request(payload: string, uuid: nat, raw: int) returns (id: RpcId)
      requires Valid() && Unused(RpcId(onBarrier, uuid))
      modifies this`wire, this`outgoingRequests, this`delayedRequests, clock`requestSendTimeMap
      ensures Valid() && id == RpcId(onBarrier, uuid)
      ensures ClientRole() == Issue(old(ClientRole()), IdPayload(id, payload), clock.Stamp(raw))
      ensures ServerRole() == old(ServerRole())
    {
      id := RpcId(onBarrier, uuid);
      IssueOk(ClientRole(), IdPayload(id, payload), clock.Stamp(raw));
      RequestWithId(IdPayload(id, payload), raw);
    }

    method RequestOneWay(payload: string, uuid: nat, raw: int)
      requires Valid() && Unused(RpcId(onBarrier, uuid))
      modifies this`wire, this`oneWayRequests, this`outgoingRequests, this`delayedRequests, clock`requestSendTimeMap
      ensures Valid()
      ensures ClientRole() ==
        IssueOneWay(old(ClientRole()), IdPayload(RpcId(onBarrier, uuid), payload), clock.Stamp(raw))
      ensures ServerRole() == old(ServerRole())
    {
      var id := RpcId(onBarrier, uuid);
      IssueOneWayOk(ClientRole(), IdPayload(id, payload), clock.Stamp(raw));
      oneWayRequests := oneWayRequests + {id};
      RequestWithId(IdPayload(id, payload), raw);
    }

    /** Nothing is outgoing, or the first outgoing request (any of them) has the current barrier. */
    method OnCurrentBarrier() returns (current: bool)
      requires BarriersOk(ClientRole())
      ensures current <==> forall i | i in outgoingRequests :: i.barrier == onBarrier
    {
      current := |outgoingRequests| == 0;
      if !current {
        var first := Draw(outgoingRequests);
        current := first.barrier == onBarrier;
      }
    }

    method RequestWithId(idPayload: IdPayload, raw: int)
      requires idPayload.id !in clock.requestSendTimeMap
      requires BarriersOk(ClientRole())
      modifies this`wire, this`outgoingRequests, this`delayedRequests, clock`requestSendTimeMap
      ensures ClientRole() == Issue(old(ClientRole()), idPayload, clock.Stamp(raw))
      ensures ServerRole() == old(ServerRole())
    {
      var sendNow := OnCurrentBarrier();
      if sendNow {
        outgoingRequests := outgoingRequests[idPayload.id := idPayload.payload];
        clock.CreateRequest(idPayload.id, raw);
        ghost var ids := SendRequest(idPayload.id, idPayload.payload, false);
      } else {
        delayedRequests := delayedRequests[idPayload.id := idPayload.payload];
      }
    }

    /** Every request held or answered has a receive time, which is all that replying needs. */
    ghost predicate Timed()
      reads this, clock
    {
      incomingRequests.Keys + outgoingReplies.Keys <= clock.requestReceiveTimeMap.Keys
    }

    /** reply: fatal in the source when the request is not held. */
    method Reply(rpcId: RpcId, payload: string, raw: int)
      requires Timed() && rpcId in incomingRequests
      modifies this`wire, this`incomingRequests, this`processedRequests, this`outgoingReplies
      ensures ServerRole() == Answer(old(ServerRole()), rpcId, payload, clock.Stamp(raw))
      ensures ClientRole() == old(ClientRole()) && (old(Valid()) ==> Valid())
    {
      if ServerOk(ServerRole()) {
        AnswerOk(ServerRole(), rpcId, payload, clock.Stamp(raw));
      }
      FinishReply(rpcId, payload, raw);
    }

    method FinishReply(rpcId: RpcId, payload: string, raw: int)
      requires Timed() && rpcId in incomingRequests
      modifies this`wire, this`incomingRequests, this`processedRequests, this`outgoingReplies
      ensures ServerRole() == Answer(old(ServerRole()), rpcId, payload, clock.Stamp(raw))
      ensures ClientRole() == old(ClientRole())
    {
      incomingRequests := incomingRequests - {rpcId};
      processedRequests := processedRequests + {rpcId};
      outgoingReplies := outgoingReplies[rpcId := payload];
      SendOneReply(rpcId, payload, raw);
    }

    // ----------------------------------------------------------------------------- receiving

    /**
     The node never gets to re-send a stored reply here while Valid() holds; see StoredReplyIsNeverResentOnRequest.
     */
    method HandleRequest(rpcId: RpcId, payload: string, raw: int)
      requires Timed() && clock.requestReceiveTimeMap.Keys <= incomingRequests.Keys + outgoingReplies.Keys
      modifies this`wire, this`incomingRequests, this`processedRequests, this`outgoingReplies, this`shuttingDown
      modifies clock`requestReceiveTimeMap
      ensures ServerRole() == OnRequest(old(ServerRole()), IdPayload(rpcId, payload), clock.Stamp(raw))
      ensures ClientRole() == old(ClientRole())
      ensures shuttingDown == (old(shuttingDown) ||
        (payload == SHUTDOWN && !old(Seen(ServerRole(), rpcId)) && rpcId !in old(outgoingReplies)))
    {
      var skip := rpcId in incomingRequests || rpcId in processedRequests;
      if !skip && rpcId in outgoingReplies {
        skip := true;
        SendOneReply(rpcId, outgoingReplies[rpcId], raw);
      }
      if !skip {
        AddIncomingRequest(rpcId, payload, raw);
      }
    }

    /** The tail of handleRequest for a new request: the node answers its two control requests itself. */
    method AddIncomingRequest(rpcId: RpcId, payload: string, raw: int)
      requires Timed() && rpcId !in clock.requestReceiveTimeMap
      modifies this`wire, this`incomingRequests, this`processedRequests, this`outgoingReplies, this`shuttingDown
      modifies clock`requestReceiveTimeMap
      ensures var accepted := Accept(old(ServerRole()), IdPayload(rpcId, payload), clock.Stamp(raw));
        ServerRole() == if payload == PING || payload == SHUTDOWN
          then Answer(accepted, rpcId, AutomaticReply(payload), clock.Stamp(raw)) else accepted
      ensures ClientRole() == old(ClientRole()) && shuttingDown == (old(shuttingDown) || payload == SHUTDOWN)
    {
      clock.ReceiveRequest(rpcId, raw);
      incomingRequests := incomingRequests[rpcId := payload];
      if payload == PING {
        FinishReply(rpcId, PONG, raw);
      } else if payload == SHUTDOWN {
        shuttingDown := true;
        FinishReply(rpcId, SHUTDOWN_REPLY, raw);
      }
    }

    method TryToSendBarrier(raw: int)
      requires delayedRequests.Keys !! clock.requestSendTimeMap.Keys
      modifies this`wire, this`outgoingRequests, this`delayedRequests, clock`requestSendTimeMap
      ensures ClientRole() == Release(old(ClientRole()), clock.Stamp(raw))
      ensures ServerRole() == old(ServerRole())
    {
      if |delayedRequests| == 0 {
        return;
      }
      if |outgoingRequests| == 0 {
        SendLowestBarrier(raw);
      }
    }

    method SendLowestBarrier(raw: int)
      requires delayedRequests.Keys != {} && outgoingRequests.Keys == {}
      requires delayedRequests.Keys !! clock.requestSendTimeMap.Keys
      modifies this`wire, this`outgoingRequests, this`delayedRequests, clock`requestSendTimeMap
      ensures ClientRole() == Release(old(ClientRole()), clock.Stamp(raw))
      ensures ServerRole() == old(ServerRole())
    {
      var lowestBarrier := FindLowestBarrier();
      LowestBarrierIsUnique(delayedRequests.Keys, lowestBarrier, LowestBarrier(delayedRequests.Keys));
      ReleaseDelayed(lowestBarrier, raw);
    }

    method ReleaseDelayed(barrier: int, raw: int)
      requires outgoingRequests == map[] && delayedRequests.Keys !! clock.requestSendTimeMap.Keys
      modifies this`wire, this`outgoingRequests, this`delayedRequests, clock`requestSendTimeMap
      ensures ClientRole() == ReleaseBarrier(old(ClientRole()), barrier, clock.Stamp(raw))
      ensures ServerRole() == old(ServerRole())
    {
      SendBarrier(barrier, raw);
    }

    method FindLowestBarrier() returns (lowestBarrier: int)
      requires |delayedRequests| > 0
      ensures IsLowestBarrier(delayedRequests.Keys, lowestBarrier)
    {
      var first := Draw(delayedRequests);
      lowestBarrier := first.barrier;
      var left := delayedRequests.Keys;
      while left != {}
        invariant left <= delayedRequests.Keys
        invariant exists i :: i in delayedRequests && i.barrier == lowestBarrier
        invariant forall i | i in delayedRequests.Keys - left :: lowestBarrier <= i.barrier
        decreases left
      {
        var it :| it in left;
        lowestBarrier := if lowestBarrier < it.barrier then lowestBarrier else it.barrier;
        left := left - {it};
      }
    }

    /** One iteration: the request becomes outgoing, is timed and sent, and leaves the delayed queue. */
    method SendDelayed(id: RpcId, raw: int)
      requires id in delayedRequests && id !in clock.requestSendTimeMap
      modifies this`wire, this`outgoingRequests, this`delayedRequests, clock`requestSendTimeMap
      ensures outgoingRequests == old(outgoingRequests)[id := old(delayedRequests[id])]
      ensures delayedRequests == old(delayedRequests) - {id}
      ensures clock.requestSendTimeMap == old(clock.requestSendTimeMap)[id := clock.Stamp(raw)]
      ensures AddsRequests(old(wire), wire, {IdPayload(id, old(delayedRequests[id]))})
    {
      outgoingRequests := outgoingRequests[id := delayedRequests[id]];
      clock.CreateRequest(id, raw);
      ghost var ids := SendRequest(id, delayedRequests[id], false);
      delayedRequests := delayedRequests - {id};
    }

    /** Moves the delayed requests of one barrier to the outgoing ones, erasing while it iterates. */
    method SendBarrier(barrier: int, raw: int)
      requires outgoingRequests == map[] && delayedRequests.Keys !! clock.requestSendTimeMap.Keys
      modifies this`wire, this`outgoingRequests, this`delayedRequests, clock`requestSendTimeMap
      ensures outgoingRequests == WithBarrier(old(delayedRequests), barrier)
      ensures delayedRequests == old(delayedRequests) - outgoingRequests.Keys
      ensures clock.requestSendTimeMap ==
        old(clock.requestSendTimeMap) + StampAll(outgoingRequests.Keys, clock.Stamp(raw))
      ensures AddsRequests(old(wire), wire, AsMessages(outgoingRequests))
    {
      ghost var all, times, stamp := delayedRequests, clock.requestSendTimeMap, clock.Stamp(raw);
      var left := delayedRequests.Keys;
      NothingMoved(all, left, barrier, times, stamp);
      while left != {}
        invariant left <= delayedRequests.Keys && left !! clock.requestSendTimeMap.Keys
        invariant outgoingRequests == WithBarrier(all - left, barrier)
        invariant delayedRequests == all - outgoingRequests.Keys
        invariant clock.requestSendTimeMap == times + StampAll(outgoingRequests.Keys, stamp)
        invariant AddsRequests(old(wire), wire, AsMessages(outgoingRequests))
        decreases left
      {
        var it :| it in left;
        ExtendBarrier(all, left, it, barrier);
        if it.barrier == barrier {
          SendDelayed(it, raw);
          OneMoved(all, left, it, barrier, times, stamp);
        }
        left := left - {it};
      }
      assert all - left == all;
    }

    /** handleReply: an outgoing request has a send time, and no delayed one has. */
    method HandleReply(rpcId: RpcId, payload: string, requestReceiveTime: int, replySendTime: int, r: Readings)
      requires rpcId in outgoingRequests ==>
        rpcId in clock.requestSendTimeMap && delayedRequests.Keys !! clock.requestSendTimeMap.Keys
      modifies this`wire, this`outgoingRequests, this`delayedRequests, this`oneWayRequests, this`incomingReplies
      modifies clock`requestSendTimeMap, clock`count, clock`baselineOffset
      modifies clock.timeHandler`timeShift, clock.timeHandler`optimized
      ensures ClientRole() == OnReply(old(ClientRole()), rpcId, payload, old(clock.Stamp(r.raw)))
      ensures ServerRole() == old(ServerRole())
      ensures clock.State() ==
        Measured(old(clock.State()), clock.connectedToHost, old(ClientRole()),
                 StampedReply(rpcId, requestReceiveTime, replySendTime, payload), old(clock.Stamp(r.raw)), r)
    {
      if rpcId in incomingReplies || rpcId in processedReplies {
        AcknowledgeAgain(rpcId);
      } else if rpcId in outgoingRequests {
        HandleFirstReply(rpcId, payload, requestReceiveTime, replySendTime, r);
      } else {
        AcknowledgeAgain(rpcId);
      }
    }

    /** A reply that finds nothing to finish is only acknowledged. */
    method AcknowledgeAgain(rpcId: RpcId)
      modifies this`wire
      ensures ClientRole() == old(ClientRole()).(sentAcks := old(ClientRole().sentAcks) + {rpcId})
      ensures ServerRole() == old(ServerRole())
    {
      SendAcknowledge(rpcId);
    }

    /** The branch of handleReply for an outgoing request: delete it, release what waited for it, finish. */
    method HandleFirstReply(rpcId: RpcId, payload: string, requestReceiveTime: int, replySendTime: int, r: Readings)
      requires rpcId in clock.requestSendTimeMap && rpcId !in incomingReplies
      requires delayedRequests.Keys !! clock.requestSendTimeMap.Keys
      modifies this`wire, this`outgoingRequests, this`delayedRequests, this`oneWayRequests, this`incomingReplies
      modifies clock`requestSendTimeMap, clock`count, clock`baselineOffset
      modifies clock.timeHandler`timeShift, clock.timeHandler`optimized
      ensures ClientRole() ==
        Deliver(EraseAndRelease(old(ClientRole()), rpcId, old(clock.Stamp(r.raw))), rpcId, payload)
      ensures ServerRole() == old(ServerRole())
      ensures clock.State() == Sampled(old(clock.State()), clock.connectedToHost, old(clock.requestSendTimeMap[rpcId]),
                                       requestReceiveTime, replySendTime, old(clock.Stamp(r.raw)), r)
    {
      EraseThenRelease(rpcId, r.raw);
      FinishRequest(rpcId, payload, requestReceiveTime, replySendTime, r);
    }

    method EraseThenRelease(rpcId: RpcId, raw: int)
      requires rpcId in clock.requestSendTimeMap && delayedRequests.Keys !! clock.requestSendTimeMap.Keys
      modifies this`wire, this`outgoingRequests, this`delayedRequests, clock`requestSendTimeMap
      ensures ClientRole() == EraseAndRelease(old(ClientRole()), rpcId, clock.Stamp(raw))
      ensures ServerRole() == old(ServerRole()) && rpcId in clock.requestSendTimeMap
      ensures clock.requestSendTimeMap[rpcId] == old(clock.requestSendTimeMap[rpcId])
    {
      outgoingRequests := outgoingRequests - {rpcId};
      TryToSendBarrier(raw);
    }

    /** The tail of handleReply for a deleted request. */
    method FinishRequest(rpcId: RpcId, payload: string, requestReceiveTime: int, replySendTime: int, r: Readings)
      requires rpcId in clock.requestSendTimeMap && rpcId !in incomingReplies
      modifies this`wire, this`oneWayRequests, this`incomingReplies
      modifies clock`requestSendTimeMap, clock`count, clock`baselineOffset
      modifies clock.timeHandler`timeShift, clock.timeHandler`optimized
      ensures ClientRole() == Deliver(old(ClientRole()), rpcId, payload)
      ensures ServerRole() == old(ServerRole())
      ensures clock.State() == Sampled(old(clock.State()), clock.connectedToHost, old(clock.requestSendTimeMap[rpcId]),
                                       requestReceiveTime, replySendTime, old(clock.Stamp(r.raw)), r)
    {
      if rpcId in oneWayRequests {
        oneWayRequests := oneWayRequests - {rpcId};
      } else {
        incomingReplies := incomingReplies[rpcId := payload];
      }
      SendAcknowledge(rpcId);
      clock.HandleReply(rpcId, requestReceiveTime, replySendTime, r.raw, r.halfPing, r.trained);
    }

    method HandleAcknowledge(id: RpcId)
      requires Timed() && outgoingReplies.Keys <= clock.requestReceiveTimeMap.Keys
      modifies this`outgoingReplies, clock`requestReceiveTimeMap
      ensures ServerRole() == OnAck(old(ServerRole()), id) && ClientRole() == old(ClientRole())
    {
      if id in outgoingReplies {
        clock.EraseRequestReceiveTime(id);
        outgoingReplies := outgoingReplies - {id};
      }
    }

    /** receive: `lost` is the flaky coin. A packet acts as its messages do, one after the other. */
    method Receive(packet: Packet, lost: bool, r: Readings) returns (valid: bool)
      requires Valid()
      modifies this, clock, clock.timeHandler`timeShift, clock.timeHandler`optimized
      ensures Valid() && valid
      ensures flaky == old(flaky) && onBarrier == old(onBarrier) && (old(shuttingDown) ==> shuttingDown)
      ensures old(flaky) && lost ==> ClientRole() == old(ClientRole()) && ServerRole() == old(ServerRole())
      ensures !(old(flaky) && lost) ==>
        match packet
        case RequestPacket(requests) =>
          ClientRole() == old(ClientRole()) &&
          ServerRole() == OnRequests(old(ServerRole()), requests, clock.Stamp(r.raw))
        case ReplyPacket(replies) =>
          ServerRole() == old(ServerRole()) && ClientRole() == OnReplies(old(ClientRole()), replies, clock.Stamp(r.raw))
        case AcknowledgePacket(id) =>
          ClientRole() == old(ClientRole()) && ServerRole() == OnAck(old(ServerRole()), id)
      ensures clock.State() ==
        if packet.ReplyPacket? && !(old(flaky) && lost)
        then MeasuredAll(old(clock.State()), clock.connectedToHost, old(ClientRole()), packet.replies,
                         clock.Stamp(r.raw), r)
        else old(clock.State())
    {
      valid := true;
      if flaky && lost {
        return;
      }
      match packet
      case RequestPacket(requests) => ReceiveRequests(requests, r);
      case ReplyPacket(replies) => ReceiveReplies(replies, r);
      case AcknowledgePacket(id) =>
        OnAckOk(ServerRole(), id);
        HandleAcknowledge(id);
    }

    method ReceiveRequests(requests: seq<IdPayload>, r: Readings)
      requires Valid()
      modifies this`wire, this`incomingRequests, this`processedRequests, this`outgoingReplies, this`shuttingDown
      modifies clock`requestReceiveTimeMap
      ensures Valid() && ClientRole() == old(ClientRole())
      ensures ServerRole() == OnRequests(old(ServerRole()), requests, clock.Stamp(r.raw))
      ensures old(shuttingDown) ==> shuttingDown
    {
      ghost var start, stamp := ServerRole(), clock.Stamp(r.raw);
      for k := 0 to |requests|
        invariant ClientRole() == old(ClientRole()) && ServerOk(ServerRole())
        invariant ServerRole() == OnRequests(start, requests[..k], stamp)
        invariant old(shuttingDown) ==> shuttingDown
      {
        OnRequestOk(ServerRole(), requests[k], stamp);
        assert requests[..k + 1][..k] == requests[..k];
        HandleRequest(requests[k].id, requests[k].payload, r.raw);
      }
      assert requests[..|requests|] == requests;
    }

    method ReceiveReplies(replies: seq<StampedReply>, r: Readings)
      requires Valid()
      modifies this`wire, this`outgoingRequests, this`delayedRequests, this`oneWayRequests, this`incomingReplies
      modifies clock`requestSendTimeMap, clock`count, clock`baselineOffset
      modifies clock.timeHandler`timeShift, clock.timeHandler`optimized
      ensures Valid() && ServerRole() == old(ServerRole())
      ensures ClientRole() == OnReplies(old(ClientRole()), replies, clock.Stamp(r.raw))
      ensures clock.State() ==
        MeasuredAll(old(clock.State()), clock.connectedToHost, old(ClientRole()), replies, clock.Stamp(r.raw), r)
    {
      ghost var start, server, stamp := ClientRole(), ServerRole(), clock.Stamp(r.raw);
      ghost var state, host := clock.State(), clock.connectedToHost;
      ghost var client := start;
      for k := 0 to |replies|
        invariant ClientOk(client) && clock.Stamp(r.raw) == stamp && ServerRole() == server
        invariant ClientRole() == client == OnReplies(start, replies[..k], stamp)
        invariant clock.State() == MeasuredAll(state, host, start, replies[..k], stamp, r)
      {
        OnRepliesStep(start, replies, k, stamp);
        MeasuredAllStep(state, host, start, replies, k, stamp, r);
        client := ReplyHandled(client, replies[k], stamp);
        HandleReply(replies[k].id, replies[k].payload, replies[k].receiveTime, replies[k].sendTime, r);
      }
      assert replies[..|replies|] == replies;
    }

    // ---------------------------------------------------------------------- what is collected

    /** getFirstIncomingReply: any reply; fatal in the source when there is none. */
    method GetFirstIncomingReply() returns (idPayload: IdPayload)
      requires Valid() && incomingReplies.Keys != {}
      modifies this`incomingReplies, this`processedReplies
      ensures Valid() && ServerRole() == old(ServerRole())
      ensures idPayload in AsMessages(old(incomingReplies))
      ensures ClientRole() == TakeReply(old(ClientRole()), idPayload.id)
    {
      var id := Draw(incomingReplies);
      idPayload := IdPayload(id, incomingReplies[id]);
      var payload := ConsumeIncomingReplyWithId(id);
    }

    method ConsumeIncomingReplyWithId(rpcId: RpcId) returns (payload: string)
      requires Valid() && rpcId in incomingReplies
      modifies this`incomingReplies, this`processedReplies
      ensures Valid() && ServerRole() == old(ServerRole())
      ensures payload == old(incomingReplies[rpcId]) && ClientRole() == TakeReply(old(ClientRole()), rpcId)
    {
      payload := incomingReplies[rpcId];
      processedReplies := processedReplies + {rpcId};
      incomingReplies := incomingReplies - {rpcId};
    }

    // ------------------------------------------------------------------------------ resending

    /** Replies go first: a request is re-sent only when no reply is waiting for its acknowledgement. */
    method ResendRandomOutgoingMessage(raw: RpcId -> int) returns (ghost ids: set<RpcId>)
      requires Valid()
      modifies this`wire
      ensures Valid()
      ensures ids == {} ==> outgoingReplies.Keys == {} && outgoingRequests.Keys == {}
      ensures RepliesIn(wire) >= old(RepliesIn(wire)) && RequestsIn(wire) >= old(RequestsIn(wire))
      ensures if outgoingReplies.Keys != {}
        then ids <= outgoingReplies.Keys && ClientRole() == old(ClientRole())
             && ServerRole() == ResendReplies(old(ServerRole()), Stamps(ids, raw))
        else ids <= outgoingRequests.Keys && ServerRole() == old(ServerRole())
             && ClientRole() == ResendRequests(old(ClientRole()), ids)
      ensures if outgoingReplies.Keys != {}
        then Appended(old(wire), wire) && ResentReplies(wire, outgoingReplies, clock.requestReceiveTimeMap)
        else if outgoingRequests.Keys != {} then Appended(old(wire), wire) && ResentRequests(wire, outgoingRequests)
        else wire == old(wire)
    {
      ids := {};
      if |outgoingReplies| > 0 {
        ids := ResendReply(raw);
      } else if |outgoingRequests| > 0 {
        ids := ResendRequest();
      }
    }

    method ResendReply(raw: RpcId -> int) returns (ghost ids: set<RpcId>)
      requires |outgoingReplies| > 0 && Valid()
      modifies this`wire
      ensures Valid()
      ensures ids != {} && ids <= outgoingReplies.Keys && ClientRole() == old(ClientRole())
      ensures ServerRole() == ResendReplies(old(ServerRole()), Stamps(ids, raw))
      ensures RepliesIn(wire) >= old(RepliesIn(wire)) && RequestsIn(wire) == old(RequestsIn(wire))
      ensures Appended(old(wire), wire) && ResentReplies(wire, outgoingReplies, clock.requestReceiveTimeMap)
    {
      ghost var before := ServerRole();
      ids := SendSomeReplies(raw);
      ResendRepliesOk(before, Stamps(ids, raw));
    }

    method SendSomeReplies(raw: RpcId -> int) returns (ghost ids: set<RpcId>)
      requires |outgoingReplies| > 0 && outgoingReplies.Keys <= clock.requestReceiveTimeMap.Keys
      modifies this`wire
      ensures ids != {} && ids <= outgoingReplies.Keys && ClientRole() == old(ClientRole())
      ensures ServerRole() == ResendReplies(old(ServerRole()), Stamps(ids, raw))
      ensures Appended(old(wire), wire) && ResentReplies(wire, outgoingReplies, clock.requestReceiveTimeMap)
    {
      var id := Draw(outgoingReplies);
      ids := SendReply(id, outgoingReplies[id], true, raw);
    }

    method ResendRequest() returns (ghost ids: set<RpcId>)
      requires |outgoingRequests| > 0 && Valid()
      modifies this`wire
      ensures Valid()
      ensures ids != {} && ids <= outgoingRequests.Keys && ServerRole() == old(ServerRole())
      ensures ClientRole() == ResendRequests(old(ClientRole()), ids)
      ensures RequestsIn(wire) >= old(RequestsIn(wire)) && RepliesIn(wire) == old(RepliesIn(wire))
      ensures Appended(old(wire), wire) && ResentRequests(wire, outgoingRequests)
    {
      ghost var before := ClientRole();
      ids := SendSomeRequests();
      ResendRequestsOk(before, ids);
    }

    method SendSomeRequests() returns (ghost ids: set<RpcId>)
      requires |outgoingRequests| > 0
      modifies this`wire
      ensures ids != {} && ids <= outgoingRequests.Keys && ServerRole() == old(ServerRole())
      ensures ClientRole() == ResendRequests(old(ClientRole()), ids)
      ensures Appended(old(wire), wire) && ResentRequests(wire, outgoingRequests)
    {
      var id := Draw(outgoingRequests);
      ids := SendRequest(id, outgoingRequests[id], true);
    }

    /** heartbeat: re-send something, or else issue a one-way PING unless shutting down. */
    method Heartbeat(readyToSend: bool, uuid: nat, raw: RpcId -> int)
      requires Valid() && Unused(RpcId(onBarrier, uuid))
      modifies this`wire, this`oneWayRequests, this`outgoingRequests, this`delayedRequests, clock`requestSendTimeMap
      ensures Valid() && RepliesIn(wire) >= old(RepliesIn(wire)) && RequestsIn(wire) >= old(RequestsIn(wire))
      ensures if old(outgoingReplies.Keys == {} && outgoingRequests.Keys == {}) && readyToSend && !shuttingDown
        then ClientRole() == IssueOneWay(old(ClientRole()), IdPayload(RpcId(onBarrier, uuid), PING),
                                             clock.Stamp(raw(RpcId(onBarrier, uuid))))
        else outgoingRequests == old(outgoingRequests) && delayedRequests == old(delayedRequests)
             && oneWayRequests == old(oneWayRequests) && clock.requestSendTimeMap == old(clock.requestSendTimeMap)
      ensures old(outgoingReplies.Keys) != {} ==>
        Appended(old(wire), wire) && ResentReplies(wire, outgoingReplies, clock.requestReceiveTimeMap)
      ensures old(outgoingReplies.Keys) == {} && old(outgoingRequests.Keys) != {} ==>
        Appended(old(wire), wire) && ResentRequests(wire, outgoingRequests)
    {
      var idle := NothingOutgoing();
      if !idle {
        ResendSomething(raw);
      } else if readyToSend && !shuttingDown {
        Ping(uuid, raw(RpcId(onBarrier, uuid)));
      }
    }

    method NothingOutgoing() returns (idle: bool)
      ensures idle <==> outgoingReplies.Keys == {} && outgoingRequests.Keys == {}
    {
      idle := !(|outgoingReplies| > 0 || |outgoingRequests| > 0);
    }

    method ResendSomething(raw: RpcId -> int)
      requires Valid()
      modifies this`wire
      ensures Valid() && RepliesIn(wire) >= old(RepliesIn(wire)) && RequestsIn(wire) >= old(RequestsIn(wire))
      ensures if outgoingReplies.Keys != {}
        then Appended(old(wire), wire) && ResentReplies(wire, outgoingReplies, clock.requestReceiveTimeMap)
        else if outgoingRequests.Keys != {} then Appended(old(wire), wire) && ResentRequests(wire, outgoingRequests)
        else wire == old(wire)
    {
      ghost var ids := ResendRandomOutgoingMessage(raw);
    }

    method Ping(uuid: nat, raw: int)
      requires Valid() && Unused(RpcId(onBarrier, uuid))
      modifies this`wire, this`oneWayRequests, this`outgoingRequests, this`delayedRequests, clock`requestSendTimeMap
      ensures Valid() && RepliesIn(wire) >= old(RepliesIn(wire)) && RequestsIn(wire) >= old(RequestsIn(wire))
      ensures ClientRole() ==
        IssueOneWay(old(ClientRole()), IdPayload(RpcId(onBarrier, uuid), PING), clock.Stamp(raw))
    {
      RequestOneWay(PING, uuid, raw);
    }

    // ---------------------------------------------------------------------------- hasWork

    method HasWork() returns (work: bool)
      ensures work <==> HasPayload(delayedRequests) || HasPayload(outgoingRequests)
                        || HasPayload(incomingRequests) || HasPayload(incomingReplies)
    {
      work := AnyPayload(delayedRequests);
      if !work {
        work := AnyPayload(outgoingRequests);
      }
      if !work {
        work := AnyPayload(incomingRequests);
      }
      if !work {
        work := AnyPayload(incomingReplies);
      }
    }
  }

  /** hasWork looks at the payloads: an entry with an empty payload is no work. */
  ghost predicate HasPayload(m: map<RpcId, string>) {
    exists i :: i in m && m[i] != ""
  }

  method AnyPayload(m: map<RpcId, string>) returns (found: bool)
    ensures found <==> HasPayload(m)
  {
    var left := m.Keys;
    found := false;
    while left != {} && !found
      invariant left <= m.Keys
      invariant found ==> HasPayload(m)
      invariant !found ==> forall i | i in m.Keys - left :: m[i] == ""
      decreases left
    {
      var it :| it in left;
      found := m[it] != "";
      left := left - {it};
    }
  }

  /** What the node reads while handling one packet. */
  datatype Readings = Readings(raw: int, halfPing: int, trained: int)

  ghost function OnRequests(s: Server, requests: seq<IdPayload>, now: int): (r: Server)
    requires ServerOk(s)
    ensures ServerOk(r)
  {
    if requests == [] then s else
      var before := OnRequests(s, requests[..|requests| - 1], now);
      OnRequestOk(before, requests[|requests| - 1], now);
      OnRequest(before, requests[|requests| - 1], now)
  }

  ghost function OnReplies(c: Client, replies: seq<StampedReply>, now: int): Client {
    if replies == [] then c else
      var last := replies[|replies| - 1];
      OnReply(OnReplies(c, replies[..|replies| - 1], now), last.id, last.payload, now)
  }

  lemma OnRepliesStep(c: Client, replies: seq<StampedReply>, k: nat, now: int)
    requires k < |replies|
    ensures OnReplies(c, replies[..k + 1], now) ==
      OnReply(OnReplies(c, replies[..k], now), replies[k].id, replies[k].payload, now)
  {
    assert replies[..k + 1][..k] == replies[..k];
  }

  lemma ExtendBarrier(all: map<RpcId, string>, left: set<RpcId>, it: RpcId, barrier: int)
    requires it in left && it in all
    ensures var before := WithBarrier(all - left, barrier);
      WithBarrier(all - (left - {it}), barrier) == if it.barrier == barrier then before[it := all[it]] else before
  {
  }

  lemma NothingMoved(all: map<RpcId, string>, left: set<RpcId>, barrier: int, times: map<RpcId, int>, stamp: int)
    requires left == all.Keys
    ensures WithBarrier(all - left, barrier) == map[]
    ensures all - WithBarrier(all - left, barrier).Keys == all
    ensures times + StampAll({}, stamp) == times && AsMessages(map[]) == {}
  {
  }

  lemma OneMoved(all: map<RpcId, string>, left: set<RpcId>, it: RpcId, barrier: int, times: map<RpcId, int>, stamp: int)
    requires it in left && it in all
    ensures var before := WithBarrier(all - left, barrier);
      && all - before.Keys - {it} == all - before[it := all[it]].Keys
      && (times + StampAll(before.Keys, stamp))[it := stamp] == times + StampAll(before[it := all[it]].Keys, stamp)
      && AsMessages(before[it := all[it]]) == AsMessages(before) + {IdPayload(it, all[it])}
  {
    var before := WithBarrier(all - left, barrier);
    AsMessagesGrows(before, it, all[it]);
  }

  lemma AsMessagesGrows(m: map<RpcId, string>, id: RpcId, payload: string)
    requires id !in m
    ensures AsMessages(m[id := payload]) == AsMessages(m) + {IdPayload(id, payload)}
  {
    forall r | r in AsMessages(m)
      ensures r in AsMessages(m[id := payload])
    {
      assert r.id in m[id := payload];
    }
    assert id in m[id := payload];
  }

  /** DRAW_FROM_UNORDERED: any key of a non-empty map. */
  method Draw(m: map<RpcId, string>) returns (id: RpcId)
    requires |m| > 0
    ensures id in m
  {
    id :| id in m;
  }

  /** Whether a packet has reached its size limit depends on the serialised size, which is not modelled. */
  method SizeLimitReached() returns (b: bool) {
    b := *;
  }
}
