/** What the time stamps of a run are, and why every first reply is an exchange the clock can learn from. */
module RpcTimes {
  import opened RpcState
  import opened RpcLink
  import opened RpcRuns
  import opened Clock

  // -------------------------------------------------------------------------- the stored send time

  /** The step sends the request for the first time, at that reading of the client's clock. */
  ghost predicate FirstSends(l: Link, a: Action, id: RpcId, time: int) {
    && (forall r | r in l.client.sentRequests :: r.id != id)
    && match a
       case IssueRequest(request, _, now) => request.id == id && now == time
       case ReceiveReply(_, now) => id in l.client.delayed && now == time
       case _ => false
  }

  lemma NotSentYet(l: Link, id: RpcId)
    requires SentNotDelayed(l.client) && Genuine(l.client.sentRequests, l.issued)
    requires id !in l.issued || id in l.client.delayed
    ensures forall r | r in l.client.sentRequests :: r.id != id
  {
  }

  lemma SendTimeAfterIssue(l: Link, request: IdPayload, oneWay: bool, now: int, id: RpcId)
    requires SentNotDelayed(l.client) && Genuine(l.client.sentRequests, l.issued) && BooksOk(l.client)
    requires Enabled(l, IssueRequest(request, oneWay, now))
    requires id in Apply(l, IssueRequest(request, oneWay, now)).client.outgoing
    ensures SendTimeKept(l, IssueRequest(request, oneWay, now), id)
  {
    if id == request.id {
      NotSentYet(l, id);
    }
  }

  lemma SendTimeAfterReply(l: Link, reply: StampedReply, now: int, id: RpcId)
    requires SentNotDelayed(l.client) && Genuine(l.client.sentRequests, l.issued) && ClientOk(l.client)
    requires Enabled(l, ReceiveReply(reply, now)) && id in Apply(l, ReceiveReply(reply, now)).client.outgoing
    ensures SendTimeKept(l, ReceiveReply(reply, now), id)
  {
    TimesAfterReply(l.client, reply.id, reply.payload, now, id);
    if id !in l.client.outgoing {
      NotSentYet(l, id);
    }
  }

  /** A reply leaves the other send times; what it releases is stamped now. */
  lemma TimesAfterReply(c: Client, id: RpcId, payload: string, now: int, other: RpcId)
    requires ClientOk(c) && other in OnReply(c, id, payload, now).outgoing
    ensures var d := OnReply(c, id, payload, now);
      && other in d.sendTimes
      && if other in c.outgoing then other in c.sendTimes && d.sendTimes[other] == c.sendTimes[other]
         else other in c.delayed && d.sendTimes[other] == now
  {
    if !HasReply(c, id) && id in c.outgoing {
      var d := EraseAndRelease(c, id, now);
      DeliverKeeps(d, id, payload);
      TimesAfterErase(c, id, now, other);
    } else {
      OldReplyKeeps(c, id, payload, now);
    }
  }

  lemma DeliverKeeps(c: Client, id: RpcId, payload: string)
    ensures Deliver(c, id, payload).outgoing == c.outgoing && Deliver(c, id, payload).sendTimes == c.sendTimes - {id}
  {
  }

  lemma OldReplyKeeps(c: Client, id: RpcId, payload: string, now: int)
    requires HasReply(c, id) || id !in c.outgoing
    ensures OnReply(c, id, payload, now).outgoing == c.outgoing
    ensures OnReply(c, id, payload, now).sendTimes == c.sendTimes
  {
  }

  /** What is outgoing after the release was so before, or is released now; it is not the request replied to. */
  lemma TimesAfterErase(c: Client, id: RpcId, now: int, other: RpcId)
    requires ClientOk(c) && id in c.outgoing && other in EraseAndRelease(c, id, now).outgoing
    ensures var d := EraseAndRelease(c, id, now);
      && other != id && other in d.sendTimes
      && if other in c.outgoing then other in c.sendTimes && d.sendTimes[other] == c.sendTimes[other]
         else other in c.delayed && d.sendTimes[other] == now
  {
  }

  /** An outgoing request keeps its send time, or was sent first by this step. */
  ghost predicate SendTimeKept(l: Link, a: Action, id: RpcId)
    requires Enabled(l, a)
  {
    var c, d := l.client, Apply(l, a).client;
    && id in d.sendTimes
    && if id in c.outgoing && id in c.sendTimes && d.sendTimes[id] == c.sendTimes[id] then true
       else FirstSends(l, a, id, d.sendTimes[id])
  }

  lemma SendTimeElse(l: Link, a: Action, id: RpcId)
    requires BooksOk(l.client) && Enabled(l, a) && !a.IssueRequest? && !a.ReceiveReply?
    requires id in Apply(l, a).client.outgoing
    ensures SendTimeKept(l, a, id)
  {
  }

  lemma SendTimeStep(l: Link, a: Action, id: RpcId)
    requires Inv(l) && Enabled(l, a) && id in Apply(l, a).client.outgoing
    ensures SendTimeKept(l, a, id)
  {
    match a
    case IssueRequest(request, oneWay, now) => SendTimeAfterIssue(l, request, oneWay, now, id);
    case ReceiveReply(reply, now) => SendTimeAfterReply(l, reply, now, id);
    case _ => SendTimeElse(l, a, id);
  }

  lemma SendTimeOfStep(states: seq<Link>, actions: seq<Action>, k: nat, id: RpcId)
    requires IsRun(states, actions) && k < |actions| && id in states[k + 1].client.outgoing
    ensures Enabled(states[k], actions[k]) && id in states[k + 1].client.sendTimes
    ensures
      || (id in states[k].client.outgoing && id in states[k].client.sendTimes
          && states[k + 1].client.sendTimes[id] == states[k].client.sendTimes[id])
      || FirstSends(states[k], actions[k], id, states[k + 1].client.sendTimes[id])
  {
    RunInv(states, actions, k);
    SendTimeStep(states[k], actions[k], id);
  }

  /** The stored send time of an outgoing request is the client's reading when it was sent for the first time. */
  lemma {:induction false} SendTimeIsFirstSend(states: seq<Link>, actions: seq<Action>, k: nat, id: RpcId)
    returns (i: nat)
    requires IsRun(states, actions) && k < |states| && id in states[k].client.outgoing
    ensures id in states[k].client.sendTimes
    ensures i < k && FirstSends(states[i], actions[i], id, states[k].client.sendTimes[id])
    decreases k
  {
    if k == 0 {
      assert false;
    } else {
      SendTimeOfStep(states, actions, k - 1, id);
      i := k - 1;
      if !FirstSends(states[i], actions[i], id, states[k].client.sendTimes[id]) {
        i := SendTimeIsFirstSend(states, actions, k - 1, id);
      }
    }
  }

  // ---------------------------------------------------------------------- the stamps of a reply

  /** The step accepts the request at that reading of the server's clock. */
  ghost predicate AcceptsAt(l: Link, a: Action, id: RpcId, time: int) {
    Accepts(l, a, id) && a.now == time
  }

  lemma ReceiveTimeStep(l: Link, a: Action, id: RpcId)
    requires ServerOk(l.server) && Enabled(l, a) && id in Apply(l, a).server.receiveTimes
    ensures var s, t := l.server, Apply(l, a).server;
      (id in s.receiveTimes && t.receiveTimes[id] == s.receiveTimes[id]) || AcceptsAt(l, a, id, t.receiveTimes[id])
  {
  }

  lemma ReceiveTimeOfStep(states: seq<Link>, actions: seq<Action>, k: nat, id: RpcId)
    requires IsRun(states, actions) && k < |actions| && id in states[k + 1].server.receiveTimes
    ensures var s, t := states[k].server, states[k + 1].server;
      || (id in s.receiveTimes && t.receiveTimes[id] == s.receiveTimes[id])
      || AcceptsAt(states[k], actions[k], id, t.receiveTimes[id])
  {
    RunInv(states, actions, k);
    ReceiveTimeStep(states[k], actions[k], id);
  }

  /** The stored receive time is the server's reading when it accepted the request. */
  lemma {:induction false} ReceiveTimeIsAcceptance(states: seq<Link>, actions: seq<Action>, k: nat, id: RpcId)
    returns (i: nat)
    requires IsRun(states, actions) && k < |states| && id in states[k].server.receiveTimes
    ensures i < k && AcceptsAt(states[i], actions[i], id, states[k].server.receiveTimes[id])
    decreases k
  {
    if k == 0 {
      assert false;
    } else {
      ReceiveTimeOfStep(states, actions, k - 1, id);
      i := k - 1;
      if !AcceptsAt(states[i], actions[i], id, states[k].server.receiveTimes[id]) {
        i := ReceiveTimeIsAcceptance(states, actions, k - 1, id);
      }
    }
  }

  /** The step sends the reply to that request at that reading of the server's clock. */
  ghost predicate RepliesAt(a: Action, id: RpcId, time: int) {
    match a
    case ReceiveRequest(request, now) => request.id == id && now == time
    case AnswerRequest(answered, _, now) => answered == id && now == time
    case ResendSomeReplies(times) => id in times && times[id] == time
    case _ => false
  }

  lemma ReplyStep(l: Link, a: Action, reply: StampedReply)
    requires ServerOk(l.server) && Enabled(l, a)
    requires reply in Apply(l, a).server.sentReplies && reply !in l.server.sentReplies
    ensures reply.id in Apply(l, a).server.receiveTimes
    ensures Apply(l, a).server.receiveTimes[reply.id] == reply.receiveTime
    ensures RepliesAt(a, reply.id, reply.sendTime)
  {
  }

  lemma ReplyOfStep(states: seq<Link>, actions: seq<Action>, k: nat, reply: StampedReply)
    requires IsRun(states, actions) && k < |actions|
    requires reply in states[k + 1].server.sentReplies && reply !in states[k].server.sentReplies
    ensures reply.id in states[k + 1].server.receiveTimes
    ensures states[k + 1].server.receiveTimes[reply.id] == reply.receiveTime
    ensures RepliesAt(actions[k], reply.id, reply.sendTime)
  {
    RunInv(states, actions, k);
    ReplyStep(states[k], actions[k], reply);
  }

  /** A reply on the wire carries the server's readings at the acceptance of its request and at that sending. */
  lemma {:induction false} ReplyStamps(states: seq<Link>, actions: seq<Action>, k: nat, reply: StampedReply)
    returns (i: nat, j: nat)
    requires IsRun(states, actions) && k < |states| && reply in states[k].server.sentReplies
    ensures i <= j < k
    ensures AcceptsAt(states[i], actions[i], reply.id, reply.receiveTime)
    ensures RepliesAt(actions[j], reply.id, reply.sendTime)
    decreases k
  {
    if k == 0 {
      assert false;
    } else if reply in states[k - 1].server.sentReplies {
      i, j := ReplyStamps(states, actions, k - 1, reply);
    } else {
      ReplyOfStep(states, actions, k - 1, reply);
      i := ReceiveTimeIsAcceptance(states, actions, k, reply.id);
      j := k - 1;
    }
  }

  // ------------------------------------------------------------------------------ true times

  lemma SentStays(l: Link, a: Action)
    requires Enabled(l, a)
    ensures l.client.sentRequests <= Apply(l, a).client.sentRequests
  {
  }

  lemma SentStaysInRun(states: seq<Link>, actions: seq<Action>, k: nat)
    requires IsRun(states, actions) && k < |actions|
    ensures states[k].client.sentRequests <= states[k + 1].client.sentRequests
  {
    SentStays(states[k], actions[k]);
  }

  lemma {:induction false} SentForever(states: seq<Link>, actions: seq<Action>, i: nat, j: nat)
    requires IsRun(states, actions) && i <= j < |states|
    ensures states[i].client.sentRequests <= states[j].client.sentRequests
    decreases j
  {
    if i < j {
      SentForever(states, actions, i, j - 1);
      SentStaysInRun(states, actions, j - 1);
    }
  }

  lemma AcceptedWasSent(states: seq<Link>, actions: seq<Action>, i: nat, id: RpcId)
    requires IsRun(states, actions) && i < |actions| && Accepts(states[i], actions[i], id)
    ensures exists r :: r in states[i].client.sentRequests && r.id == id
  {
    assert Enabled(states[i], actions[i]);
    assert actions[i].request in states[i].client.sentRequests;
  }

  /** What is accepted was sent before. */
  lemma SentBeforeAccepted(states: seq<Link>, actions: seq<Action>, s: nat, i: nat, id: RpcId, time: int)
    requires IsRun(states, actions) && s < |actions| && i < |actions|
    requires FirstSends(states[s], actions[s], id, time) && Accepts(states[i], actions[i], id)
    ensures s < i
  {
    if i <= s {
      AcceptedWasSent(states, actions, i, id);
      SentForever(states, actions, i, s);
    }
  }

  /**
   Step `k` happens at time `when(k)`, which never goes back. The client's clock shows that time, the
   server's clock is `offset` ahead.
   */
  ghost predicate Clocked(actions: seq<Action>, when: nat -> int, offset: int) {
    && (forall k: nat | k < |actions| :: ReadsClock(actions[k], when(k), offset))
    && (forall i: nat, j: nat | i <= j < |actions| :: when(i) <= when(j))
  }

  ghost predicate ReadsClock(a: Action, time: int, offset: int) {
    match a
    case IssueRequest(_, _, now) => now == time
    case ReceiveReply(_, now) => now == time
    case ReceiveRequest(_, now) => now == time + offset
    case AnswerRequest(_, _, now) => now == time + offset
    case ResendSomeReplies(times) => forall i | i in times :: times[i] == time + offset
    case _ => true
  }

  /** The step receives the first reply to an outgoing request. */
  ghost predicate Finishes(l: Link, a: Action) {
    a.ReceiveReply? && a.reply.id in l.client.outgoing
  }

  /** The four stamps of that reply: the stored one, its own two, and the present time. */
  ghost function SampleOf(l: Link, a: Action, halfPing: int): Sample
    requires Finishes(l, a)
  {
    var reply, times := a.reply, l.client.sendTimes;
    Sample(if reply.id in times then times[reply.id] else 0, reply.receiveTime, reply.sendTime, a.now, halfPing)
  }

  lemma ReplyWasSent(states: seq<Link>, actions: seq<Action>, k: nat)
    requires IsRun(states, actions) && k < |actions| && actions[k].ReceiveReply?
    ensures actions[k].reply in states[k].server.sentReplies
  {
    assert Enabled(states[k], actions[k]);
  }

  /**
   With a constant offset between the clocks, every first reply of a run, whatever was lost, repeated or
   reordered before, is an exchange with that offset.
   */
  lemma FirstReplyIsExchange(states: seq<Link>, actions: seq<Action>, when: nat -> int, offset: int, k: nat,
                             halfPing: int)
    returns (delay: Delay)
    requires IsRun(states, actions) && Clocked(actions, when, offset) && k < |actions|
    requires Finishes(states[k], actions[k])
    ensures Exchange(SampleOf(states[k], actions[k], halfPing), offset, delay)
  {
    var reply := actions[k].reply;
    ReplyWasSent(states, actions, k);
    var s := SendTimeIsFirstSend(states, actions, k, reply.id);
    var i, j := ReplyStamps(states, actions, k, reply);
    SentBeforeAccepted(states, actions, s, i, reply.id, states[k].client.sendTimes[reply.id]);
    delay := StampsAreExchange(actions[s], actions[i], actions[j], actions[k], reply,
                               states[k].client.sendTimes[reply.id], when(s), when(i), when(j), when(k), offset,
                                 halfPing);
  }

  /** The four steps at their times. */
  lemma StampsAreExchange(send: Action, accept: Action, answer: Action, receive: Action, reply: StampedReply,
                          sendTime: int, ws: int, wi: int, wj: int, wk: int, offset: int, halfPing: int)
    returns (delay: Delay)
    requires ReadsClock(send, ws, offset) && ReadsClock(accept, wi, offset) && ReadsClock(answer, wj, offset)
    requires ReadsClock(receive, wk, offset) && ws <= wi <= wj <= wk
    requires (send.IssueRequest? || send.ReceiveReply?) && send.now == sendTime
    requires accept.ReceiveRequest? && accept.now == reply.receiveTime && RepliesAt(answer, reply.id, reply.sendTime)
    requires receive.ReceiveReply?
    ensures Exchange(Sample(sendTime, reply.receiveTime, reply.sendTime, receive.now, halfPing), offset, delay)
  {
    delay := Delay(wi - ws, wk - wj);
  }

  /** A run under such clocks. */
  ghost predicate ClockedRun(states: seq<Link>, actions: seq<Action>, when: nat -> int, offset: int) {
    IsRun(states, actions) && Clocked(actions, when, offset)
  }

  /** The delays of the exchange that a step completes, if it does. */
  lemma NextDelay(states: seq<Link>, actions: seq<Action>, when: nat -> int, offset: int, k: nat, halfPing: int)
    returns (delay: Delay)
    requires ClockedRun(states, actions, when, offset) && k < |actions| < |states|
    ensures Finishes(states[k], actions[k]) ==> Exchange(SampleOf(states[k], actions[k], halfPing), offset, delay)
  {
    delay := Delay(0, 0);
    if Finishes(states[k], actions[k]) {
      delay := FirstReplyIsExchange(states, actions, when, offset, k, halfPing);
    }
  }

  /** The samples of the first `k` steps. */
  ghost function SamplesOf(states: seq<Link>, actions: seq<Action>, k: nat, halfPing: nat -> int): seq<Sample>
    requires k <= |actions| < |states|
  {
    if k == 0 then [] else
      var before, l, a := SamplesOf(states, actions, k - 1, halfPing), states[k - 1], actions[k - 1];
      if Finishes(l, a) then before + [SampleOf(l, a, halfPing(k - 1))] else before
  }

  /** The samples of the first `k` steps are exchanges with these delays. */
  ghost predicate Explained(states: seq<Link>, actions: seq<Action>, k: nat, halfPing: nat -> int, offset: int,
                            delays: seq<Delay>) {
    k <= |actions| < |states| && WithHost(SamplesOf(states, actions, k, halfPing), offset, delays)
  }

  lemma {:induction false} RunIsWithHost(states: seq<Link>, actions: seq<Action>, when: nat -> int, offset: int, k: nat,
                                        halfPing: nat -> int)
    returns (delays: seq<Delay>)
    requires ClockedRun(states, actions, when, offset) && k <= |actions| < |states|
    ensures Explained(states, actions, k, halfPing, offset, delays)
    decreases k
  {
    if k == 0 {
      delays := [];
    } else {
      delays := RunIsWithHost(states, actions, when, offset, k - 1, halfPing);
      var delay := NextDelay(states, actions, when, offset, k - 1, halfPing(k - 1));
      StepIsWithHost(states, actions, k, halfPing, offset, delays, delay);
      delays := if Finishes(states[k - 1], actions[k - 1]) then delays + [delay] else delays;
    }
  }

  lemma StepIsWithHost(states: seq<Link>, actions: seq<Action>, k: nat, halfPing: nat -> int, offset: int,
                       before: seq<Delay>, delay: Delay)
    requires 0 < k <= |actions| < |states| && Explained(states, actions, k - 1, halfPing, offset, before)
    requires var l, a := states[k - 1], actions[k - 1];
      Finishes(l, a) ==> Exchange(SampleOf(l, a, halfPing(k - 1)), offset, delay)
    ensures Explained(states, actions, k, halfPing, offset,
                      if Finishes(states[k - 1], actions[k - 1]) then before + [delay] else before)
  {
    var l, a := states[k - 1], actions[k - 1];
    if Finishes(l, a) {
      OneExchangeMore(SamplesOf(states, actions, k - 1, halfPing), offset, before, SampleOf(l, a, halfPing(k - 1)),
                      delay);
    }
  }

  lemma OneExchangeMore(samples: seq<Sample>, offset: int, delays: seq<Delay>, s: Sample, delay: Delay)
    requires WithHost(samples, offset, delays) && Exchange(s, offset, delay)
    ensures WithHost(samples + [s], offset, delays + [delay])
  {
  }

  /**
   The shift that a run with the host installs: after ten first replies it misses the negated offset by at
   most the mean of the single bounds, whatever the network did; after more, apart from the optimizer's reading.
   */
  lemma RunShiftError(states: seq<Link>, actions: seq<Action>, when: nat -> int, offset: int, halfPing: nat -> int,
                      trained: seq<int>)
    returns (delays: seq<Delay>)
    requires ClockedRun(states, actions, when, offset)
    requires |SamplesOf(states, actions, |actions|, halfPing)| == |trained| >= 10
    ensures WithHost(SamplesOf(states, actions, |actions|, halfPing), offset, delays)
    ensures var i := AfterHandling(SamplesOf(states, actions, |actions|, halfPing), trained);
      && 20 * Abs(i.shift - i.optimized + offset) <= TotalAsymmetry(delays[..10]) + 28
      && (|trained| == 10 ==> i.optimized == 0)
  {
    delays := RunIsWithHost(states, actions, when, offset, |actions|, halfPing);
    ExplainedShift(SamplesOf(states, actions, |actions|, halfPing), offset, delays, trained);
  }

  lemma ExplainedShift(samples: seq<Sample>, offset: int, delays: seq<Delay>, trained: seq<int>)
    requires WithHost(samples, offset, delays) && |samples| == |trained| >= 10
    ensures var i := AfterHandling(samples, trained);
      && 20 * Abs(i.shift - i.optimized + offset) <= TotalAsymmetry(delays[..10]) + 28
      && (|trained| == 10 ==> i.optimized == 0)
  {
    InstalledShiftError(samples, offset, delays, trained);
  }
}
