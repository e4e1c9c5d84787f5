/** `MultiEndpointHandler`: which endpoint is active, which are alternatives, dead or banned. */
module Endpoints {
  // A draw from an unordered set is a free choice of one of its elements.

  datatype Endpoint = Endpoint(address: int, port: int)

  /** The sets and the three times; a time of 0 means that nothing is waiting for a reply. */
  datatype State = State(
    active: Endpoint, alternatives: set<Endpoint>, dead: set<Endpoint>, banned: set<Endpoint>,
    lastUpdate: int, unrepliedSend: int, unrepliedSendOrKill: int)

  /** Seconds without a reply before another endpoint is tried. */
  const PATIENCE := 5

  ghost function Start(endpoints: seq<Endpoint>, now: int): State
    requires endpoints != []
  {
    State(endpoints[0], set e | e in endpoints[1..], {}, {}, now, 0, 0)
  }

  ghost predicate Partition(s: State) {
    s.active !in s.alternatives && s.active !in s.dead && s.alternatives !! s.dead
  }

  ghost function Known(s: State): set<Endpoint> {
    {s.active} + s.alternatives + s.dead
  }

  /** What killEndpoint draws from. */
  ghost function Candidates(s: State): set<Endpoint> {
    if s.alternatives != {} then s.alternatives else s.dead + {s.active}
  }

  ghost function Kill(s: State, drawn: Endpoint, now: int): State {
    s.(active := drawn, alternatives := s.alternatives - {drawn},
       dead := if s.alternatives != {} then s.dead + {s.active} else s.dead + {s.active} - {drawn},
       unrepliedSendOrKill := now)
  }

  ghost function Add(s: State, e: Endpoint): State {
    if e in s.banned || e in Known(s) then s else s.(alternatives := s.alternatives + {e})
  }

  /** hasEndpointAndResurrectIfFound */
  ghost function Resurrect(s: State, e: Endpoint): State {
    if e in s.banned || e == s.active then s
    else if e in s.alternatives then s.(active := e, alternatives := s.alternatives + {s.active} - {e})
    else if e in s.dead then s.(active := e, dead := s.dead - {e}, alternatives := s.alternatives + {s.active})
    else s
  }

  ghost function Ban(s: State, e: Endpoint, drawn: Endpoint, now: int): State {
    var marked := s.(banned := s.banned + {e});
    var moved := if s.active == e then Kill(marked, drawn, now) else marked;
    moved.(alternatives := moved.alternatives - {e}, dead := moved.dead - {e})
  }

  ghost function MarkSend(s: State, now: int): State {
    if s.unrepliedSend == 0 then s.(unrepliedSend := now, unrepliedSendOrKill := now) else s
  }

  /** Whether a send at this time gives up on the active endpoint. */
  ghost predicate SendKills(s: State, now: int) {
    var marked := MarkSend(s, now);
    now != s.lastUpdate && marked.unrepliedSend != 0 && marked.unrepliedSendOrKill + PATIENCE < now
  }

  ghost function AfterSend(s: State, drawn: Endpoint, now: int): State {
    var marked := MarkSend(s, now).(lastUpdate := now);
    if SendKills(s, now) then Kill(marked, drawn, now) else marked
  }

  ghost function Reply(s: State): State {
    s.(unrepliedSend := 0, unrepliedSendOrKill := 0)
  }

  // --------------------------------------------------------------------------------- one step

  datatype Action =
    | AddEndpoint(e: Endpoint)
    | FindEndpoint(e: Endpoint)
    | BanEndpoint(e: Endpoint, drawn: Endpoint, now: int)
    | SendMessage(drawn: Endpoint, now: int)
    | HandleReply

  ghost predicate Enabled(s: State, a: Action) {
    match a
    case BanEndpoint(e, drawn, now) => now > 0 && drawn in Candidates(s)
    case SendMessage(drawn, now) => now > 0 && drawn in Candidates(s)
    case _ => true
  }

  ghost function Apply(s: State, a: Action): State {
    match a
    case AddEndpoint(e) => Add(s, e)
    case FindEndpoint(e) => Resurrect(s, e)
    case BanEndpoint(e, drawn, now) => Ban(s, e, drawn, now)
    case SendMessage(drawn, now) => AfterSend(s, drawn, now)
    case HandleReply => Reply(s)
  }

  /** The partition holds at the start exactly if the first endpoint is not listed again. */
  lemma StartIsPartition(endpoints: seq<Endpoint>, now: int)
    requires endpoints != []
    ensures Partition(Start(endpoints, now)) <==> endpoints[0] !in endpoints[1..]
    ensures forall e :: e in Known(Start(endpoints, now)) <==> e in endpoints
  {
    assert endpoints == [endpoints[0]] + endpoints[1..];
  }

  /** The one ban that does nothing: of the active endpoint, drawn again for want of an alternative. */
  ghost predicate BanIsLost(s: State, e: Endpoint, drawn: Endpoint) {
    e == s.active && s.alternatives == {} && drawn == e
  }

  /** What a step makes of the endpoints known. */
  ghost function KnownAfter(s: State, a: Action): set<Endpoint> {
    match a
    case AddEndpoint(e) => if e in s.banned then Known(s) else Known(s) + {e}
    case BanEndpoint(e, drawn, now) => if BanIsLost(s, e, drawn) then Known(s) else Known(s) - {e}
    case _ => Known(s)
  }

  lemma KillKeeps(s: State, drawn: Endpoint, now: int)
    requires Partition(s) && drawn in Candidates(s)
    ensures Partition(Kill(s, drawn, now)) && Known(Kill(s, drawn, now)) == Known(s)
  {
  }

  lemma BanKeeps(s: State, e: Endpoint, drawn: Endpoint, now: int)
    requires Partition(s) && drawn in Candidates(s)
    ensures Partition(Ban(s, e, drawn, now))
    ensures Known(Ban(s, e, drawn, now)) == if BanIsLost(s, e, drawn) then Known(s) else Known(s) - {e}
  {
    var marked := s.(banned := s.banned + {e});
    KillKeeps(marked, drawn, now);
  }

  /** Every step keeps the partition, and only adding and banning change what is known. */
  lemma StepKeeps(s: State, a: Action)
    requires Partition(s) && Enabled(s, a)
    ensures Partition(Apply(s, a)) && Known(Apply(s, a)) == KnownAfter(s, a)
  {
    match a
    case AddEndpoint(e) =>
    case FindEndpoint(e) =>
      assert Known(Resurrect(s, e)) == Known(s);
    case BanEndpoint(e, drawn, now) =>
      BanKeeps(s, e, drawn, now);
    case SendMessage(drawn, now) =>
      KillKeeps(MarkSend(s, now).(lastUpdate := now), drawn, now);
    case HandleReply =>
  }

  // ---------------------------------------------------------------------------- what becomes of each

  /** A new endpoint is an alternative from then on, so that any ban is safe; one that is known or banned is not. */
  lemma AddedIsAlternative(s: State, e: Endpoint, b: Endpoint)
    requires Partition(s)
    ensures var t := Add(s, e);
      if e in s.banned || e in Known(s) then t == s
      else
        && e in Candidates(t) && BanIsSafe(t, b) && e !in s.alternatives
        && t.(alternatives := t.alternatives - {e}) == s
  {
  }

  /** Finding an endpoint and then the one it replaced undoes the first, but what was dead is an alternative now. */
  lemma FindingBack(s: State, e: Endpoint)
    requires Partition(s) && BannedAreGone(s)
    ensures var t := Resurrect(s, e);
      && (e in Known(s) ==> t.active == e && (e != s.active ==> s.active in Candidates(t)))
      && (e !in Known(s) ==> t == s)
      && Resurrect(t, s.active) ==
           if e in s.dead then s.(dead := s.dead - {e}, alternatives := s.alternatives + {e}) else s
  {
    var t := Resurrect(s, e);
    var u := Resurrect(t, s.active);
    if e in s.alternatives {
      assert t.alternatives + {e} - {s.active} == s.alternatives;
    } else if e in s.dead {
      assert t.alternatives + {e} - {s.active} == s.alternatives + {e};
    }
  }

  /** A banned endpoint is nowhere left; if it was active, what was drawn takes over and nothing else moves. */
  lemma BanMoves(s: State, e: Endpoint, drawn: Endpoint, now: int)
    requires Partition(s) && drawn in Candidates(s) && !BanIsLost(s, e, drawn)
    ensures var t := Ban(s, e, drawn, now);
      && t.active == (if e == s.active then drawn else s.active)
      && t.alternatives == s.alternatives - {e, t.active} && t.dead == s.dead - {e, t.active}
      && t.banned == s.banned + {e} && t.unrepliedSend == s.unrepliedSend
  {
  }

  // --------------------------------------------------------------------------------------- runs

  ghost predicate IsRun(s: State, actions: seq<Action>)
    decreases |actions|
  {
    actions == [] || (Enabled(s, actions[0]) && IsRun(Apply(s, actions[0]), actions[1..]))
  }

  ghost function Run(s: State, actions: seq<Action>): State
    decreases |actions|
  {
    if actions == [] then s else Run(Apply(s, actions[0]), actions[1..])
  }

  lemma {:induction false} RunKeepsPartition(s: State, actions: seq<Action>)
    requires Partition(s) && IsRun(s, actions)
    ensures Partition(Run(s, actions))
    decreases |actions|
  {
    if actions != [] {
      StepKeeps(s, actions[0]);
      RunKeepsPartition(Apply(s, actions[0]), actions[1..]);
    }
  }

  ghost predicate Conserving(a: Action) {
    !a.AddEndpoint? && !a.BanEndpoint?
  }

  /** No run without adding or banning gains or loses an endpoint. */
  lemma {:induction false} RunConserves(s: State, actions: seq<Action>)
    requires Partition(s) && IsRun(s, actions) && forall k | 0 <= k < |actions| :: Conserving(actions[k])
    ensures Known(Run(s, actions)) == Known(s)
    decreases |actions|
  {
    if actions != [] {
      assert Conserving(actions[0]);
      StepKeeps(s, actions[0]);
      RunConserves(Apply(s, actions[0]), actions[1..]);
    }
  }

  ghost predicate BannedAreGone(s: State) {
    s.banned !! Known(s)
  }

  /** At every point of the run the banned endpoints are gone. */
  ghost predicate AlwaysGone(s: State, actions: seq<Action>)
    decreases |actions|
  {
    BannedAreGone(s) && (actions != [] ==> AlwaysGone(Apply(s, actions[0]), actions[1..]))
  }

  /** No ban of the run is lost. */
  ghost predicate NoBanLost(s: State, actions: seq<Action>)
    decreases |actions|
  {
    actions != [] ==>
      && (actions[0].BanEndpoint? ==> !BanIsLost(s, actions[0].e, actions[0].drawn))
      && NoBanLost(Apply(s, actions[0]), actions[1..])
  }

  lemma StepKeepsGone(s: State, a: Action)
    requires Partition(s) && Enabled(s, a) && BannedAreGone(s)
    ensures BannedAreGone(Apply(s, a)) <==> (a.BanEndpoint? ==> !BanIsLost(s, a.e, a.drawn))
  {
    StepKeeps(s, a);
    if a.BanEndpoint? {
      assert Apply(s, a).banned == s.banned + {a.e};
      assert a.e in Apply(s, a).banned;
    } else {
      assert Apply(s, a).banned == s.banned;
    }
  }

  /**
   A banned endpoint is never active, alternative or dead again, over a whole run, exactly if no
   ban hits the active endpoint, finds no alternative and draws that endpoint again.
   */
  lemma {:induction false} BannedStayGone(s: State, actions: seq<Action>)
    requires Partition(s) && IsRun(s, actions) && BannedAreGone(s)
    ensures AlwaysGone(s, actions) <==> NoBanLost(s, actions)
    decreases |actions|
  {
    if actions != [] {
      StepKeeps(s, actions[0]);
      StepKeepsGone(s, actions[0]);
      var next := Apply(s, actions[0]);
      if BannedAreGone(next) {
        BannedStayGone(next, actions[1..]);
      }
    }
  }

  /** What a caller can check before a ban: another endpoint than the active one, or an alternative left. */
  ghost predicate BanIsSafe(s: State, e: Endpoint) {
    e != s.active || s.alternatives != {}
  }

  /** A ban is safe exactly if no draw loses it, and a safe ban has the banned endpoint gone. */
  lemma SafeBanNeverLost(s: State, e: Endpoint, now: int)
    requires Partition(s)
    ensures BanIsSafe(s, e) <==> forall drawn | drawn in Candidates(s) :: !BanIsLost(s, e, drawn)
    ensures BanIsSafe(s, e) <==> forall drawn | drawn in Candidates(s) :: e !in Known(Ban(s, e, drawn, now))
  {
    forall drawn | drawn in Candidates(s)
      ensures e in Known(Ban(s, e, drawn, now)) <==> BanIsLost(s, e, drawn)
    {
      BanKeeps(s, e, drawn, now);
    }
    if !BanIsSafe(s, e) {
      assert e in Candidates(s) && BanIsLost(s, e, e);
    }
  }

  ghost predicate SafeAction(s: State, a: Action) {
    a.BanEndpoint? ==> BanIsSafe(s, a.e)
  }

  /** Every ban of the active endpoint, at its point of the run, finds an alternative left. */
  ghost predicate BansFindAlternative(s: State, actions: seq<Action>)
    decreases |actions|
  {
    actions != [] ==> SafeAction(s, actions[0]) && BansFindAlternative(Apply(s, actions[0]), actions[1..])
  }

  /** A run whose bans find an alternative keeps every banned endpoint away, at every point. */
  lemma {:induction false} SafeBansStayGone(s: State, actions: seq<Action>)
    requires Partition(s) && IsRun(s, actions) && BannedAreGone(s) && BansFindAlternative(s, actions)
    ensures AlwaysGone(s, actions)
    decreases |actions|
  {
    if actions != [] {
      StepKeeps(s, actions[0]);
      StepKeepsGone(s, actions[0]);
      SafeBansStayGone(Apply(s, actions[0]), actions[1..]);
    }
  }

  ghost function WithDraw(a: Action, drawn: Endpoint): Action {
    match a
    case BanEndpoint(e, _, now) => BanEndpoint(e, drawn, now)
    case SendMessage(_, now) => SendMessage(drawn, now)
    case _ => a
  }

  /** The same calls at the same times; only what is drawn may differ. */
  ghost predicate SameCalls(actions: seq<Action>, other: seq<Action>)
    decreases |actions|
  {
    |actions| == |other| &&
    (actions != [] ==> (exists drawn :: other[0] == WithDraw(actions[0], drawn)) && SameCalls(actions[1..], other[1..]))
  }

  /** Calls that may be made in one state may be made, with some draws, in any other. */
  lemma {:induction false} SomeDraws(s: State, t: State, actions: seq<Action>) returns (other: seq<Action>)
    requires IsRun(s, actions)
    ensures SameCalls(actions, other) && IsRun(t, other)
    decreases |actions|
  {
    if actions == [] {
      other := [];
    } else {
      var drawn := SomeCandidate(t);
      var a := WithDraw(actions[0], drawn);
      var rest := SomeDraws(Apply(s, actions[0]), Apply(t, a), actions[1..]);
      other := [a] + rest;
      assert other[1..] == rest && other[0] == WithDraw(actions[0], drawn);
    }
  }

  /** An unsafe ban can go wrong: the same calls with another draw leave a banned endpoint in place. */
  lemma {:induction false} UnsafeBanCanFail(s: State, actions: seq<Action>) returns (other: seq<Action>)
    requires Partition(s) && IsRun(s, actions) && !BansFindAlternative(s, actions)
    ensures SameCalls(actions, other) && IsRun(s, other) && !AlwaysGone(s, other)
    decreases |actions|
  {
    var a := actions[0];
    if SafeAction(s, a) {
      StepKeeps(s, a);
      var rest := UnsafeBanCanFail(Apply(s, a), actions[1..]);
      other := [a] + rest;
      assert other[1..] == rest && a == WithDraw(a, DrawOf(a));
    } else {
      var lost := WithDraw(a, s.active);
      LostBanShows(s, a.e, a.now);
      var rest := SomeDraws(Apply(s, a), Apply(s, lost), actions[1..]);
      other := [lost] + rest;
      assert other[1..] == rest && other[0] == WithDraw(a, s.active);
      NotGoneNow(Apply(s, lost), rest);
    }
  }

  ghost function DrawOf(a: Action): Endpoint {
    match a
    case AddEndpoint(e) => e
    case FindEndpoint(e) => e
    case BanEndpoint(_, drawn, _) => drawn
    case SendMessage(drawn, _) => drawn
    case HandleReply => Endpoint(0, 0)
  }

  lemma LostBanShows(s: State, e: Endpoint, now: int)
    requires Partition(s) && !BanIsSafe(s, e)
    ensures s.active in Candidates(s) && !BannedAreGone(Ban(s, e, s.active, now))
  {
    BanKeeps(s, e, s.active, now);
    assert e in Ban(s, e, s.active, now).banned && e in Known(s);
  }

  lemma NotGoneNow(s: State, actions: seq<Action>)
    requires !BannedAreGone(s)
    ensures !AlwaysGone(s, actions)
  {
  }

  /** The same calls, whatever they draw. */
  ghost predicate IsVariant(s: State, actions: seq<Action>, other: seq<Action>) {
    SameCalls(actions, other) && IsRun(s, other)
  }

  ghost predicate AlwaysGoneForAllDraws(s: State, actions: seq<Action>) {
    forall other | IsVariant(s, actions, other) :: AlwaysGone(s, other)
  }

  ghost predicate SafeForAllDraws(s: State, actions: seq<Action>) {
    forall other | IsVariant(s, actions, other) :: BansFindAlternative(s, other)
  }

  /**
   Whatever is drawn, a list of calls keeps every banned endpoint away exactly if, whatever is drawn,
   each ban of the active endpoint finds an alternative left.
   */
  lemma BannedStayGoneForAllDraws(s: State, actions: seq<Action>)
    requires Partition(s) && BannedAreGone(s)
    ensures AlwaysGoneForAllDraws(s, actions) <==> SafeForAllDraws(s, actions)
  {
    if SafeForAllDraws(s, actions) {
      forall other | IsVariant(s, actions, other)
        ensures AlwaysGone(s, other)
      {
        SafeBansStayGone(s, other);
      }
    } else {
      var other :| IsVariant(s, actions, other) && !BansFindAlternative(s, other);
      var bad := UnsafeBanCanFail(s, other);
      SameCallsChain(actions, other, bad);
      assert IsVariant(s, actions, bad);
    }
  }

  lemma {:induction false} SameCallsChain(a: seq<Action>, b: seq<Action>, c: seq<Action>)
    requires SameCalls(a, b) && SameCalls(b, c)
    ensures SameCalls(a, c)
    decreases |a|
  {
    if a != [] {
      var d :| b[0] == WithDraw(a[0], d);
      var d' :| c[0] == WithDraw(b[0], d');
      assert c[0] == WithDraw(a[0], d');
      SameCallsChain(a[1..], b[1..], c[1..]);
    }
  }

  /** With no alternative and nothing dead there is no other draw: such a ban is always lost. */
  lemma LastEndpointStays(s: State, drawn: Endpoint, now: int)
    requires Partition(s) && drawn in Candidates(s) && Known(s) == {s.active}
    ensures Ban(s, s.active, drawn, now).active == s.active && s.active in Ban(s, s.active, drawn, now).banned
  {
    assert s.alternatives <= Known(s) && s.alternatives == {};
    assert drawn in Known(s);
  }

  // -------------------------------------------------------------------------------------- timing

  ghost predicate TimesOk(s: State, last: int) {
    && last >= 0 && 0 <= s.unrepliedSend <= last && s.unrepliedSendOrKill <= last
    && (s.unrepliedSend > 0 ==> s.unrepliedSendOrKill >= s.unrepliedSend)
  }

  ghost function TimeOf(a: Action, last: int): int {
    match a
    case BanEndpoint(_, _, now) => now
    case SendMessage(_, now) => now
    case _ => last
  }

  /** The clock does not go back. */
  ghost predicate ClockOk(actions: seq<Action>, last: int) {
    actions != [] ==> TimeOf(actions[0], last) >= last && ClockOk(actions[1..], TimeOf(actions[0], last))
  }

  /** Nothing has been waiting, and no endpoint has been tried, since before `from`. */
  ghost predicate WaitsSince(s: State, from: int) {
    s.unrepliedSend > 0 ==> s.unrepliedSendOrKill >= from
  }

  lemma StepKeepsTimes(s: State, a: Action, last: int, from: int)
    requires Enabled(s, a) && TimesOk(s, last) && TimeOf(a, last) >= last >= from && WaitsSince(s, from)
    ensures TimesOk(Apply(s, a), TimeOf(a, last)) && WaitsSince(Apply(s, a), from)
  {
  }

  /** Once something happened at `from` that restarts the wait, no later send gives up before the patience is over. */
  lemma {:induction false} PatienceOverRuns(s: State, actions: seq<Action>, last: int, from: int, drawn: Endpoint,
                                            now: int)
    requires IsRun(s, actions) && ClockOk(actions + [SendMessage(drawn, now)], last)
    requires TimesOk(s, last) && last >= from && WaitsSince(s, from)
    ensures SendKills(Run(s, actions), now) ==> now > from + PATIENCE
    decreases |actions|
  {
    if actions == [] {
      assert actions + [SendMessage(drawn, now)] == [SendMessage(drawn, now)];
    } else {
      assert (actions + [SendMessage(drawn, now)])[1..] == actions[1..] + [SendMessage(drawn, now)];
      StepKeepsTimes(s, actions[0], last, from);
      PatienceOverRuns(Apply(s, actions[0]), actions[1..], TimeOf(actions[0], last), from, drawn, now);
    }
  }

  /** A reply, the start of a wait and giving up all restart the wait. */
  lemma WaitRestarts(s: State, a: Action, last: int)
    requires Enabled(s, a) && TimesOk(s, last) && TimeOf(a, last) >= last
    requires
      || a.HandleReply?
      || (a.SendMessage? && (s.unrepliedSend == 0 || SendKills(s, a.now)))
      || (a.BanEndpoint? && a.e == s.active)
    ensures TimesOk(Apply(s, a), TimeOf(a, last)) && WaitsSince(Apply(s, a), TimeOf(a, last))
  {
  }

  /** No update is overdue: the last one came within the patience. */
  ghost predicate Updated(s: State, last: int) {
    TimesOk(s, last) && (s.unrepliedSend != 0 ==> s.lastUpdate <= s.unrepliedSendOrKill + PATIENCE)
  }

  lemma StepKeepsUpdated(s: State, a: Action, last: int)
    requires Enabled(s, a) && Updated(s, last) && TimeOf(a, last) >= last
    ensures Updated(Apply(s, a), TimeOf(a, last))
  {
  }

  /** Updating once a second at most misses nothing: at each send of a run the wait alone decides. */
  lemma {:induction false} NoUpdateIsMissed(s: State, actions: seq<Action>, last: int, drawn: Endpoint, now: int)
    requires Updated(s, last) && IsRun(s, actions) && ClockOk(actions + [SendMessage(drawn, now)], last)
    ensures var t := Run(s, actions);
      SendKills(t, now) <==> t.unrepliedSend != 0 && now > t.unrepliedSendOrKill + 5
    decreases |actions|
  {
    if actions == [] {
      assert actions + [SendMessage(drawn, now)] == [SendMessage(drawn, now)];
    } else {
      assert (actions + [SendMessage(drawn, now)])[1..] == actions[1..] + [SendMessage(drawn, now)];
      StepKeepsUpdated(s, actions[0], last);
      NoUpdateIsMissed(Apply(s, actions[0]), actions[1..], TimeOf(actions[0], last), drawn, now);
    }
  }

  lemma StartIsUpdated(endpoints: seq<Endpoint>, now: int)
    requires endpoints != [] && now >= 0
    ensures Updated(Start(endpoints, now), now)
  {
  }

  // ------------------------------------------------------------------------------- giving up in time

  /** Whether a send is without a reply after these actions, if it was before them. */
  ghost predicate WaitingAfter(waiting: bool, actions: seq<Action>)
    decreases |actions|
  {
    if actions == [] then waiting else
      var a := actions[0];
      WaitingAfter(if a.HandleReply? then false else if a.SendMessage? then true else waiting, actions[1..])
  }

  lemma {:induction false} WaitingIsUnreplied(s: State, actions: seq<Action>)
    requires IsRun(s, actions)
    ensures Run(s, actions).unrepliedSend != 0 <==> WaitingAfter(s.unrepliedSend != 0, actions)
    decreases |actions|
  {
    if actions != [] {
      WaitingIsUnreplied(Apply(s, actions[0]), actions[1..]);
    }
  }

  /** No reply, no ban of the active endpoint, and no send after `limit`. */
  ghost predicate Quiet(s: State, actions: seq<Action>, limit: int)
    decreases |actions|
  {
    actions != [] ==>
      && var a := actions[0];
      && !a.HandleReply? && (a.BanEndpoint? ==> a.e != s.active) && (a.SendMessage? ==> a.now <= limit)
      && Quiet(Apply(s, a), actions[1..], limit)
  }

  /** The active endpoint is dead, and another is active: an alternative, or for want of one any that is dead. */
  ghost predicate GaveUp(s: State, t: State) {
    if s.alternatives != {} then
      && t.active in s.alternatives && t.alternatives == s.alternatives - {t.active}
      && t.dead == s.dead + {s.active}
    else
      && t.active in s.dead + {s.active} && t.alternatives == {}
      && t.dead == s.dead + {s.active} - {t.active}
  }

  ghost predicate SameEndpoints(s: State, t: State) {
    t.active == s.active && t.alternatives == s.alternatives && t.dead == s.dead
  }

  /** Waiting for a reply, the wait having begun at `from`. */
  ghost predicate WaitsFrom(s: State, from: int) {
    s.unrepliedSend > 0 && s.unrepliedSendOrKill == from && s.lastUpdate <= from + 5
  }

  /** The first send without a reply begins the wait. */
  lemma WaitBegins(s: State, drawn: Endpoint, from: int)
    requires s.unrepliedSend == 0 && from > 0 && s.lastUpdate <= from
    ensures var t := Apply(s, SendMessage(drawn, from)); WaitsFrom(t, from) && SameEndpoints(s, t)
  {
  }

  lemma {:induction false} QuietWaits(s: State, actions: seq<Action>, from: int)
    requires WaitsFrom(s, from) && Quiet(s, actions, from + 5) && IsRun(s, actions)
    ensures WaitsFrom(Run(s, actions), from)
    decreases |actions|
  {
    if actions != [] {
      QuietWaits(Apply(s, actions[0]), actions[1..], from);
    }
  }

  /** A send gives up exactly when more than five seconds have passed, and then the wait begins anew. */
  lemma SendDecides(s: State, drawn: Endpoint, from: int, now: int)
    requires Partition(s) && WaitsFrom(s, from) && Enabled(s, SendMessage(drawn, now))
    ensures var t := Apply(s, SendMessage(drawn, now));
      if now > from + 5 then GaveUp(s, t) && t.active == drawn && WaitsFrom(t, now) else SameEndpoints(s, t)
  {
  }

  /** A ban of the active endpoint during the wait also begins it anew. */
  lemma BanBeginsAnew(s: State, drawn: Endpoint, from: int, now: int)
    requires WaitsFrom(s, from) && s.lastUpdate <= now && Enabled(s, BanEndpoint(s.active, drawn, now))
    ensures WaitsFrom(Apply(s, BanEndpoint(s.active, drawn, now)), now)
  {
  }

  lemma {:induction false} RunAppend(s: State, first: seq<Action>, rest: seq<Action>)
    ensures IsRun(s, first + rest) <==> IsRun(s, first) && IsRun(Run(s, first), rest)
    ensures Run(s, first + rest) == Run(Run(s, first), rest)
    decreases |first|
  {
    if first == [] {
      assert first + rest == rest;
    } else {
      assert (first + rest)[0] == first[0] && (first + rest)[1..] == first[1..] + rest;
      RunAppend(Apply(s, first[0]), first[1..], rest);
    }
  }

  lemma {:induction false} UpdatesAreSends(s: State, actions: seq<Action>, last: int)
    requires IsRun(s, actions) && s.lastUpdate <= last && forall a | a in actions :: TimeOf(a, last) <= last
    ensures Run(s, actions).lastUpdate <= last
    decreases |actions|
  {
    if actions != [] {
      assert actions[0] in actions && forall a | a in actions[1..] :: a in actions;
      UpdatesAreSends(Apply(s, actions[0]), actions[1..], last);
    }
  }

  /**
   From the start of a handler: once every send has its reply, a send at `from` waits; if no reply, no ban of
   the active endpoint and no send later than five seconds comes, the next send gives up exactly if it is later
   than five seconds, and then the wait begins anew.
   */
  lemma SendGivesUpExactly(endpoints: seq<Endpoint>, t0: int, before: seq<Action>, d: Endpoint, from: int,
                           quiet: seq<Action>, drawn: Endpoint, now: int)
    requires endpoints != [] && endpoints[0] !in endpoints[1..] && t0 <= from
    requires (forall a | a in before :: TimeOf(a, from) <= from) && !WaitingAfter(false, before)
    requires var s := Run(Start(endpoints, t0), before);
      var w := Apply(s, SendMessage(d, from));
      && IsRun(Start(endpoints, t0), before) && Enabled(s, SendMessage(d, from))
      && IsRun(w, quiet) && Quiet(w, quiet, from + 5) && Enabled(Run(w, quiet), SendMessage(drawn, now))
    ensures var all := before + ([SendMessage(d, from)] + quiet);
      var s := Run(Start(endpoints, t0), all);
      var t := Run(Start(endpoints, t0), all + [SendMessage(drawn, now)]);
      && IsRun(Start(endpoints, t0), all + [SendMessage(drawn, now)])
      && if now > from + 5 then GaveUp(s, t) && t.active == drawn && WaitsFrom(t, now) else SameEndpoints(s, t)
  {
    var start := Start(endpoints, t0);
    var s := Run(start, before);
    var send, last := [SendMessage(d, from)], [SendMessage(drawn, now)];
    WaitingIsUnreplied(start, before);
    UpdatesAreSends(start, before, from);
    WaitBegins(s, d, from);
    var w := Apply(s, SendMessage(d, from));
    QuietWaits(w, quiet, from);
    OneAction(s, SendMessage(d, from));
    RunAppend(s, send, quiet);
    RunAppend(start, before, send + quiet);
    StartIsPartition(endpoints, t0);
    RunKeepsPartition(start, before + (send + quiet));
    var r := Run(w, quiet);
    SendDecides(r, drawn, from, now);
    OneAction(r, SendMessage(drawn, now));
    RunAppend(start, before + (send + quiet), last);
  }

  lemma OneAction(s: State, a: Action)
    ensures Run(s, [a]) == Apply(s, a) && (IsRun(s, [a]) <==> Enabled(s, a))
  {
    assert [a][1..] == [];
  }

  /** What happens while one endpoint is waited for, and the send that gives it up. */
  datatype Episode = Episode(quiet: seq<Action>, drawn: Endpoint, now: int)

  ghost predicate OnlySends(actions: seq<Action>) {
    forall a | a in actions :: a.SendMessage?
  }

  /** Sends without a reply, each episode ending in a send more than five seconds after the last. */
  ghost predicate AreEpisodes(s: State, from: int, episodes: seq<Episode>)
    decreases |episodes|
  {
    episodes != [] ==>
      && var e := episodes[0];
      && OnlySends(e.quiet) && IsRun(s, e.quiet) && Quiet(s, e.quiet, from + 5)
      && var t := Run(s, e.quiet);
      && Enabled(t, SendMessage(e.drawn, e.now)) && e.now > from + 5
      && AreEpisodes(Apply(t, SendMessage(e.drawn, e.now)), e.now, episodes[1..])
  }

  ghost function AfterEpisodes(s: State, episodes: seq<Episode>): State
    decreases |episodes|
  {
    if episodes == [] then s else
      var e := episodes[0];
      AfterEpisodes(Apply(Run(s, e.quiet), SendMessage(e.drawn, e.now)), episodes[1..])
  }

  lemma {:induction false} QuietSendsKeepEndpoints(s: State, actions: seq<Action>, from: int)
    requires WaitsFrom(s, from) && OnlySends(actions) && Quiet(s, actions, from + 5) && IsRun(s, actions)
    ensures SameEndpoints(s, Run(s, actions))
    decreases |actions|
  {
    if actions != [] {
      assert actions[0] in actions && forall a | a in actions[1..] :: a in actions;
      QuietSendsKeepEndpoints(Apply(s, actions[0]), actions[1..], from);
    }
  }

  lemma EpisodeGivesUp(s: State, from: int, e: Episode)
    requires Partition(s) && WaitsFrom(s, from) && AreEpisodes(s, from, [e])
    ensures var t := Apply(Run(s, e.quiet), SendMessage(e.drawn, e.now));
      Partition(t) && WaitsFrom(t, e.now) && GaveUp(s, t)
  {
    var r := Run(s, e.quiet);
    QuietWaits(s, e.quiet, from);
    QuietSendsKeepEndpoints(s, e.quiet, from);
    RunKeepsPartition(s, e.quiet);
    SendDecides(r, e.drawn, from, e.now);
    StepKeeps(r, SendMessage(e.drawn, e.now));
  }

  /** Without a reply every alternative has its turn: as many episodes as alternatives leave none untried. */
  lemma {:induction false} EveryAlternativeIsTried(s: State, from: int, episodes: seq<Episode>)
    requires Partition(s) && WaitsFrom(s, from) && AreEpisodes(s, from, episodes) && |episodes| <= |s.alternatives|
    ensures var t := AfterEpisodes(s, episodes);
      && |t.alternatives| == |s.alternatives| - |episodes| && t.alternatives <= s.alternatives
      && t.dead + {t.active} == s.dead + {s.active} + (s.alternatives - t.alternatives)
    decreases |episodes|
  {
    if episodes != [] {
      var e := episodes[0];
      EpisodeGivesUp(s, from, e);
      var t := Apply(Run(s, e.quiet), SendMessage(e.drawn, e.now));
      assert s.alternatives != {};
      EveryAlternativeIsTried(t, e.now, episodes[1..]);
    }
  }

  /**
   Two endpoints, a send at 100 and one at 106 without a reply between them: the second takes over; at 105 it does not.
   */
  lemma SilentAfterSixSeconds(a: Endpoint, b: Endpoint)
    requires a != b
    ensures var s := Apply(Start([a, b], 50), SendMessage(b, 100));
      && Apply(s, SendMessage(b, 105)).active == a
      && Apply(s, SendMessage(b, 106)).active == b && Apply(s, SendMessage(b, 106)).dead == {a}
  {
    assert [a, b][1..] == [b];
  }

  // ------------------------------------------------------------------------------------ the class

  class MultiEndpointHandler {
    var activeEndpoint: Endpoint
    var alternativeEndpoints: set<Endpoint>
    var deadEndpoints: set<Endpoint>
    var bannedEndpoints: set<Endpoint>
    var lastUpdateTime: int
    var lastUnrepliedSendTime: int
    var lastUnrepliedSendOrKillTime: int

    ghost function Abstract(): State
      reads this
    {
      State(activeEndpoint, alternativeEndpoints, deadEndpoints, bannedEndpoints,
            lastUpdateTime, lastUnrepliedSendTime, lastUnrepliedSendOrKillTime)
    }

    constructor (endpoints: seq<Endpoint>, now: int)
      requires endpoints != []
      ensures Abstract() == Start(endpoints, now)
    {
      lastUpdateTime, lastUnrepliedSendTime, lastUnrepliedSendOrKillTime := now, 0, 0;
      deadEndpoints, bannedEndpoints := {}, {};
      activeEndpoint := endpoints[0];
      alternativeEndpoints := {};
      new;
      for a := 1 to |endpoints|
        invariant Abstract() == State(endpoints[0], set e | e in endpoints[1..a], {}, {}, now, 0, 0)
      {
        assert endpoints[1..a + 1] == endpoints[1..a] + [endpoints[a]];
        alternativeEndpoints := alternativeEndpoints + {endpoints[a]};
      }
      assert endpoints[1..|endpoints|] == endpoints[1..];
    }

    method AddEndpoint(newEndpoint: Endpoint)
      modifies this
      ensures Abstract() == Add(old(Abstract()), newEndpoint)
    {
      if newEndpoint in bannedEndpoints { return; }
      if activeEndpoint == newEndpoint { return; }
      if newEndpoint in alternativeEndpoints { return; }
      if newEndpoint in deadEndpoints { return; }
      alternativeEndpoints := alternativeEndpoints + {newEndpoint};
    }

    method HasEndpoint(newEndpoint: Endpoint) returns (has: bool)
      ensures has <==> newEndpoint in Abstract().banned + Known(Abstract())
    {
      if newEndpoint in bannedEndpoints { return true; }
      if activeEndpoint == newEndpoint { return true; }
      if newEndpoint in alternativeEndpoints { return true; }
      return newEndpoint in deadEndpoints;
    }

    method HasEndpointAndResurrectIfFound(endpoint: Endpoint) returns (found: bool)
      modifies this
      ensures Abstract() == Resurrect(old(Abstract()), endpoint)
      ensures found <==> endpoint in old(Known(Abstract())) && endpoint !in old(bannedEndpoints)
      ensures found ==> activeEndpoint == endpoint
    {
      if endpoint in bannedEndpoints { return false; }
      if endpoint == activeEndpoint { return true; }
      if endpoint in alternativeEndpoints {
        alternativeEndpoints := alternativeEndpoints + {activeEndpoint};
        alternativeEndpoints := alternativeEndpoints - {endpoint};
        activeEndpoint := endpoint;
        return true;
      }
      if endpoint in deadEndpoints {
        deadEndpoints := deadEndpoints - {endpoint};
        alternativeEndpoints := alternativeEndpoints + {activeEndpoint};
        activeEndpoint := endpoint;
        return true;
      }
      return false;
    }

    method KillEndpoint(now: int) returns (ghost drawn: Endpoint)
      modifies this
      ensures drawn in Candidates(old(Abstract())) && Abstract() == Kill(old(Abstract()), drawn, now)
    {
      deadEndpoints := deadEndpoints + {activeEndpoint};
      if alternativeEndpoints != {} {
        var it :| it in alternativeEndpoints;
        activeEndpoint := it;
        alternativeEndpoints := alternativeEndpoints - {it};
      } else {
        assert activeEndpoint in deadEndpoints;
        var it :| it in deadEndpoints;
        activeEndpoint := it;
        deadEndpoints := deadEndpoints - {it};
      }
      drawn := activeEndpoint;
      lastUnrepliedSendOrKillTime := now;
    }

    method BanEndpoint(newEndpoint: Endpoint, now: int) returns (ghost drawn: Endpoint)
      modifies this
      ensures drawn in Candidates(old(Abstract())) && Abstract() == Ban(old(Abstract()), newEndpoint, drawn, now)
    {
      bannedEndpoints := bannedEndpoints + {newEndpoint};
      if activeEndpoint == newEndpoint {
        drawn := KillEndpoint(now);
      } else {
        drawn := SomeCandidate(Abstract());
      }
      if newEndpoint in alternativeEndpoints {
        alternativeEndpoints := alternativeEndpoints - {newEndpoint};
      }
      if newEndpoint in deadEndpoints {
        deadEndpoints := deadEndpoints - {newEndpoint};
      }
    }

    /** update, with the drawn endpoint if there was a draw. */
    method Update(now: int) returns (ghost drawn: Endpoint)
      modifies this
      ensures drawn in Candidates(old(Abstract()))
      ensures Abstract() ==
        if old(lastUnrepliedSendTime) != 0 && old(lastUnrepliedSendOrKillTime) + PATIENCE < now
        then Kill(old(Abstract()), drawn, now) else old(Abstract())
    {
      drawn := SomeCandidate(Abstract());
      if lastUnrepliedSendTime == 0 {
        return;
      }
      if lastUnrepliedSendOrKillTime + PATIENCE < now {
        drawn := KillEndpoint(now);
      }
    }

    /** send, up to handing the message to the socket; its clock readings are one. */
    method Send(now: int) returns (ghost drawn: Endpoint)
      modifies this
      ensures drawn in Candidates(old(Abstract())) && Abstract() == AfterSend(old(Abstract()), drawn, now)
    {
      if lastUnrepliedSendTime == 0 {
        lastUnrepliedSendTime, lastUnrepliedSendOrKillTime := now, now;
      }
      drawn := SomeCandidate(Abstract());
      if now != lastUpdateTime {
        lastUpdateTime := now;
        drawn := Update(now);
      }
      if lastUnrepliedSendTime == 0 {
        lastUnrepliedSendTime, lastUnrepliedSendOrKillTime := now, now;
      }
    }

    /** The part of handleReply that this class adds. */
    method HandleReply()
      modifies this
      ensures Abstract() == Reply(old(Abstract()))
    {
      lastUnrepliedSendTime, lastUnrepliedSendOrKillTime := 0, 0;
    }
  }

  lemma SomeCandidate(s: State) returns (e: Endpoint)
    ensures e in Candidates(s)
  {
    if s.alternatives != {} {
      e :| e in s.alternatives;
    } else {
      e := s.active;
    }
  }
}
