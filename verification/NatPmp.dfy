/**
 The retry timer of the NAT-PMP client; a run is a list of polls of one request, with what each was given.
 */
module NatPmp {
  /** `struct timeval` */
  datatype Time = Time(sec: int, usec: int)

  const MICROSECONDS := 1_000_000

  const ERR_NO_PENDING_REQUEST := -6
  const ERR_NO_GATEWAY_SUPPORT := -7
  const TRY_AGAIN := -100

  const MAX_TRIES := 9

  /** The first delay in microseconds. */
  const FIRST_DELAY := 250_000

  function Micros(t: Time): int {
    t.sec * MICROSECONDS + t.usec
  }

  ghost predicate Normal(t: Time) {
    0 <= t.usec < MICROSECONDS
  }

  function Power2(k: nat): nat {
    if k == 0 then 1 else 2 * Power2(k - 1)
  }

  /** `has_pending_request`, `try_number` and `retry_time`. */
  datatype Timer = Timer(pending: bool, tries: nat, retry: Time)

  /** Adds a delay below one second to the microseconds, carrying at most one second. */
  function Carried(sec: int, usec: int): Time {
    if usec >= MICROSECONDS then Time(sec + 1, usec - MICROSECONDS) else Time(sec, usec)
  }

  /** The retry time after `tries` sends of a request first sent at `start`. */
  ghost function Schedule(start: int, tries: nat): int {
    start + FIRST_DELAY * (Power2(tries) - 1)
  }

  ghost predicate OnSchedule(t: Timer, start: int) {
    1 <= t.tries <= MAX_TRIES && Normal(t.retry) && Micros(t.retry) == Schedule(start, t.tries)
  }

  ghost function Started(now: Time): Timer {
    Timer(true, 1, Carried(now.sec, now.usec + FIRST_DELAY))
  }

  /** One poll: what reading returned, the clock, and what a send would return. */
  datatype Poll = Poll(read: int, now: Time, sent: int)

  datatype Polled = Polled(timer: Timer, result: int, resent: bool)

  ghost function Retried(t: Timer): Timer {
    var delay := 250 * Power2(t.tries);
    Timer(true, t.tries + 1, Carried(t.retry.sec + delay / 1000, t.retry.usec + delay % 1000 * 1000))
  }

  /** readnatpmpresponseorretry */
  ghost function Answer(t: Timer, p: Poll): Polled {
    if !t.pending then Polled(t, ERR_NO_PENDING_REQUEST, false)
    else if p.read >= 0 then Polled(t.(pending := false), p.read, false)
    else if p.read != TRY_AGAIN || Micros(p.now) < Micros(t.retry) then Polled(t, p.read, false)
    else if t.tries >= MAX_TRIES then Polled(t, ERR_NO_GATEWAY_SUPPORT, false)
    else Polled(Retried(t), if p.sent < 0 then p.sent else TRY_AGAIN, true)
  }

  lemma StartedOnSchedule(now: Time)
    requires Normal(now)
    ensures OnSchedule(Started(now), Micros(now))
  {
    assert Power2(1) == 2;
  }

  /** The delays double: the whole milliseconds split into seconds and a rest that carries once. */
  lemma RetriedOnSchedule(t: Timer, start: int)
    requires OnSchedule(t, start) && t.tries < MAX_TRIES
    ensures OnSchedule(Retried(t), start)
  {
    var delay := 250 * Power2(t.tries);
    assert delay / 1000 * 1000 + delay % 1000 == delay;
    assert Power2(t.tries + 1) == 2 * Power2(t.tries);
  }

  lemma AnswerKeepsSchedule(t: Timer, p: Poll, start: int)
    requires OnSchedule(t, start)
    ensures OnSchedule(Answer(t, p).timer, start)
    ensures Answer(t, p).timer.tries == t.tries + if Answer(t, p).resent then 1 else 0
  {
    if Answer(t, p).resent {
      RetriedOnSchedule(t, start);
    }
  }

  /** The request is sent again exactly by a poll that reads nothing, in time, with fewer than nine sends. */
  lemma ResendsExactly(t: Timer, p: Poll, start: int)
    requires OnSchedule(t, start)
    ensures Answer(t, p).resent <==>
      t.pending && p.read == -100 && Micros(p.now) >= Schedule(start, t.tries) && t.tries < 9
    ensures var a := Answer(t, p);
      if a.resent then
        && a.timer.pending && a.timer.tries == t.tries + 1 && Micros(a.timer.retry) == Schedule(start, t.tries + 1)
        && a.result == (if p.sent < 0 then p.sent else -100)
      else a.timer.tries == t.tries && a.timer.retry == t.retry
  {
    if Answer(t, p).resent {
      RetriedOnSchedule(t, start);
    }
  }

  /** Only a response ends the request; what else is read is passed on. */
  lemma ResponseEnds(t: Timer, p: Poll)
    requires t.pending
    ensures Answer(t, p).timer.pending <==> p.read < 0
    ensures p.read != TRY_AGAIN ==> Answer(t, p).result == p.read && !Answer(t, p).resent
  {
  }

  // --------------------------------------------------------------------------------------- runs

  ghost function AfterPolls(t: Timer, polls: seq<Poll>): Timer
    decreases |polls|
  {
    if polls == [] then t else AfterPolls(Answer(t, polls[0]).timer, polls[1..])
  }

  /** The clock readings at which a run sent the request again. */
  ghost function Resends(t: Timer, polls: seq<Poll>): seq<int>
    decreases |polls|
  {
    if polls == [] then [] else
      var a := Answer(t, polls[0]);
      (if a.resent then [Micros(polls[0].now)] else []) + Resends(a.timer, polls[1..])
  }

  /**
   In every run of a request the retry time follows the schedule, the request is sent at most
   nine times, and never before its time.
   */
  lemma {:induction false} RetrySchedule(t: Timer, polls: seq<Poll>, start: int)
    requires OnSchedule(t, start)
    ensures OnSchedule(AfterPolls(t, polls), start)
    ensures |Resends(t, polls)| == AfterPolls(t, polls).tries - t.tries <= MAX_TRIES - t.tries
    ensures InTime(Resends(t, polls), start, t.tries)
    decreases |polls|
  {
    if polls != [] {
      var a := Answer(t, polls[0]);
      AnswerKeepsSchedule(t, polls[0], start);
      RetrySchedule(a.timer, polls[1..], start);
      if a.resent {
        FirstInTime(Micros(polls[0].now), Resends(a.timer, polls[1..]), start, t.tries);
      }
    }
  }

  /** The sends are not before their times, which start with that of try `tries`. */
  ghost predicate InTime(sends: seq<int>, start: int, tries: nat) {
    forall k: nat | k < |sends| :: sends[k] >= Schedule(start, tries + k)
  }

  lemma FirstInTime(first: int, later: seq<int>, start: int, tries: nat)
    requires first >= Schedule(start, tries) && InTime(later, start, tries + 1)
    ensures InTime([first] + later, start, tries)
  {
    forall k: nat | 0 < k < 1 + |later|
      ensures ([first] + later)[k] >= Schedule(start, tries + k)
    {
      var j: nat := k - 1;
      assert later[j] >= Schedule(start, tries + 1 + j);
    }
  }

  /** Once it has ended nothing is sent any more and every poll says that nothing is pending. */
  lemma {:induction false} EndedStaysEnded(t: Timer, polls: seq<Poll>, p: Poll)
    requires !t.pending
    ensures Resends(t, polls) == [] && Answer(AfterPolls(t, polls), p).result == -6
    decreases |polls|
  {
    if polls != [] {
      EndedStaysEnded(t, polls[1..], p);
    }
  }

  /** Nothing is ever read. */
  ghost predicate Silent(polls: seq<Poll>) {
    forall p | p in polls :: p.read == TRY_AGAIN
  }

  /** The polls at these indices come one after the other and at or after the times of tries `tries` and on. */
  ghost predicate Follow(picks: seq<nat>, polls: seq<Poll>, start: int, tries: nat) {
    && (forall j | 0 <= j < |picks| ::
          picks[j] < |polls| && Micros(polls[picks[j]].now) >= Schedule(start, tries + j))
    && (forall j, k | 0 <= j < k < |picks| :: picks[j] < picks[k])
  }

  /** The polls without the first one, which is not picked. */
  ghost function Earlier(picks: seq<nat>): seq<nat>
    requires forall j | 0 <= j < |picks| :: picks[j] > 0
  {
    seq(|picks|, j requires 0 <= j < |picks| => picks[j] - 1)
  }

  ghost function Later(picks: seq<nat>): seq<nat> {
    seq(|picks|, j requires 0 <= j < |picks| => picks[j] + 1)
  }

  lemma EarlierFollow(picks: seq<nat>, polls: seq<Poll>, start: int, tries: nat)
    requires polls != [] && Follow(picks, polls, start, tries) && forall j | 0 <= j < |picks| :: picks[j] > 0
    ensures Follow(Earlier(picks), polls[1..], start, tries)
  {
  }

  lemma LaterFollow(picks: seq<nat>, polls: seq<Poll>, start: int, tries: nat)
    requires polls != [] && Follow(picks, polls[1..], start, tries)
    ensures Follow(Later(picks), polls, start, tries)
  {
  }

  lemma DropFirstPick(picks: seq<nat>, polls: seq<Poll>, start: int, tries: nat)
    requires picks != [] && Follow(picks, polls, start, tries)
    ensures Follow(picks[1..], polls, start, tries + 1) && forall j | 0 <= j < |picks[1..]| :: picks[1..][j] > 0
  {
    forall j | 0 <= j < |picks[1..]|
      ensures picks[1..][j] > picks[0] && Micros(polls[picks[1..][j]].now) >= Schedule(start, tries + 1 + j)
    {
      assert picks[1..][j] == picks[j + 1];
    }
  }

  lemma AddFirstPick(picks: seq<nat>, polls: seq<Poll>, start: int, tries: nat)
    requires polls != [] && Micros(polls[0].now) >= Schedule(start, tries)
    requires Follow(picks, polls[1..], start, tries + 1)
    ensures Follow([0] + Later(picks), polls, start, tries)
  {
    var all := [0] + Later(picks);
    LaterFollow(picks, polls, start, tries + 1);
    forall j | 0 <= j < |all|
      ensures all[j] < |polls| && Micros(polls[all[j]].now) >= Schedule(start, tries + j)
    {
      if j > 0 {
        var i: nat := j - 1;
        assert all[j] == Later(picks)[i];
        assert Micros(polls[Later(picks)[i]].now) >= Schedule(start, tries + 1 + i);
      }
    }
  }

  /** When nothing is read, the tries a run makes are those whose times are followed by polls of their own. */
  lemma {:induction false} FollowedIsTried(t: Timer, polls: seq<Poll>, start: int, picks: seq<nat>)
    requires OnSchedule(t, start) && t.pending && Silent(polls)
    requires Follow(picks, polls, start, t.tries) && t.tries + |picks| <= MAX_TRIES
    ensures AfterPolls(t, polls).pending && AfterPolls(t, polls).tries >= t.tries + |picks|
    decreases |polls|
  {
    if polls != [] {
      var a := Answer(t, polls[0]);
      ResendsExactly(t, polls[0], start);
      AnswerKeepsSchedule(t, polls[0], start);
      assert polls[0] in polls && forall p | p in polls[1..] :: p in polls;
      var rest := picks;
      if picks != [] && (a.resent || picks[0] == 0) {
        DropFirstPick(picks, polls, start, t.tries);
        rest := picks[1..];
      } else if picks != [] {
        PicksArePositive(picks, polls, start, t.tries);
      }
      EarlierFollow(rest, polls, start, a.timer.tries);
      FollowedIsTried(a.timer, polls[1..], start, Earlier(rest));
    }
  }

  lemma PicksArePositive(picks: seq<nat>, polls: seq<Poll>, start: int, tries: nat)
    requires picks != [] && Follow(picks, polls, start, tries) && picks[0] != 0
    ensures forall j | 0 <= j < |picks| :: picks[j] > 0
  {
  }

  lemma {:induction false} TriedIsFollowed(t: Timer, polls: seq<Poll>, start: int) returns (picks: seq<nat>)
    requires OnSchedule(t, start) && t.pending && Silent(polls)
    ensures Follow(picks, polls, start, t.tries) && AfterPolls(t, polls).tries == t.tries + |picks|
    decreases |polls|
  {
    picks := [];
    if polls != [] {
      var a := Answer(t, polls[0]);
      ResendsExactly(t, polls[0], start);
      AnswerKeepsSchedule(t, polls[0], start);
      assert polls[0] in polls && forall p | p in polls[1..] :: p in polls;
      var rest := TriedIsFollowed(a.timer, polls[1..], start);
      if a.resent {
        AddFirstPick(rest, polls, start, t.tries);
        picks := [0] + Later(rest);
      } else {
        LaterFollow(rest, polls, start, t.tries);
        picks := Later(rest);
      }
    }
  }

  /**
   A silent run has sent the request `tries` times exactly if the times of all but the first are followed by polls.
   */
  lemma SilentRunTries(polls: seq<Poll>, first: Time, tries: nat)
    requires Normal(first) && Silent(polls) && 1 <= tries <= 9
    ensures AfterPolls(Started(first), polls).tries >= tries <==>
      exists picks :: |picks| == tries - 1 && Follow(picks, polls, Micros(first), 1)
  {
    StartedOnSchedule(first);
    var t := Started(first);
    if picks :| |picks| == tries - 1 && Follow(picks, polls, Micros(first), 1) {
      FollowedIsTried(t, polls, Micros(first), picks);
    }
    if AfterPolls(t, polls).tries >= tries {
      var picks := TriedIsFollowed(t, polls, Micros(first));
      assert Follow(picks[..tries - 1], polls, Micros(first), 1);
    }
  }

  /**
   A silent gateway: if every scheduled time is followed by a poll, all nine sends are made, and a poll at or
   after 127.75 seconds reports that the gateway is missing.
   */
  lemma SilentGatewayIsReported(polls: seq<Poll>, first: Time, picks: seq<nat>, p: Poll)
    requires Normal(first) && Silent(polls) && |picks| == 8 && Follow(picks, polls, Micros(first), 1)
    requires p.read == TRY_AGAIN && Micros(p.now) >= Micros(first) + 127_750_000
    ensures AfterPolls(Started(first), polls).tries == 9 && |Resends(Started(first), polls)| == 8
    ensures Answer(AfterPolls(Started(first), polls), p).result == -7
  {
    StartedOnSchedule(first);
    FollowedIsTried(Started(first), polls, Micros(first), picks);
    RetrySchedule(Started(first), polls, Micros(first));
    GivesUp(polls, first, p);
  }

  /** The request of time 0 is sent again by a poll at 300 ms, and next due at 750 ms. */
  lemma RetryAt300(sent: int)
    ensures var a := Answer(Started(Time(0, 0)), Poll(TRY_AGAIN, Time(0, 300_000), sent));
      a.resent && a.timer == Timer(true, 2, Time(0, 750_000))
  {
    assert Power2(1) == 2;
  }

  /**
   The retry timer gives up on the gateway exactly when nothing was read, nine sends were made and
   the clock has reached 127.75 seconds after the first one.
   */
  lemma GivesUp(polls: seq<Poll>, first: Time, p: Poll)
    requires Normal(first) && p.read == TRY_AGAIN
    ensures var t := AfterPolls(Started(first), polls);
      t.pending ==>
        (Answer(t, p).result == -7 && !Answer(t, p).resent <==>
          t.tries == MAX_TRIES && Micros(p.now) >= Micros(first) + 127_750_000)
  {
    StartedOnSchedule(first);
    RetrySchedule(Started(first), polls, Micros(first));
    assert Power2(5) == 32;
    assert Power2(9) == 512;
  }

  // ------------------------------------------------------------------------------------ the class

  class NatPmpClient {
    var hasPendingRequest: bool
    var tryNumber: nat
    var retryTime: Time

    ghost function Abstract(): Timer
      reads this
    {
      Timer(hasPendingRequest, tryNumber, retryTime)
    }

    /** sendnatpmprequest; `sent` is what sendpendingrequest returned. */
    method SendNatPmpRequest(now: Time, sent: int) returns (n: int)
      requires Normal(now)
      modifies this
      ensures Abstract() == Started(now) && OnSchedule(Abstract(), Micros(now)) && n == sent
    {
      hasPendingRequest := true;
      tryNumber := 1;
      n := sent;
      retryTime := now;
      retryTime := retryTime.(usec := retryTime.usec + FIRST_DELAY);
      if retryTime.usec >= MICROSECONDS {
        retryTime := retryTime.(usec := retryTime.usec - MICROSECONDS);
        retryTime := retryTime.(sec := retryTime.sec + 1);
      }
      StartedOnSchedule(now);
    }

    /** The time left until the next retry, negative once it is past. */
    method GetNatPmpRequestTimeout(now: Time) returns (result: int, timeout: Time)
      requires Normal(now) && Normal(retryTime)
      ensures result == if hasPendingRequest then 0 else ERR_NO_PENDING_REQUEST
      ensures hasPendingRequest ==> Normal(timeout) && Micros(timeout) == Micros(retryTime) - Micros(now)
    {
      timeout := Time(0, 0);
      if !hasPendingRequest {
        return ERR_NO_PENDING_REQUEST, timeout;
      }
      result := 0;
      timeout := Time(retryTime.sec - now.sec, retryTime.usec - now.usec);
      if timeout.usec < 0 {
        timeout := Time(timeout.sec - 1, timeout.usec + MICROSECONDS);
      }
    }

    /** readnatpmpresponseorretry; `read` is what readnatpmpresponse returned. */
    method ReadNatPmpResponseOrRetry(read: int, now: Time, sent: int) returns (n: int, resent: bool)
      requires Normal(now) && Normal(retryTime)
      modifies this
      ensures Polled(Abstract(), n, resent) == Answer(old(Abstract()), Poll(read, now, sent))
    {
      resent := false;
      if !hasPendingRequest {
        return ERR_NO_PENDING_REQUEST, resent;
      }
      n := read;
      if n < 0 {
        if n == TRY_AGAIN {
          if now.sec > retryTime.sec || (now.sec == retryTime.sec && now.usec >= retryTime.usec) {
            if tryNumber >= MAX_TRIES {
              return ERR_NO_GATEWAY_SUPPORT, resent;
            }
            var delay := 250 * Power2(tryNumber);
            retryTime := retryTime.(sec := retryTime.sec + delay / 1000);
            retryTime := retryTime.(usec := retryTime.usec + delay % 1000 * 1000);
            if retryTime.usec >= MICROSECONDS {
              retryTime := retryTime.(usec := retryTime.usec - MICROSECONDS);
              retryTime := retryTime.(sec := retryTime.sec + 1);
            }
            tryNumber := tryNumber + 1;
            resent := true;
            if sent < 0 {
              return sent, resent;
            }
          }
        }
      } else {
        hasPendingRequest := false;
      }
    }
  }
}
