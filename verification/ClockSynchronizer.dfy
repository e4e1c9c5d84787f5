/** Clock synchronisation against the host: the two maps of time stamps, and the estimate of the drift. */
module Clock {
  // The floating-point estimators appear only through the integers the code takes from them: half the mean
  // ping, and the reading of the trained offset optimizer.

  import opened RpcState

  /** Division of the source language: it rounds towards zero. `b` is positive throughout. */
  function Quotient(a: int, b: int): int
    requires b > 0
  {
    if a >= 0 then a / b else -(-a / b)
  }

  /** The number of replies averaged into the baseline. */
  const BASELINE_REPLIES := 10

  datatype Drift = Drift(count: nat, baseline: int)

  /** The four time stamps of one exchange, in microseconds of the clock that took each. */
  datatype Sample = Sample(requestSend: int, requestReceive: int, replySend: int, replyReceive: int, halfPing: int)

  function TimeOffset(s: Sample): int {
    var request := -1 * ((s.requestReceive - s.requestSend) - s.halfPing);
    var reply := (s.replyReceive - s.replySend) - s.halfPing;
    Quotient(request + reply, 2)
  }

  function Ping(s: Sample): int {
    (s.replyReceive - s.requestSend) - (s.replySend - s.requestReceive)
  }

  /** One reply's effect on the count and the baseline; only a client of the host keeps a baseline. */
  function Update(d: Drift, connectedToHost: bool, offset: int): Drift {
    var count := d.count + 1;
    if !connectedToHost || count > BASELINE_REPLIES then Drift(count, d.baseline)
    else if count < BASELINE_REPLIES then Drift(count, d.baseline + offset)
    else Drift(count, Quotient(d.baseline + offset, count))
  }

  /** What replies change: the estimate, the optimizer's reading in microseconds and the installed shift. */
  datatype Installed = Installed(drift: Drift, optimized: int, shift: int)

  const NOTHING_INSTALLED := Installed(Drift(0, 0), 0, 0)

  /** One reply; the optimizer is trained, to whatever it makes of the label, only once the baseline is final. */
  function Install(i: Installed, connectedToHost: bool, offset: int, trained: int): Installed {
    var drift := Update(i.drift, connectedToHost, offset);
    if !connectedToHost then i.(drift := drift)
    else
      var optimized := if drift.count > BASELINE_REPLIES then trained else i.optimized;
      Installed(drift, optimized, optimized + drift.baseline)
  }

  class TimeHandler {
    var noiseShift: int
    var timeShift: int
    var optimized: int

    constructor ()
      ensures noiseShift == 0 && timeShift == 0 && optimized == 0
    {
      noiseShift, timeShift, optimized := 0, 0, 0;
    }

    /** `raw` is what the virtual now() returns. */
    function CurrentTimeMicros(raw: int): int
      reads this
    {
      raw - (timeShift + noiseShift)
    }
  }

  class ClockSynchronizer {
    const timeHandler: TimeHandler
    const connectedToHost: bool
    var requestSendTimeMap: map<RpcId, int>
    var requestReceiveTimeMap: map<RpcId, int>
    var count: nat
    var baselineOffset: int

    constructor (timeHandler: TimeHandler, connectedToHost: bool)
      ensures this.timeHandler == timeHandler && this.connectedToHost == connectedToHost
      ensures requestSendTimeMap == map[] && requestReceiveTimeMap == map[] && Estimate() == Drift(0, 0)
    {
      this.timeHandler, this.connectedToHost := timeHandler, connectedToHost;
      requestSendTimeMap, requestReceiveTimeMap := map[], map[];
      count, baselineOffset := 0, 0;
    }

    ghost function Estimate(): Drift
      reads this
    {
      Drift(count, baselineOffset)
    }

    ghost function State(): Installed
      reads this, timeHandler
    {
      Installed(Estimate(), timeHandler.optimized, timeHandler.timeShift)
    }

    /** A time stamp: whatever shift is installed cancels out of it. */
    function Stamp(raw: int): (stamp: int)
      reads timeHandler
      ensures stamp == raw - timeHandler.noiseShift
    {
      timeHandler.CurrentTimeMicros(raw) + timeHandler.timeShift
    }

    /** A second request with the same id is fatal in the source. */
    method CreateRequest(id: RpcId, raw: int)
      requires id !in requestSendTimeMap
      modifies this`requestSendTimeMap
      ensures requestSendTimeMap == old(requestSendTimeMap)[id := Stamp(raw)]
    {
      requestSendTimeMap := requestSendTimeMap[id := Stamp(raw)];
    }

    method ReceiveRequest(id: RpcId, raw: int)
      requires id !in requestReceiveTimeMap
      modifies this`requestReceiveTimeMap
      ensures requestReceiveTimeMap == old(requestReceiveTimeMap)[id := Stamp(raw)]
    {
      requestReceiveTimeMap := requestReceiveTimeMap[id := Stamp(raw)];
    }

    method GetReplyDuration(id: RpcId, raw: int) returns (receiveTime: int, sendTime: int)
      requires id in requestReceiveTimeMap
      ensures receiveTime == requestReceiveTimeMap[id] && sendTime == Stamp(raw)
    {
      receiveTime, sendTime := requestReceiveTimeMap[id], Stamp(raw);
    }

    method EraseRequestReceiveTime(id: RpcId)
      requires id in requestReceiveTimeMap
      modifies this`requestReceiveTimeMap
      ensures requestReceiveTimeMap == old(requestReceiveTimeMap) - {id}
    {
      requestReceiveTimeMap := requestReceiveTimeMap - {id};
    }

    method HandleReply(id: RpcId, requestReceiveTime: int, replySendTime: int, raw: int, halfPing: int, trained: int)
      requires id in requestSendTimeMap
      modifies this`requestSendTimeMap, this`count, this`baselineOffset, timeHandler`timeShift, timeHandler`optimized
      ensures requestSendTimeMap == old(requestSendTimeMap) - {id}
      ensures
        var sent, received := old(requestSendTimeMap)[id], old(Stamp(raw));
        var s := Sample(sent, requestReceiveTime, replySendTime, received, halfPing);
        State() == Install(old(State()), connectedToHost, TimeOffset(s), trained)
    {
      var requestSendTime := requestSendTimeMap[id];
      requestSendTimeMap := requestSendTimeMap - {id};
      UpdateDrift(Sample(requestSendTime, requestReceiveTime, replySendTime, Stamp(raw), halfPing), trained);
    }

    method UpdateDrift(s: Sample, trained: int)
      modifies this`count, this`baselineOffset, timeHandler`timeShift, timeHandler`optimized
      ensures State() == Install(old(State()), connectedToHost, TimeOffset(s), trained)
    {
      var timeOffset := TimeOffset(s);
      count := count + 1;
      if connectedToHost {
        if count < BASELINE_REPLIES {
          baselineOffset := baselineOffset + timeOffset;
        } else if count == BASELINE_REPLIES {
          baselineOffset := baselineOffset + timeOffset;
          baselineOffset := Quotient(baselineOffset, count);
        } else {
          timeHandler.optimized := trained;
        }
        timeHandler.timeShift := timeHandler.optimized + baselineOffset;
      }
    }
  }

  // ------------------------------------------------------------------------ the error bound

  function Abs(x: int): nat {
    if x < 0 then -x else x
  }

  /** The one-way delays of an exchange; only their difference misleads the estimate. */
  datatype Delay = Delay(there: nat, back: nat) {
    function Asymmetry(): nat {
      if there <= back then back - there else there - back
    }
  }

  /** The exchange of a peer whose clock runs `offset` ahead, with one-way delays `there` and `back`. */
  predicate Exchange(s: Sample, offset: int, delay: Delay) {
    && s.requestReceive == s.requestSend + delay.there + offset
    && s.replyReceive == s.replySend + delay.back - offset
  }

  /** The ping term cancels: one sample misses the negated offset by half the asymmetry plus rounding. */
  lemma OffsetError(s: Sample, offset: int, delay: Delay)
    requires Exchange(s, offset, delay)
    ensures 2 * Abs(TimeOffset(s) + offset) <= delay.Asymmetry() + 1
    ensures Ping(s) == delay.there + delay.back && 2 * Abs(TimeOffset(s) + offset) <= Ping(s) + 1
  {
  }

  /** The sample is half the difference of the delays and twice the offset, rounded towards zero. */
  lemma OffsetRoundsToZero(s: Sample, offset: int, delay: Delay)
    requires Exchange(s, offset, delay)
    ensures var twice, half := delay.back - delay.there - 2 * offset, TimeOffset(s);
      && Abs(2 * half) <= Abs(twice) <= Abs(2 * half) + 1
      && (twice >= 0 ==> half >= 0) && (twice <= 0 ==> half <= 0)
  {
  }

  /** The estimate after a list of replies. */
  function AfterReplies(samples: seq<Sample>): (d: Drift)
    ensures d.count == |samples|
  {
    if samples == [] then Drift(0, 0)
    else Update(AfterReplies(samples[..|samples| - 1]), true, TimeOffset(samples[|samples| - 1]))
  }

  /** What a client of the host has installed after a list of replies, with the optimizer's readings. */
  function AfterHandling(samples: seq<Sample>, trained: seq<int>): Installed
    requires |trained| == |samples|
  {
    if samples == [] then NOTHING_INSTALLED else
      var n := |samples| - 1;
      Install(AfterHandling(samples[..n], trained[..n]), true, TimeOffset(samples[n]), trained[n])
  }

  /** The installed shift is the baseline, and from the eleventh reply on the optimizer's reading on top. */
  lemma {:induction false} InstalledShift(samples: seq<Sample>, trained: seq<int>)
    requires |trained| == |samples|
    ensures var i := AfterHandling(samples, trained);
      && i.drift == AfterReplies(samples)
      && i.optimized == (if |samples| > BASELINE_REPLIES then trained[|samples| - 1] else 0)
      && i.shift == i.optimized + i.drift.baseline
  {
    if samples != [] {
      InstalledShift(samples[..|samples| - 1], trained[..|samples| - 1]);
    }
  }

  /** A list of replies on any connection. */
  function HandleAll(i: Installed, connectedToHost: bool, samples: seq<Sample>, trained: seq<int>): Installed
    requires |trained| == |samples|
  {
    if samples == [] then i else
      var n := |samples| - 1;
      Install(HandleAll(i, connectedToHost, samples[..n], trained[..n]), connectedToHost, TimeOffset(samples[n]),
              trained[n])
  }

  lemma {:induction false} HostRepliesAreHandled(samples: seq<Sample>, trained: seq<int>)
    requires |trained| == |samples|
    ensures HandleAll(NOTHING_INSTALLED, true, samples, trained) == AfterHandling(samples, trained)
  {
    if samples != [] {
      HostRepliesAreHandled(samples[..|samples| - 1], trained[..|samples| - 1]);
    }
  }

  /** Replies of any peer but the host are counted and leave the shift as it is. */
  lemma {:induction false} OtherRepliesLeaveShift(i: Installed, samples: seq<Sample>, trained: seq<int>)
    requires |trained| == |samples|
    ensures var j := HandleAll(i, false, samples, trained);
      j.shift == i.shift && j.drift.baseline == i.drift.baseline && j.drift.count == i.drift.count + |samples|
  {
    if samples != [] {
      OtherRepliesLeaveShift(i, samples[..|samples| - 1], trained[..|samples| - 1]);
    }
  }

  /** Every sample is an exchange with the same host, whatever its delays. */
  ghost predicate WithHost(samples: seq<Sample>, offset: int, delays: seq<Delay>) {
    && |delays| == |samples|
    && forall k | 0 <= k < |samples| :: Exchange(samples[k], offset, delays[k])
  }

  function TotalAsymmetry(delays: seq<Delay>): nat {
    if delays == [] then 0
    else TotalAsymmetry(delays[..|delays| - 1]) + delays[|delays| - 1].Asymmetry()
  }

  /** Errors of a sum add up; `total` stands for the offset times the number of summands. */
  lemma AddError(sum: int, total: int, last: int, offset: int, sumBound: nat, lastBound: nat)
    requires 2 * Abs(sum + total) <= sumBound && 2 * Abs(last + offset) <= lastBound
    ensures 2 * Abs(sum + last + (total + offset)) <= sumBound + lastBound
  {
  }

  lemma MeanError(sum: int, offset: int, bound: nat)
    requires 2 * Abs(sum + 10 * offset) <= bound
    ensures 20 * Abs(Quotient(sum, 10) + offset) <= bound + 18
  {
  }

  lemma OneMore(n: nat, offset: int)
    ensures (n + 1) * offset == n * offset + offset
  {
  }

  lemma EarlyUpdate(samples: seq<Sample>)
    requires 0 < |samples| < BASELINE_REPLIES
    ensures var n := |samples| - 1;
      AfterReplies(samples).baseline == AfterReplies(samples[..n]).baseline + TimeOffset(samples[n])
  {
  }

  /**
   Before the tenth reply the baseline is a sum, not a mean: after k replies it is about k
   times the negated offset. For k = 1 that is the bound of a single sample.
   */
  lemma {:induction false} EarlyBaselineIsASum(samples: seq<Sample>, offset: int, delays: seq<Delay>)
    requires WithHost(samples, offset, delays) && |samples| < BASELINE_REPLIES
    ensures 2 * Abs(AfterReplies(samples).baseline + |samples| * offset) <= TotalAsymmetry(delays) + |samples|
  {
    if samples != [] {
      var n := |samples| - 1;
      var last := delays[n];
      assert WithHost(samples[..n], offset, delays[..n]);
      EarlyBaselineIsASum(samples[..n], offset, delays[..n]);
      OffsetError(samples[n], offset, last);
      AddError(AfterReplies(samples[..n]).baseline, n * offset, TimeOffset(samples[n]), offset,
               TotalAsymmetry(delays[..n]) + n, last.Asymmetry() + 1);
      OneMore(n, offset);
      EarlyUpdate(samples);
    }
  }

  /** With equal delays both ways every sample is exact, whatever the ping estimate. */
  ghost predicate Symmetric(delays: seq<Delay>) {
    forall k | 0 <= k < |delays| :: delays[k].there == delays[k].back
  }

  lemma SymmetricOffset(s: Sample, offset: int, delay: Delay)
    requires Exchange(s, offset, delay) && delay.there == delay.back
    ensures TimeOffset(s) == -offset
  {
  }

  lemma {:induction false} SymmetricSum(samples: seq<Sample>, offset: int, delays: seq<Delay>)
    requires WithHost(samples, offset, delays) && Symmetric(delays) && |samples| < BASELINE_REPLIES
    ensures AfterReplies(samples).baseline == -(|samples| * offset)
  {
    if samples != [] {
      var n := |samples| - 1;
      SymmetricSum(samples[..n], offset, delays[..n]);
      SymmetricOffset(samples[n], offset, delays[n]);
      OneMore(n, offset);
      EarlyUpdate(samples);
    }
  }

  lemma OnlyOneIsOne(k: nat, offset: int)
    requires k > 0
    ensures k * offset == offset <==> k == 1 || offset == 0
    ensures Abs(k * offset - offset) == (k - 1) * Abs(offset)
  {
    if offset == 0 {
      assert k * offset == 0;
    } else {
      OneMore(k - 1, offset);
      assert (k - 1) * offset == 0 <==> k == 1;
      AbsTimes(k - 1, offset);
    }
  }

  lemma AbsTimes(k: nat, x: int)
    ensures Abs(k * x) == k * Abs(x)
  {
    if x < 0 {
      assert k * x == -(k * -x);
    }
  }

  /**
   With equal delays the shift after k < 10 replies is exactly k times the negated offset: it is right
   exactly after the first reply, or if there is no offset to correct.
   */
  lemma {:induction false} EarlyShiftExactly(samples: seq<Sample>, offset: int, delays: seq<Delay>, trained: seq<int>)
    requires WithHost(samples, offset, delays) && Symmetric(delays) && |trained| == |samples|
    requires 0 < |samples| < BASELINE_REPLIES
    ensures AfterHandling(samples, trained).shift == -(|samples| * offset)
    ensures AfterHandling(samples, trained).shift == -offset <==> |samples| == 1 || offset == 0
  {
    InstalledShift(samples, trained);
    SymmetricSum(samples, offset, delays);
    OnlyOneIsOne(|samples|, offset);
  }

  /** With any delays, the shift after k < 10 replies misses by at least k - 1 offsets less the single bounds. */
  lemma {:induction false} EarlyShiftMisses(samples: seq<Sample>, offset: int, delays: seq<Delay>, trained: seq<int>)
    requires WithHost(samples, offset, delays) && |trained| == |samples| && 0 < |samples| < BASELINE_REPLIES
    ensures 2 * Abs(AfterHandling(samples, trained).shift + offset) >=
      2 * ((|samples| - 1) * Abs(offset)) - (TotalAsymmetry(delays) + |samples|)
  {
    InstalledShift(samples, trained);
    EarlyBaselineIsASum(samples, offset, delays);
    OnlyOneIsOne(|samples|, offset);
    FarFrom(AfterReplies(samples).baseline, |samples| * offset, offset, TotalAsymmetry(delays) + |samples|);
  }

  lemma FarFrom(sum: int, total: int, offset: int, bound: nat)
    requires 2 * Abs(sum + total) <= bound
    ensures 2 * Abs(sum + offset) >= 2 * Abs(total - offset) - bound
  {
  }

  const TWO_EXCHANGES := [Sample(0, 1005000, 1005000, 10000, 0), Sample(20000, 1025000, 1025000, 30000, 5000)]
  const EQUAL_DELAYS := [Delay(5000, 5000), Delay(5000, 5000)]

  /** A host one second ahead and 5 ms away: after two replies the shift is two seconds. */
  lemma {:induction false} SecondReplyDoubles(trained: seq<int>)
    requires |trained| == 2
    ensures WithHost(TWO_EXCHANGES, 1000000, EQUAL_DELAYS) && Symmetric(EQUAL_DELAYS)
    ensures AfterHandling(TWO_EXCHANGES, trained).shift == -2000000
  {
    TwoReplies(TWO_EXCHANGES, 1000000, EQUAL_DELAYS, trained);
  }

  lemma TwoReplies(samples: seq<Sample>, offset: int, delays: seq<Delay>, trained: seq<int>)
    requires |samples| == |trained| == 2 && WithHost(samples, offset, delays) && Symmetric(delays)
    ensures AfterHandling(samples, trained).shift == -(2 * offset)
  {
    EarlyShiftExactly(samples, offset, delays, trained);
  }

  /** The tenth reply turns the sum into a mean: half the mean asymmetry and 1.4 microseconds of rounding. */
  lemma TenthReplyError(samples: seq<Sample>, offset: int, delays: seq<Delay>)
    requires WithHost(samples, offset, delays) && |samples| == BASELINE_REPLIES
    ensures 20 * Abs(AfterReplies(samples).baseline + offset) <= TotalAsymmetry(delays) + 28
  {
    var sum := NinthSum(samples, offset, delays);
    var last := TenthOffset(samples, offset, delays);
    TenthUpdate(samples, sum);
    TotalOfTen(delays);
    TenthError(sum, last, offset, TotalAsymmetry(delays[..9]), delays[9].Asymmetry());
  }

  lemma TenthOffset(samples: seq<Sample>, offset: int, delays: seq<Delay>) returns (last: int)
    requires WithHost(samples, offset, delays) && |samples| == BASELINE_REPLIES
    ensures last == TimeOffset(samples[9]) && 2 * Abs(last + offset) <= delays[9].Asymmetry() + 1
  {
    OffsetError(samples[9], offset, delays[9]);
    last := TimeOffset(samples[9]);
  }

  /**
   After the tenth reply the installed shift is that mean. After any more replies it is the optimizer's
   reading on top of a mean as good as that of the first ten.
   */
  lemma InstalledShiftError(samples: seq<Sample>, offset: int, delays: seq<Delay>, trained: seq<int>)
    requires WithHost(samples, offset, delays) && |trained| == |samples| >= BASELINE_REPLIES
    ensures var i := AfterHandling(samples, trained);
      && 20 * Abs(i.shift - i.optimized + offset) <= TotalAsymmetry(delays[..BASELINE_REPLIES]) + 28
      && (|samples| == BASELINE_REPLIES ==> i.optimized == 0)
  {
    InstalledShift(samples, trained);
    BaselineIsFinal(samples);
    TenthReplyError(samples[..BASELINE_REPLIES], offset, delays[..BASELINE_REPLIES]);
  }

  lemma TotalOfTen(delays: seq<Delay>)
    requires |delays| == BASELINE_REPLIES
    ensures TotalAsymmetry(delays) == TotalAsymmetry(delays[..9]) + delays[9].Asymmetry()
  {
  }

  lemma TenthUpdate(samples: seq<Sample>, sum: int)
    requires |samples| == BASELINE_REPLIES && sum == AfterReplies(samples[..9]).baseline
    ensures AfterReplies(samples).baseline == Quotient(sum + TimeOffset(samples[9]), 10)
  {
  }

  lemma TenthError(sum: int, last: int, offset: int, sumBound: nat, lastBound: nat)
    requires 2 * Abs(sum + 9 * offset) <= sumBound + 9 && 2 * Abs(last + offset) <= lastBound + 1
    ensures 20 * Abs(Quotient(sum + last, 10) + offset) <= sumBound + lastBound + 28
  {
    AddError(sum, 9 * offset, last, offset, sumBound + 9, lastBound + 1);
    MeanError(sum + last, offset, sumBound + lastBound + 10);
  }

  lemma NinthSum(samples: seq<Sample>, offset: int, delays: seq<Delay>) returns (sum: int)
    requires WithHost(samples, offset, delays) && |samples| == BASELINE_REPLIES
    ensures sum == AfterReplies(samples[..9]).baseline && AfterReplies(samples[..9]).count == 9
    ensures 2 * Abs(sum + 9 * offset) <= TotalAsymmetry(delays[..9]) + 9
  {
    assert WithHost(samples[..9], offset, delays[..9]);
    EarlyBaselineIsASum(samples[..9], offset, delays[..9]);
    sum := AfterReplies(samples[..9]).baseline;
  }

  /** Later replies leave the baseline alone. */
  lemma {:induction false} BaselineIsFinal(samples: seq<Sample>)
    requires |samples| >= BASELINE_REPLIES
    ensures AfterReplies(samples).baseline == AfterReplies(samples[..BASELINE_REPLIES]).baseline
  {
    if |samples| == BASELINE_REPLIES {
      assert samples[..BASELINE_REPLIES] == samples;
    } else {
      var init := samples[..|samples| - 1];
      BaselineIsFinal(init);
      assert init[..BASELINE_REPLIES] == samples[..BASELINE_REPLIES];
    }
  }
}
