/** What a `ChronoMap` holds, and answers, after blocks of one partition of time arrive in any order. */
module ChronoConvergence {
  import opened Options
  import opened ChronoState

  /** Consecutive blocks from time 0 on. */
  ghost predicate IsPartition(blocks: seq<Block>) {
    && (forall i | 0 <= i < |blocks| :: blocks[i].start < blocks[i].end)
    && (|blocks| > 0 ==> blocks[0].start == 0)
    && (forall i | 0 < i < |blocks| :: blocks[i].start == blocks[i - 1].end)
  }

  /** The end of the first `p` blocks. */
  ghost function TimeAt(blocks: seq<Block>, p: nat): int
    requires p <= |blocks|
  {
    if p == 0 then 0 else blocks[p - 1].end
  }

  /** The data of the first `p` blocks merged in order. */
  ghost function Replay(blocks: seq<Block>, p: nat): map<string, Log>
    requires p <= |blocks|
  {
    if p == 0 then map[] else Merge(Replay(blocks, p - 1), blocks[p - 1].start, blocks[p - 1].changes)
  }

  /** The first index from `p` on that has not been delivered. */
  ghost function Front(delivered: set<nat>, p: nat, n: nat): (f: nat)
    requires p <= n
    ensures p <= f <= n && (forall i: nat | p <= i < f :: i in delivered) && (f < n ==> f !in delivered)
    decreases n - p
  {
    if p < n && p in delivered then Front(delivered, p + 1, n) else p
  }

  ghost predicate InRange(delivered: set<nat>, n: nat) {
    forall i | i in delivered :: i < n
  }

  /** Later blocks start later. */
  lemma {:induction false} StartsIncrease(blocks: seq<Block>, i: nat, j: nat)
    requires IsPartition(blocks) && i < j < |blocks|
    ensures blocks[i].end <= blocks[j].start
    decreases j
  {
    if i < j - 1 {
      StartsIncrease(blocks, i, j - 1);
    }
  }

  lemma TimesIncrease(blocks: seq<Block>, p: nat, i: nat)
    requires IsPartition(blocks) && p <= |blocks| && i < |blocks|
    ensures i < p ==> blocks[i].start < TimeAt(blocks, p)
    ensures i == p ==> blocks[i].start == TimeAt(blocks, p)
    ensures i > p ==> blocks[i].start > TimeAt(blocks, p)
    ensures 0 <= blocks[i].start
  {
    if i + 1 < p {
      StartsIncrease(blocks, i, p - 1);
    } else if 0 < p < i {
      StartsIncrease(blocks, p - 1, i);
      StartsIncrease(blocks, p, i);
    } else if p == 0 && i > 0 {
      StartsIncrease(blocks, 0, i);
    }
    if i > 0 {
      StartsIncrease(blocks, 0, i);
    }
  }

  /** Some delivered block, from `p` on, starts at that time. */
  ghost predicate Starts(blocks: seq<Block>, delivered: set<nat>, p: nat, s: int)
    requires InRange(delivered, |blocks|)
  {
    exists i :: i in delivered && p <= i && blocks[i].start == s
  }

  /** The waiting blocks, under their starts. */
  ghost predicate IsWaiting(future: map<int, Block>, blocks: seq<Block>, delivered: set<nat>, p: nat)
    requires InRange(delivered, |blocks|)
  {
    && (forall i | i in delivered && p <= i :: blocks[i].start in future && future[blocks[i].start] == blocks[i])
    && (forall s | s in future :: Starts(blocks, delivered, p, s))
  }

  /** The state that depends on nothing but the set of delivered blocks. */
  ghost predicate Holds(c: Chrono, blocks: seq<Block>, delivered: set<nat>)
    requires InRange(delivered, |blocks|)
  {
    var p := Front(delivered, 0, |blocks|);
    c.data == Replay(blocks, p) && c.expiration == TimeAt(blocks, p) && IsWaiting(c.future, blocks, delivered, p)
  }

  lemma SameWaiting(future: map<int, Block>, other: map<int, Block>, blocks: seq<Block>, delivered: set<nat>, p: nat)
    requires InRange(delivered, |blocks|) && IsWaiting(future, blocks, delivered, p)
    requires IsWaiting(other, blocks, delivered, p)
    ensures future.Keys <= other.Keys
    ensures forall s | s in future.Keys :: future[s] == other[s]
  {
    forall s | s in future.Keys
      ensures s in other.Keys && future[s] == other[s]
    {
      var i :| i in delivered && p <= i && blocks[i].start == s;
    }
  }

  lemma SameMaps(m: map<int, Block>, n: map<int, Block>)
    requires m.Keys == n.Keys && forall s | s in m.Keys :: m[s] == n[s]
    ensures m == n
  {
    assert forall s | s in m :: s in n && m[s] == n[s];
  }

  lemma HoldsIsUnique(c: Chrono, d: Chrono, blocks: seq<Block>, delivered: set<nat>)
    requires InRange(delivered, |blocks|) && Holds(c, blocks, delivered) && Holds(d, blocks, delivered)
    ensures c == d
  {
    SameWaiting(c.future, d.future, blocks, delivered, Front(delivered, 0, |blocks|));
    SameWaiting(d.future, c.future, blocks, delivered, Front(delivered, 0, |blocks|));
    SameMaps(c.future, d.future);
  }

  /** The keys of a replay: the first block's keys are there from the first block on. */
  lemma {:induction false} ReplayKeepsKeys(blocks: seq<Block>, p: nat)
    requires 0 < p <= |blocks|
    ensures blocks[0].changes.Keys <= Replay(blocks, p).Keys
  {
    if p > 1 {
      ReplayKeepsKeys(blocks, p - 1);
    }
  }

  lemma {:induction false} ReplayOk(blocks: seq<Block>, p: nat)
    requires IsPartition(blocks) && p <= |blocks|
    ensures DataOk(Replay(blocks, p), TimeAt(blocks, p)) && 0 <= TimeAt(blocks, p)
  {
    if p > 0 {
      ReplayOk(blocks, p - 1);
      TimesIncrease(blocks, p - 1, p - 1);
      MergeOk(Replay(blocks, p - 1), blocks[p - 1]);
    }
  }

  // ------------------------------------------------------------------------ one delivery

  /** The one fatal situation: the first two blocks are in and the first brought no key. */
  ghost predicate BadStart(blocks: seq<Block>, delivered: set<nat>) {
    |blocks| > 0 && blocks[0].changes.Keys == {} && 0 in delivered && 1 in delivered
  }

  /** Appending block p drains every waiting block that follows without a gap. */
  lemma {:induction false} Drain(c: Chrono, blocks: seq<Block>, delivered: set<nat>, p: nat)
    requires IsPartition(blocks) && InRange(delivered, |blocks|) && p < |blocks| && p !in delivered
    requires c.data == Replay(blocks, p) && c.expiration == TimeAt(blocks, p)
    requires IsWaiting(c.future, blocks, delivered, p)
    requires blocks[0].changes.Keys != {} || (p == 0 && 1 !in delivered)
    ensures DrainedFrom(AddBlock(c, blocks[p]), blocks, delivered, p + 1)
    decreases |blocks| - p
  {
    NotFatal(c, blocks, p);
    if p + 1 < |blocks| && p + 1 in delivered {
      var d := Continued(c, blocks, delivered, p);
      Drain(d, blocks, delivered - {p + 1}, p + 1);
      DrainedFurther(AddBlock(d, blocks[p + 1]), blocks, delivered, p);
    } else {
      NoneFollows(c.future, blocks, delivered, p);
      Stopped(c, blocks, p);
    }
  }

  /** Everything contiguous from `p` on is in the data, everything else waits. */
  ghost predicate DrainedFrom(o: Outcome, blocks: seq<Block>, delivered: set<nat>, p: nat)
    requires p <= |blocks| && InRange(delivered, |blocks|)
  {
    var f := Front(delivered, p, |blocks|);
    && o.Done? && o.state.data == Replay(blocks, f) && o.state.expiration == TimeAt(blocks, f)
    && IsWaiting(o.state.future, blocks, delivered, f)
  }

  lemma DrainedFurther(o: Outcome, blocks: seq<Block>, delivered: set<nat>, p: nat)
    requires InRange(delivered, |blocks|) && p + 1 < |blocks| && p + 1 in delivered
    requires DrainedFrom(o, blocks, delivered - {p + 1}, p + 2)
    ensures DrainedFrom(o, blocks, delivered, p + 1)
  {
    WaitsFurther(o.state.future, blocks, delivered, p);
  }

  lemma WaitsFurther(future: map<int, Block>, blocks: seq<Block>, delivered: set<nat>, p: nat)
    requires InRange(delivered, |blocks|) && p + 1 < |blocks| && p + 1 in delivered
    requires IsWaiting(future, blocks, delivered - {p + 1}, Front(delivered - {p + 1}, p + 2, |blocks|))
    ensures Front(delivered, p + 1, |blocks|) == Front(delivered - {p + 1}, p + 2, |blocks|)
    ensures IsWaiting(future, blocks, delivered, Front(delivered, p + 1, |blocks|))
  {
    FrontWithout(delivered, p + 1, p + 2, |blocks|);
    WaitingAgain(future, blocks, delivered, p + 1, Front(delivered, p + 1, |blocks|));
  }

  /** The next block waits: appending block p goes on with it. */
  lemma Continued(c: Chrono, blocks: seq<Block>, delivered: set<nat>, p: nat) returns (d: Chrono)
    requires IsPartition(blocks) && InRange(delivered, |blocks|) && p + 1 < |blocks| && p !in delivered
    requires p + 1 in delivered
    requires c.data == Replay(blocks, p) && c.expiration == blocks[p].start && IsWaiting(c.future, blocks, delivered, p)
    requires c.data.Keys == {} ==> blocks[p].start == 0
    ensures AddBlock(c, blocks[p]) == AddBlock(d, blocks[p + 1])
    ensures d.data == Replay(blocks, p + 1) && d.expiration == TimeAt(blocks, p + 1)
    ensures IsWaiting(d.future, blocks, delivered - {p + 1}, p + 1)
  {
    var next := blocks[p + 1].start;
    FirstWaiting(c.future, blocks, delivered, p);
    assert First(c.future.Keys) == next;
    RestWaiting(c.future, blocks, delivered, p);
    d := Chrono(Replay(blocks, p + 1), blocks[p].end, c.future - {next});
  }

  /** No waiting block continues block p. */
  lemma Stopped(c: Chrono, blocks: seq<Block>, p: nat)
    requires p < |blocks| && c.data == Replay(blocks, p) && c.expiration == blocks[p].start
    requires (c.data.Keys == {} ==> blocks[p].start == 0) && blocks[p].end !in c.future
    ensures AddBlock(c, blocks[p]) == Done(Chrono(Replay(blocks, p + 1), blocks[p].end, c.future))
  {
    if c.future.Keys != {} {
      assert First(c.future.Keys) in c.future.Keys;
    }
  }

  lemma NotFatal(c: Chrono, blocks: seq<Block>, p: nat)
    requires IsPartition(blocks) && p < |blocks|
    requires c.data == Replay(blocks, p) && c.expiration == TimeAt(blocks, p)
    requires p > 0 ==> blocks[0].changes.Keys != {}
    ensures c.expiration == blocks[p].start && (c.data.Keys == {} ==> blocks[p].start == 0)
  {
    TimesIncrease(blocks, p, p);
    if p > 0 {
      ReplayKeepsKeys(blocks, p);
    }
  }

  lemma FirstWaiting(future: map<int, Block>, blocks: seq<Block>, delivered: set<nat>, p: nat)
    requires IsPartition(blocks) && InRange(delivered, |blocks|) && p + 1 < |blocks| && p !in delivered
    requires p + 1 in delivered
    requires IsWaiting(future, blocks, delivered, p)
    ensures IsFirst(future.Keys, blocks[p + 1].start)
  {
    forall s | s in future.Keys
      ensures blocks[p + 1].start <= s
    {
      var i :| i in delivered && p <= i && blocks[i].start == s;
      TimesIncrease(blocks, p + 1, i);
    }
  }

  lemma StartsElsewhere(blocks: seq<Block>, delivered: set<nat>, p: nat, s: int)
    requires InRange(delivered, |blocks|) && p + 1 < |blocks| && p !in delivered
    requires Starts(blocks, delivered, p, s) && s != blocks[p + 1].start
    ensures Starts(blocks, delivered - {p + 1}, p + 1, s)
  {
    var i :| i in delivered && p <= i && blocks[i].start == s;
    assert i in delivered - {p + 1} && p + 1 <= i;
  }

  lemma RestWaiting(future: map<int, Block>, blocks: seq<Block>, delivered: set<nat>, p: nat)
    requires IsPartition(blocks) && InRange(delivered, |blocks|) && p + 1 < |blocks| && p !in delivered
    requires IsWaiting(future, blocks, delivered, p)
    ensures IsWaiting(future - {blocks[p + 1].start}, blocks, delivered - {p + 1}, p + 1)
  {
    var next := blocks[p + 1].start;
    forall i | i in delivered - {p + 1} && p + 1 <= i
      ensures blocks[i].start != next
    {
      TimesIncrease(blocks, p + 1, i);
    }
    forall s | s in future - {next}
      ensures Starts(blocks, delivered - {p + 1}, p + 1, s)
    {
      StartsElsewhere(blocks, delivered, p, s);
    }
  }

  /** Leaving out a block before the range does not move the front. */
  lemma {:induction false} FrontWithout(delivered: set<nat>, out: nat, p: nat, n: nat)
    requires out < p <= n
    ensures Front(delivered - {out}, p, n) == Front(delivered, p, n)
    decreases n - p
  {
    if p < n {
      FrontWithout(delivered, out, p + 1, n);
    }
  }

  lemma WaitingAgain(future: map<int, Block>, blocks: seq<Block>, delivered: set<nat>, out: nat, p: nat)
    requires InRange(delivered, |blocks|) && out < p
    requires IsWaiting(future, blocks, delivered - {out}, p)
    ensures IsWaiting(future, blocks, delivered, p)
  {
  }

  lemma NoneFollows(future: map<int, Block>, blocks: seq<Block>, delivered: set<nat>, p: nat)
    requires IsPartition(blocks) && InRange(delivered, |blocks|) && p < |blocks| && p !in delivered
    requires p + 1 !in delivered && IsWaiting(future, blocks, delivered, p)
    ensures blocks[p].end !in future && IsWaiting(future, blocks, delivered, p + 1)
  {
    if blocks[p].end in future {
      var i :| i in delivered && p <= i && blocks[i].start == blocks[p].end;
      TimesIncrease(blocks, p + 1, i);
    }
  }

  /** One delivery, of any block, in any state. */
  lemma Deliver(c: Chrono, blocks: seq<Block>, delivered: set<nat>, i: nat)
    requires IsPartition(blocks) && InRange(delivered, |blocks|) && i < |blocks|
    requires Holds(c, blocks, delivered) && !BadStart(blocks, delivered + {i})
    ensures Put(c, blocks[i]).Done? && Holds(Put(c, blocks[i]).state, blocks, delivered + {i})
  {
    var n := |blocks|;
    var p := Front(delivered, 0, n);
    TimesIncrease(blocks, p, i);
    if i < p {
      assert delivered + {i} == delivered;
    } else if i == p {
      FrontMoves(delivered, 0, p, n);
      Drain(c, blocks, delivered, p);
      GrowWaiting(Put(c, blocks[i]).state.future, blocks, delivered, p, Front(delivered, p + 1, n));
    } else {
      FrontStays(delivered, 0, i, n);
      AddWaiting(c.future, blocks, delivered, p, i);
    }
  }

  /** The delivery that completes the bad start is fatal. */
  lemma DeliverFatal(c: Chrono, blocks: seq<Block>, delivered: set<nat>, i: nat)
    requires IsPartition(blocks) && InRange(delivered, |blocks|) && i < |blocks|
    requires Holds(c, blocks, delivered) && !BadStart(blocks, delivered) && BadStart(blocks, delivered + {i})
    ensures Put(c, blocks[i]).Fatal?
  {
    var p := Front(delivered, 0, |blocks|);
    assert Replay(blocks, 0).Keys == {} && Replay(blocks, 1).Keys == {};
    TimesIncrease(blocks, p, i);
    if i == 0 {
      assert p == 0;
      FirstWaiting(c.future, blocks, delivered, 0);
      var first := blocks[1].start;
      assert First(c.future.Keys) == first && c.future[first] == blocks[1];
      var added := Chrono(Merge(c.data, blocks[0].start, blocks[0].changes), blocks[0].end, c.future - {first});
      assert added.data == Replay(blocks, 1);
      assert AddBlock(added, blocks[1]).Fatal?;
      assert Put(c, blocks[0]) == AddBlock(added, blocks[1]);
    } else {
      assert i == 1 && p == 1;
    }
  }

  lemma FrontMoves(delivered: set<nat>, q: nat, p: nat, n: nat)
    requires q <= p < n && Front(delivered, q, n) == p
    ensures Front(delivered + {p}, q, n) == Front(delivered, p + 1, n)
    decreases n - q
  {
    if q == p {
      FrontWith(delivered, p, p + 1, n);
    } else {
      FrontMoves(delivered, q + 1, p, n);
    }
  }

  lemma {:induction false} FrontWith(delivered: set<nat>, extra: nat, p: nat, n: nat)
    requires extra < p <= n
    ensures Front(delivered + {extra}, p, n) == Front(delivered, p, n)
    decreases n - p
  {
    if p < n {
      FrontWith(delivered, extra, p + 1, n);
    }
  }

  lemma {:induction false} FrontStays(delivered: set<nat>, q: nat, i: nat, n: nat)
    requires q <= n && Front(delivered, q, n) < i
    ensures Front(delivered + {i}, q, n) == Front(delivered, q, n)
    decreases n - q
  {
    if q < n && q in delivered {
      FrontStays(delivered, q + 1, i, n);
    }
  }

  lemma GrowWaiting(future: map<int, Block>, blocks: seq<Block>, delivered: set<nat>, extra: nat, p: nat)
    requires InRange(delivered, |blocks|) && extra < p && extra < |blocks|
    requires IsWaiting(future, blocks, delivered, p)
    ensures IsWaiting(future, blocks, delivered + {extra}, p)
  {
  }

  lemma StartsStill(blocks: seq<Block>, delivered: set<nat>, p: nat, i: nat, s: int)
    requires InRange(delivered, |blocks|) && p <= i < |blocks|
    requires Starts(blocks, delivered, p, s) || s == blocks[i].start
    ensures Starts(blocks, delivered + {i}, p, s)
  {
    var j :| (j in delivered || j == i) && p <= j && blocks[j].start == s;
    assert j in delivered + {i};
  }

  lemma StartsOnce(blocks: seq<Block>, delivered: set<nat>, p: nat, i: nat)
    requires IsPartition(blocks) && InRange(delivered, |blocks|) && p <= i < |blocks|
    requires Starts(blocks, delivered, p, blocks[i].start)
    ensures i in delivered
  {
    var j :| j in delivered && p <= j && blocks[j].start == blocks[i].start;
    TimesIncrease(blocks, i, j);
    TimesIncrease(blocks, j, i);
  }

  lemma AddWaiting(future: map<int, Block>, blocks: seq<Block>, delivered: set<nat>, p: nat, i: nat)
    requires IsPartition(blocks) && InRange(delivered, |blocks|) && p < i < |blocks|
    requires IsWaiting(future, blocks, delivered, p)
    ensures blocks[i].start in future ==> IsWaiting(future, blocks, delivered + {i}, p)
    ensures blocks[i].start !in future ==> IsWaiting(future[blocks[i].start := blocks[i]], blocks, delivered + {i}, p)
  {
    if blocks[i].start in future {
      StartsOnce(blocks, delivered, p, i);
      assert delivered + {i} == delivered;
    } else {
      forall s | s in future || s == blocks[i].start
        ensures Starts(blocks, delivered + {i}, p, s)
      {
        StartsStill(blocks, delivered, p, i, s);
      }
    }
  }

  // --------------------------------------------------------------------- whole deliveries

  /** A delivery is a list of block indices: any order, any repetition, any omission. */
  ghost function DeliverAll(blocks: seq<Block>, order: seq<nat>): Outcome
    requires forall k | 0 <= k < |order| :: order[k] < |blocks|
  {
    if order == [] then Done(EMPTY) else
      var before := DeliverAll(blocks, order[..|order| - 1]);
      if before.Fatal? then Fatal else Put(before.state, blocks[order[|order| - 1]])
  }

  ghost function Elements(order: seq<nat>): set<nat> {
    set k | k in order
  }

  /**
   A delivery is fatal exactly when it contains the first two blocks and the first one brings
   no key. Any other ends in the state of its set of blocks: the data of the longest
   contiguous prefix, expiring where that prefix ends, and everything else waiting.
   */
  lemma {:induction false} Convergence(blocks: seq<Block>, order: seq<nat>)
    requires IsPartition(blocks) && forall k | 0 <= k < |order| :: order[k] < |blocks|
    ensures DeliverAll(blocks, order).Fatal? <==> BadStart(blocks, Elements(order))
    ensures DeliverAll(blocks, order).Done? ==> Holds(DeliverAll(blocks, order).state, blocks, Elements(order))
  {
    if order == [] {
      assert Elements(order) == {};
    } else {
      var n := |order| - 1;
      var init, last := order[..n], order[n];
      Convergence(blocks, init);
      assert order == init + [last];
      assert Elements(order) == Elements(init) + {last};
      if !BadStart(blocks, Elements(init)) {
        var c := DeliverAll(blocks, init).state;
        if BadStart(blocks, Elements(order)) {
          DeliverFatal(c, blocks, Elements(init), last);
        } else {
          Deliver(c, blocks, Elements(init), last);
        }
      }
    }
  }

  /** Order and repetition do not matter. */
  lemma {:induction false} OrderDoesNotMatter(blocks: seq<Block>, order: seq<nat>, order': seq<nat>)
    requires IsPartition(blocks)
    requires forall k | 0 <= k < |order| :: order[k] < |blocks|
    requires forall k | 0 <= k < |order'| :: order'[k] < |blocks|
    requires Elements(order) == Elements(order')
    ensures DeliverAll(blocks, order) == DeliverAll(blocks, order')
  {
    Convergence(blocks, order);
    Convergence(blocks, order');
    if !BadStart(blocks, Elements(order)) {
      HoldsIsUnique(DeliverAll(blocks, order).state, DeliverAll(blocks, order').state, blocks, Elements(order));
    }
  }

  // ----------------------------------------------------------------- what the answers mean

  /** The reference: scan the blocks backwards for the last one that started by `t` and sets the key. */
  ghost function PlainGet(blocks: seq<Block>, p: nat, t: int, key: string): Option<string>
    requires p <= |blocks|
  {
    if p == 0 then None
    else if blocks[p - 1].start <= t && key in blocks[p - 1].changes then Some(blocks[p - 1].changes[key])
    else PlainGet(blocks, p - 1, t, key)
  }

  /** With every entry at or before `t`, a lookup reads the latest value. */
  lemma LookupLatest(data: map<string, Log>, t: int, key: string)
    requires Logged(data, key) && forall u | u in data[key] :: u <= t
    ensures Lookup(data, t, key) == Some(LatestValue(data[key]))
  {
    assert TimesUpTo(data[key], t) == data[key].Keys;
  }

  lemma LookupAfterMerge(data: map<string, Log>, b: Block, t: int, key: string)
    requires DataOk(data, b.start) && 0 <= b.start < b.end && b.start <= t
    ensures Lookup(Merge(data, b.start, b.changes), t, key) ==
      if key in b.changes then Some(b.changes[key]) else Lookup(data, t, key)
  {
    var merged := Merge(data, b.start, b.changes);
    if key in b.changes {
      var log := merged[key];
      if Logged(data, key) && LatestValue(data[key]) == b.changes[key] {
        LookupLatest(merged, t, key);
      } else {
        assert b.start in log.Keys && IsLast(TimesUpTo(log, t), b.start);
        assert Last(TimesUpTo(log, t)) == b.start;
      }
    }
  }

  /** Although unchanged values are not stored, every answer is the plain replay's. */
  lemma {:induction false} ReplayRefinesPlainGet(blocks: seq<Block>, p: nat, t: int, key: string)
    requires IsPartition(blocks) && p <= |blocks|
    ensures Lookup(Replay(blocks, p), t, key) == PlainGet(blocks, p, t, key)
  {
    if p > 0 {
      var b := blocks[p - 1];
      ReplayRefinesPlainGet(blocks, p - 1, t, key);
      ReplayOk(blocks, p - 1);
      TimesIncrease(blocks, p - 1, p - 1);
      if t < b.start {
        MergeKeepsPast(Replay(blocks, p - 1), b.start, b.changes, t, key);
      } else {
        LookupAfterMerge(Replay(blocks, p - 1), b, t, key);
      }
    }
  }

  /** After any delivery, a time below the expiration is answered as if every block had been replayed in order. */
  lemma DeliveredAnswers(blocks: seq<Block>, order: seq<nat>, t: int, key: string)
    requires IsPartition(blocks) && forall k | 0 <= k < |order| :: order[k] < |blocks|
    requires DeliverAll(blocks, order).Done?
    ensures var c := DeliverAll(blocks, order).state;
      0 <= t < c.expiration ==> Get(c, t, key) == PlainGet(blocks, |blocks|, t, key)
    ensures var c := DeliverAll(blocks, order).state;
      c.expiration <= t ==> Get(c, t, key) == None
  {
    Convergence(blocks, order);
    var p := Front(Elements(order), 0, |blocks|);
    var c := DeliverAll(blocks, order).state;
    if 0 <= t < c.expiration {
      ReplayRefinesPlainGet(blocks, p, t, key);
      LaterBlocksDoNotMatter(blocks, p, |blocks|, t, key);
    }
  }

  lemma {:induction false} LaterBlocksDoNotMatter(blocks: seq<Block>, p: nat, q: nat, t: int, key: string)
    requires IsPartition(blocks) && p <= q <= |blocks| && t < TimeAt(blocks, p)
    ensures PlainGet(blocks, p, t, key) == PlainGet(blocks, q, t, key)
    decreases q
  {
    if p < q {
      TimesIncrease(blocks, p, q - 1);
      LaterBlocksDoNotMatter(blocks, p, q - 1, t, key);
    }
  }
}
