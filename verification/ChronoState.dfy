/** The value of a `ChronoMap<string, string>` and the effect of its operations on it. */
module ChronoState {
  // A key's log maps a start time to the value that holds from then on; a value equal to the last one is
  // not stored again. Blocks that arrive early wait in `future` under their start.

  import opened Options

  type Changes = map<string, string>
  type Log = map<int, string>

  datatype Block = Block(start: int, end: int, changes: Changes)

  datatype Chrono = Chrono(data: map<string, Log>, expiration: int, future: map<int, Block>)

  const EMPTY := Chrono(map[], 0, map[])

  /** Fatal is the process dying in LOGFATAL. */
  datatype Outcome = Fatal | Done(state: Chrono)

  // ----------------------------------------------------------------------- keys in order

  ghost predicate IsFirst(keys: set<int>, t: int) {
    t in keys && forall u | u in keys :: t <= u
  }

  ghost predicate IsLast(keys: set<int>, t: int) {
    t in keys && forall u | u in keys :: u <= t
  }

  lemma SomeElement(keys: set<int>) returns (t: int)
    requires keys != {}
    ensures t in keys
  {
    if forall u :: u !in keys {
      assert false;
    }
    t :| t in keys;
  }

  lemma {:induction false} FirstExists(keys: set<int>)
    requires keys != {}
    ensures exists t :: IsFirst(keys, t)
    decreases keys
  {
    var t := SomeElement(keys);
    var rest := keys - {t};
    assert keys == rest + {t};
    if rest == {} {
      assert IsFirst(keys, t);
    } else {
      FirstExists(rest);
      var u :| IsFirst(rest, u);
      assert IsFirst(keys, if t < u then t else u);
    }
  }

  lemma {:induction false} LastExists(keys: set<int>)
    requires keys != {}
    ensures exists t :: IsLast(keys, t)
    decreases keys
  {
    var t := SomeElement(keys);
    var rest := keys - {t};
    assert keys == rest + {t};
    if rest == {} {
      assert IsLast(keys, t);
    } else {
      LastExists(rest);
      var u :| IsLast(rest, u);
      assert IsLast(keys, if t < u then u else t);
    }
  }

  /** begin() of an ordered map. */
  ghost function First(keys: set<int>): (t: int)
    requires keys != {}
    ensures IsFirst(keys, t)
  {
    FirstExists(keys);
    var t :| IsFirst(keys, t);
    t
  }

  /** rbegin() of an ordered map. */
  ghost function Last(keys: set<int>): (t: int)
    requires keys != {}
    ensures IsLast(keys, t)
  {
    LastExists(keys);
    var t :| IsLast(keys, t);
    t
  }

  // --------------------------------------------------------------------------- operations

  ghost predicate Logged(data: map<string, Log>, key: string) {
    key in data && data[key].Keys != {}
  }

  ghost function LatestValue(log: Log): string
    requires log.Keys != {}
  {
    log[Last(log.Keys)]
  }

  /** A key's log after a block that sets it: a new log, a new entry, or nothing new. */
  ghost function Extend(data: map<string, Log>, start: int, key: string, value: string): Log {
    if !Logged(data, key) then map[start := value]
    else if LatestValue(data[key]) == value then data[key]
    else data[key][start := value]
  }

  ghost function Merge(data: map<string, Log>, start: int, changes: Changes): map<string, Log> {
    map key | key in data.Keys + changes.Keys ::
      if key in changes then Extend(data, start, key, changes[key]) else data[key]
  }

  /** addNextTimeBlock: append the block, then the first waiting block if it continues it, and so on. */
  ghost function AddBlock(c: Chrono, b: Block): Outcome
    decreases c.future.Keys
  {
    if c.expiration != b.start || (c.data.Keys == {} && b.start != 0) then Fatal
    else
      var added := Chrono(Merge(c.data, b.start, b.changes), b.end, c.future);
      if c.future.Keys == {} then Done(added)
      else
        var first := First(c.future.Keys);
        if first == b.end then AddBlock(added.(future := c.future - {first}), c.future[first])
        else Done(added)
  }

  /** The first waiting block starts where this one ends. */
  ghost predicate Follows(future: map<int, Block>, end: int) {
    future.Keys != {} && First(future.Keys) == end
  }

  lemma AddBlockUnfolds(c: Chrono, b: Block)
    requires c.expiration == b.start && (c.data.Keys == {} ==> b.start == 0)
    ensures var merged := Merge(c.data, b.start, b.changes);
      AddBlock(c, b) ==
        if Follows(c.future, b.end) then AddBlock(Chrono(merged, b.end, c.future - {b.end}), c.future[b.end])
        else Done(Chrono(merged, b.end, c.future))
  {
  }

  ghost function Put(c: Chrono, b: Block): Outcome {
    if b.start < 0 then Fatal
    else if b.start < c.expiration then Done(c)
    else if b.start >= b.end then Fatal
    else if b.start == c.expiration then AddBlock(c, b)
    else if b.start in c.future then Done(c)
    else Done(c.(future := c.future[b.start := b]))
  }

  ghost function TimesUpTo(log: Log, t: int): set<int> {
    set u | u in log.Keys && u <= t
  }

  /** The value of a key at a time, wherever the data ends. */
  ghost function Lookup(data: map<string, Log>, t: int, key: string): Option<string> {
    if key !in data || TimesUpTo(data[key], t) == {} then None
    else Some(data[key][Last(TimesUpTo(data[key], t))])
  }

  ghost function Get(c: Chrono, t: int, key: string): Option<string> {
    if t >= c.expiration then None else Lookup(c.data, t, key)
  }

  ghost function GetAll(c: Chrono, t: int): map<string, string> {
    map key | key in c.data.Keys && Get(c, t, key).Some? :: Get(c, t, key).value
  }

  ghost function GetChanges(c: Chrono, wanted: Changes): Changes {
    map key | key in wanted.Keys && !(Logged(c.data, key) && LatestValue(c.data[key]) == wanted[key]) :: wanted[key]
  }

  // ----------------------------------------------------------------------------- invariant

  /** Logs are non-empty, lie before the expiration time and never repeat a value. */
  ghost predicate LogOk(log: Log, expiration: int) {
    && log.Keys != {}
    && (forall t | t in log :: 0 <= t < expiration)
    && NoRepeats(log)
  }

  ghost predicate Adjacent(log: Log, t: int, u: int) {
    t in log && u in log && t < u && forall v | v in log :: v <= t || u <= v
  }

  ghost predicate NoRepeats(log: Log) {
    forall t, u | Adjacent(log, t, u) :: log[t] != log[u]
  }

  ghost predicate DataOk(data: map<string, Log>, expiration: int) {
    forall key | key in data :: LogOk(data[key], expiration)
  }

  ghost predicate FutureOk(future: map<int, Block>) {
    forall s | s in future :: future[s].start == s && s < future[s].end
  }

  ghost predicate Valid(c: Chrono) {
    0 <= c.expiration && DataOk(c.data, c.expiration) && FutureOk(c.future)
  }

  lemma ExtendOk(data: map<string, Log>, b: Block, key: string)
    requires DataOk(data, b.start) && 0 <= b.start < b.end && key in b.changes
    ensures LogOk(Extend(data, b.start, key, b.changes[key]), b.end)
  {
    var log := Extend(data, b.start, key, b.changes[key]);
    if Logged(data, key) && log != data[key] {
      forall t, u | Adjacent(log, t, u)
        ensures log[t] != log[u]
      {
        if u == b.start {
          var last := Last(data[key].Keys);
          assert last in log;
          assert t == last;
        } else {
          assert forall v | v in data[key] :: v in log;
          assert Adjacent(data[key], t, u);
        }
      }
    } else if !Logged(data, key) {
      assert b.start in log.Keys;
    }
  }

  lemma MergeOk(data: map<string, Log>, b: Block)
    requires DataOk(data, b.start) && 0 <= b.start < b.end
    ensures DataOk(Merge(data, b.start, b.changes), b.end)
  {
    var merged := Merge(data, b.start, b.changes);
    forall key | key in merged
      ensures LogOk(merged[key], b.end)
    {
      if key in b.changes {
        ExtendOk(data, b, key);
      }
    }
  }

  lemma {:induction false} AddBlockOk(c: Chrono, b: Block)
    requires Valid(c) && b.start < b.end && AddBlock(c, b).Done?
    ensures Valid(AddBlock(c, b).state)
    ensures c.expiration < AddBlock(c, b).state.expiration
    decreases c.future.Keys
  {
    MergeOk(c.data, b);
    var added := Chrono(Merge(c.data, b.start, b.changes), b.end, c.future);
    if c.future.Keys != {} {
      var first := First(c.future.Keys);
      if first == b.end {
        AddBlockOk(added.(future := c.future - {first}), c.future[first]);
      }
    }
  }

  /** put keeps the map well-formed, whatever it is given. */
  lemma PutOk(c: Chrono, b: Block)
    requires Valid(c) && Put(c, b).Done?
    ensures Valid(Put(c, b).state)
    ensures c.expiration <= Put(c, b).state.expiration
  {
    if b.start == c.expiration && b.start < b.end {
      AddBlockOk(c, b);
    }
  }

  // -------------------------------------------------------------------------- what put does

  /** With some data the blocks that continue it are appended without dying. */
  lemma {:induction false} AddBlockLives(c: Chrono, b: Block)
    requires Valid(c) && b.start == c.expiration && b.start < b.end && c.data.Keys != {}
    ensures AddBlock(c, b).Done?
    decreases c.future.Keys
  {
    MergeOk(c.data, b);
    AddBlockUnfolds(c, b);
    var merged := Merge(c.data, b.start, b.changes);
    if Follows(c.future, b.end) {
      assert merged.Keys == c.data.Keys + b.changes.Keys;
      AddBlockLives(Chrono(merged, b.end, c.future - {b.end}), c.future[b.end]);
    }
  }

  /** A first block without a value leaves nothing for the block that waits at its end to continue. */
  ghost predicate LeavesNothing(c: Chrono, b: Block) {
    b.start != 0 || (b.changes.Keys == {} && Follows(c.future, b.end))
  }

  lemma AddBlockDies(c: Chrono, b: Block)
    requires Valid(c) && b.start == c.expiration && b.start < b.end
    ensures AddBlock(c, b).Fatal? <==> c.data.Keys == {} && LeavesNothing(c, b)
  {
    if c.data.Keys != {} {
      AddBlockLives(c, b);
    } else if b.start == 0 {
      MergeOk(c.data, b);
      AddBlockUnfolds(c, b);
      var merged := Merge(c.data, b.start, b.changes);
      assert merged.Keys == b.changes.Keys;
      if Follows(c.future, b.end) && merged.Keys != {} {
        AddBlockLives(Chrono(merged, b.end, c.future - {b.end}), c.future[b.end]);
      }
    }
  }

  /**
   * put dies on a negative start, on an empty or reversed block that is not in the past, and on a block
   * that finds no data to continue.
   */
  lemma PutDies(c: Chrono, b: Block)
    requires Valid(c)
    ensures Put(c, b).Fatal? <==>
      || b.start < 0
      || (b.start >= c.expiration && b.end <= b.start)
      || (b.start == c.expiration && c.data.Keys == {} && LeavesNothing(c, b))
  {
    if b.start == c.expiration && 0 <= b.start < b.end {
      AddBlockDies(c, b);
    }
  }

  /** The first block with a start is the one that is kept. */
  lemma FirstBlockIsKept(c: Chrono, b: Block, late: Block)
    requires Valid(c) && Put(c, b).Done? && late.start == b.start && late.start < late.end
    ensures Put(Put(c, b).state, late) == Put(c, b)
  {
    if b.start == c.expiration && b.start < b.end {
      AddBlockOk(c, b);
    }
  }

  // ----------------------------------------------------------------- the past never changes

  lemma LookupSame(data: map<string, Log>, data': map<string, Log>, t: int, key: string)
    requires key in data && key in data'
    requires forall u | u <= t :: u in data[key] <==> u in data'[key]
    requires forall u | u <= t && u in data[key] :: data[key][u] == data'[key][u]
    ensures Lookup(data, t, key) == Lookup(data', t, key)
  {
    assert TimesUpTo(data[key], t) == TimesUpTo(data'[key], t);
  }

  lemma MergeKeepsPast(data: map<string, Log>, start: int, changes: Changes, t: int, key: string)
    requires t < start && (key in data ==> data[key].Keys != {})
    ensures Lookup(Merge(data, start, changes), t, key) == Lookup(data, t, key)
  {
    if key in data {
      LookupSame(data, Merge(data, start, changes), t, key);
    }
  }

  lemma {:induction false} AddBlockKeepsPast(c: Chrono, b: Block, t: int, key: string)
    requires Valid(c) && b.start < b.end && AddBlock(c, b).Done? && t < c.expiration
    ensures Lookup(AddBlock(c, b).state.data, t, key) == Lookup(c.data, t, key)
    decreases c.future.Keys
  {
    MergeKeepsPast(c.data, b.start, b.changes, t, key);
    MergeOk(c.data, b);
    var added := Chrono(Merge(c.data, b.start, b.changes), b.end, c.future);
    if c.future.Keys != {} {
      var first := First(c.future.Keys);
      if first == b.end {
        AddBlockKeepsPast(added.(future := c.future - {first}), c.future[first], t, key);
      }
    }
  }

  /** An answer below the expiration time is final: no later put of any block changes it. */
  lemma AnswersAreFinal(c: Chrono, b: Block, t: int, key: string)
    requires Valid(c) && Put(c, b).Done? && t < c.expiration
    ensures Get(Put(c, b).state, t, key) == Get(c, t, key)
  {
    PutOk(c, b);
    if b.start == c.expiration && b.start < b.end {
      AddBlockKeepsPast(c, b, t, key);
    }
  }
}
