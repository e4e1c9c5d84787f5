/** `ChronoMap<string, string>` itself, each method proved to be its function of `ChronoState`. */
module ChronoMaps {
  import opened Options
  import S = ChronoState

  // -------------------------------------------------- what std::map does with ordered keys

  method AnyKey(keys: set<int>) returns (key: int)
    requires keys != {}
    ensures key in keys
  {
    ghost var t := S.SomeElement(keys);
    key :| key in keys;
  }

  method FirstKey(keys: set<int>) returns (first: int)
    requires keys != {}
    ensures S.IsFirst(keys, first) && first == S.First(keys)
  {
    S.FirstExists(keys);
    first := AnyKey(keys);
    var left := keys;
    while left != {}
      invariant left <= keys && first in keys
      invariant forall u | u in keys :: u in left || first <= u
      decreases left
    {
      var it := AnyKey(left);
      first := if it < first then it else first;
      left := left - {it};
    }
    assert S.IsFirst(keys, first);
  }

  /** The keys in iteration order. */
  method InOrder(keys: set<int>) returns (sorted: seq<int>)
    ensures Sorted(sorted) && forall u :: u in keys <==> u in sorted
  {
    sorted := [];
    var left := keys;
    while left != {}
      invariant left <= keys && Sorted(sorted)
      invariant forall u :: u in keys <==> u in left || u in sorted
      invariant forall k, u | 0 <= k < |sorted| && u in left :: sorted[k] < u
      decreases left
    {
      var first := FirstKey(left);
      left := left - {first};
      sorted := sorted + [first];
    }
  }

  ghost predicate Sorted(s: seq<int>) {
    forall i, j | 0 <= i < j < |s| :: s[i] < s[j]
  }

  /** The position of the first key greater than `t`. */
  method UpperBound(sorted: seq<int>, t: int) returns (i: nat)
    requires Sorted(sorted)
    ensures i <= |sorted|
    ensures forall k | 0 <= k < |sorted| :: sorted[k] <= t <==> k < i
  {
    i := 0;
    while i < |sorted| && sorted[i] <= t
      invariant i <= |sorted| && forall k | 0 <= k < i :: sorted[k] <= t
    {
      i := i + 1;
    }
  }

  method LatestValue(log: S.Log) returns (value: string)
    requires log.Keys != {}
    ensures value == S.LatestValue(log)
  {
    var sorted := InOrder(log.Keys);
    assert forall t | t in log.Keys :: t in sorted;
    S.LastExists(log.Keys);
    var last := sorted[|sorted| - 1];
    assert last in sorted;
    value := log[last];
  }

  // --------------------------------------------------------------------------- the class

  class ChronoMap {
    var data: map<string, S.Log>
    var expirationTime: int
    var futureData: map<int, S.Block>

    ghost function State(): S.Chrono
      reads this
    {
      S.Chrono(data, expirationTime, futureData)
    }

    ghost predicate Valid()
      reads this
    {
      S.Valid(State())
    }

    constructor ()
      ensures Valid() && State() == S.EMPTY
    {
      data, expirationTime, futureData := map[], 0, map[];
    }

    /** After a fatal outcome the process is gone, so nothing is said about the state. */
    method Put(startTime: int, endTime: int, changes: S.Changes) returns (fatal: bool)
      requires Valid()
      modifies this
      ensures fatal <==> S.Put(old(State()), S.Block(startTime, endTime, changes)).Fatal?
      ensures !fatal ==> Valid() && State() == S.Put(old(State()), S.Block(startTime, endTime, changes)).state
    {
      ghost var before, b := State(), S.Block(startTime, endTime, changes);
      if S.Put(before, b).Done? {
        S.PutOk(before, b);
      }
      if startTime < 0 {
        return true;
      }
      if startTime < expirationTime {
        return false;
      }
      if startTime >= endTime {
        return true;
      }
      if startTime != expirationTime {
        if startTime !in futureData {
          futureData := futureData[startTime := S.Block(startTime, endTime, changes)];
        }
        return false;
      }
      fatal := AddNextTimeBlock(startTime, endTime, changes);
    }

    method AddNextTimeBlock(startTime: int, endTime: int, newData: S.Changes) returns (fatal: bool)
      requires S.DataOk(data, expirationTime) && S.FutureOk(futureData)
      requires expirationTime == startTime && 0 <= startTime < endTime
      modifies this
      ensures fatal <==> S.AddBlock(old(State()), S.Block(startTime, endTime, newData)).Fatal?
      ensures !fatal ==> State() == S.AddBlock(old(State()), S.Block(startTime, endTime, newData)).state
      decreases |futureData|, 1
    {
      if |data| == 0 && startTime != 0 {
        assert data.Keys == {};
        return true;
      }
      S.AddBlockUnfolds(State(), S.Block(startTime, endTime, newData));
      Append(startTime, endTime, newData);
      var follows := NextFollows();
      if follows {
        fatal := AddFirstWaiting();
      } else {
        fatal := false;
      }
    }

    /** The recursive call, with the first waiting block. */
    method AddFirstWaiting() returns (fatal: bool)
      requires S.DataOk(data, expirationTime) && S.FutureOk(futureData)
      requires 0 <= expirationTime && expirationTime in futureData
      modifies this
      ensures fatal <==> S.AddBlock(old(S.Chrono(data, expirationTime, futureData - {expirationTime})),
                                    old(futureData[expirationTime])).Fatal?
      ensures !fatal ==> State() == S.AddBlock(old(S.Chrono(data, expirationTime, futureData - {expirationTime})),
                                               old(futureData[expirationTime])).state
      decreases |futureData|, 0
    {
      var next := futureData[expirationTime];
      futureData := futureData - {expirationTime};
      fatal := AddNextTimeBlock(expirationTime, next.end, next.changes);
    }

    /** Whether the first waiting block starts where the data ends. */
    method NextFollows() returns (follows: bool)
      ensures follows <==> S.Follows(futureData, expirationTime)
      ensures follows ==> expirationTime in futureData
    {
      if |futureData| == 0 {
        assert futureData.Keys == {};
        return false;
      }
      assert futureData.Keys != {};
      var first := FirstKey(futureData.Keys);
      follows := first == expirationTime;
    }

    /** The new data is merged and becomes available. */
    method Append(startTime: int, endTime: int, newData: S.Changes)
      requires S.DataOk(data, startTime) && 0 <= startTime < endTime
      modifies this`data, this`expirationTime
      ensures data == S.Merge(old(data), startTime, newData) && expirationTime == endTime
      ensures S.DataOk(data, endTime)
    {
      S.MergeOk(data, S.Block(startTime, endTime, newData));
      MergeChanges(startTime, newData);
      expirationTime := endTime;
    }

    /** The loop over the new data. */
    method MergeChanges(startTime: int, newData: S.Changes)
      requires forall key | key in data :: data[key].Keys != {}
      modifies this`data
      ensures data == S.Merge(old(data), startTime, newData)
    {
      ghost var before := data;
      var left := newData.Keys;
      while left != {}
        invariant left <= newData.Keys
        invariant data == S.Merge(before, startTime, newData - left)
        decreases left
      {
        var key :| key in left;
        MergeOneMore(before, startTime, newData, left, key);
        if key !in data {
          data := data[key := map[startTime := newData[key]]];
        } else {
          var latest := LatestValue(data[key]);
          if latest != newData[key] {
            data := data[key := data[key][startTime := newData[key]]];
          }
        }
        left := left - {key};
      }
      assert newData - {} == newData;
    }

    /** A negative time is fatal in the source. */
    method Get(timestamp: int, key: string) returns (value: Option<string>)
      requires Valid() && timestamp >= 0
      ensures value == S.Get(State(), timestamp, key)
    {
      if timestamp >= expirationTime || key !in data {
        return None;
      }
      var log := data[key];
      var sorted := InOrder(log.Keys);
      var ahead := UpperBound(sorted, timestamp);
      FloorByPosition(log, sorted, timestamp, ahead);
      if ahead == 0 {
        value := None;
      } else if ahead == |sorted| {
        value := Some(log[sorted[|sorted| - 1]]);
      } else {
        value := Some(log[sorted[ahead - 1]]);
      }
    }

    method GetAll(timestamp: int) returns (all: map<string, string>)
      requires Valid() && timestamp >= 0
      ensures all == S.GetAll(State(), timestamp)
    {
      all := map[];
      var left := data.Keys;
      while left != {}
        invariant left <= data.Keys
        invariant all == map key | key in data.Keys - left && S.Get(State(), timestamp, key).Some? ::
          S.Get(State(), timestamp, key).value
        decreases left
      {
        var key :| key in left;
        var value := Get(timestamp, key);
        if value.Some? {
          all := all[key := value.value];
        }
        left := left - {key};
      }
    }

    method GetChanges(wanted: S.Changes) returns (changes: S.Changes)
      requires Valid()
      ensures changes == S.GetChanges(State(), wanted)
    {
      changes := map[];
      var left := wanted.Keys;
      while left != {}
        invariant left <= wanted.Keys
        invariant changes == S.GetChanges(State(), wanted - left)
        decreases left
      {
        var key :| key in left;
        var changed := key !in data;
        if !changed {
          var latest := LatestValue(data[key]);
          changed := latest != wanted[key];
        }
        if changed {
          changes := changes[key := wanted[key]];
        }
        left := left - {key};
      }
      assert wanted - {} == wanted;
    }
  }

  lemma MergeOneMore(data: map<string, S.Log>, start: int, changes: S.Changes, left: set<string>, key: string)
    requires key in left && left <= changes.Keys
    ensures S.Merge(data, start, changes - (left - {key})) ==
      S.Merge(data, start, changes - left)[key := S.Extend(data, start, key, changes[key])]
    ensures key in S.Merge(data, start, changes - left) <==> key in data
    ensures key in data ==> S.Merge(data, start, changes - left)[key] == data[key]
  {
  }

  /** The position before the upper bound is the last key up to the time, if there is one. */
  lemma FloorByPosition(log: S.Log, sorted: seq<int>, t: int, ahead: nat)
    requires Sorted(sorted) && (forall u :: u in log.Keys <==> u in sorted) && ahead <= |sorted|
    requires forall k | 0 <= k < |sorted| :: sorted[k] <= t <==> k < ahead
    ensures ahead == 0 ==> S.TimesUpTo(log, t) == {}
    ensures ahead > 0 ==> S.TimesUpTo(log, t) != {} && S.Last(S.TimesUpTo(log, t)) == sorted[ahead - 1]
  {
    if ahead > 0 {
      assert sorted[ahead - 1] in log.Keys;
      assert S.IsLast(S.TimesUpTo(log, t), sorted[ahead - 1]);
    }
  }
}
