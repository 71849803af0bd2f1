/**
 * `create_datapoints`: one datapoint per reader of the live metric, then,
 * when snapshot readers are asked for, one per reader of a single snapshot.
 */
module Datapoints {
  import opened Options
  import opened Naming
  import opened Metrics

  /** One exported measurement: metric name, timestamp, value and the reporter's tags. */
  datatype Datapoint<V> = Datapoint(metric: string, timestamp: int, value: V, tags: seq<string>)

  /**
   * One `each` loop of `create_datapoints` over `keys`, reading from
   * `receiver`: a datapoint per key, in order, or the NoMethodError of the
   * first key the receiver does not respond to.
   */
  function FieldPoints<V>(baseName: string, receiver: map<string, V>, time: int, tags: seq<string>, keys: seq<string>)
    : (r: Result<seq<Datapoint<V>>, Error>)
    decreases |keys|
  {
    if keys == [] then Ok([])
    else
      var n := |keys| - 1;
      match FieldPoints(baseName, receiver, time, tags, keys[..n])
      case Err(e) => Err(e)
      case Ok(ps) =>
        match Send(receiver, keys[n])
        case Err(e) => Err(e)
        case Ok(v) => Ok(ps + [Datapoint(FullName(baseName, keys[n]), time, v, tags)])
  }

  /** One `each` loop succeeds exactly when the receiver answers every key. */
  lemma {:induction false} FieldPointsSucceedsIff<V>(baseName: string, receiver: map<string, V>, time: int,
                                                     tags: seq<string>, keys: seq<string>)
    ensures FieldPoints(baseName, receiver, time, tags, keys).Ok? <==> forall k | k in keys :: k in receiver
    decreases |keys|
  {
    if keys != [] {
      var n := |keys| - 1;
      FieldPointsSucceedsIff(baseName, receiver, time, tags, keys[..n]);
      assert forall k | k in keys :: k in keys[..n] || k == keys[n];
    }
  }

  /**
   * A successful `each` loop yields one datapoint per key, in order, named
   * after the key and holding the receiver's value for it.
   */
  lemma {:induction false} FieldPointsContents<V>(baseName: string, receiver: map<string, V>, time: int,
                                                  tags: seq<string>, keys: seq<string>)
    requires forall k | k in keys :: k in receiver
    ensures FieldPoints(baseName, receiver, time, tags, keys).Ok?
    ensures var ps := FieldPoints(baseName, receiver, time, tags, keys).value;
      && |ps| == |keys|
      && forall j | 0 <= j < |keys| :: ps[j] == Datapoint(FullName(baseName, keys[j]), time, receiver[keys[j]], tags)
    decreases |keys|
  {
    FieldPointsSucceedsIff(baseName, receiver, time, tags, keys);
    if keys != [] {
      var n := |keys| - 1;
      var front := keys[..n];
      assert forall k | k in front :: k in keys;
      FieldPointsContents(baseName, receiver, time, tags, front);
      assert forall j | 0 <= j < n :: front[j] == keys[j];
    }
  }

  /** A failed `each` loop raises the NoMethodError of the first key the receiver does not answer. */
  lemma {:induction false} FieldPointsFirstMissing<V>(baseName: string, receiver: map<string, V>, time: int,
                                                      tags: seq<string>, keys: seq<string>)
    requires FieldPoints(baseName, receiver, time, tags, keys).Err?
    ensures exists j | 0 <= j < |keys| ::
      && FieldPoints(baseName, receiver, time, tags, keys).error == NoMethod(keys[j])
      && keys[j] !in receiver
      && forall i | 0 <= i < j :: keys[i] in receiver
    decreases |keys|
  {
    var n := |keys| - 1;
    var front := keys[..n];
    if FieldPoints(baseName, receiver, time, tags, front).Err? {
      FieldPointsFirstMissing(baseName, receiver, time, tags, front);
      var j :| 0 <= j < n && FieldPoints(baseName, receiver, time, tags, front).error == NoMethod(front[j])
        && front[j] !in receiver && forall i | 0 <= i < j :: front[i] in receiver;
      assert front[j] == keys[j];
      assert forall i | 0 <= i < j :: front[i] == keys[i];
    } else {
      FieldPointsSucceedsIff(baseName, receiver, time, tags, front);
      assert forall i | 0 <= i < n :: keys[i] in front;
    }
  }

  /** What `create_datapoints(base_name, metric, time, keys, snapshot_keys)` returns or raises. */
  function Expand<V>(baseName: string, metric: Metric<V>, time: int, tags: seq<string>,
                     keys: seq<string>, snapshotKeys: seq<string>): Result<seq<Datapoint<V>>, Error>
  {
    match FieldPoints(baseName, metric.readers, time, tags, keys)
    case Err(e) => Err(e)
    case Ok(instant) =>
      if snapshotKeys == [] then Ok(instant)
      else
        match metric.snapshot
        case None => Err(NoMethod("snapshot"))
        case Some(snapshot) =>
          match FieldPoints(baseName, snapshot, time, tags, snapshotKeys)
          case Err(e) => Err(e)
          case Ok(later) => Ok(instant + later)
  }

  /** The metric answers every reader asked of it, and has a snapshot answering the snapshot readers when any are asked. */
  predicate Answers<V>(metric: Metric<V>, keys: seq<string>, snapshotKeys: seq<string>) {
    && (forall k | k in keys :: k in metric.readers)
    && (snapshotKeys != [] ==>
          metric.snapshot.Some? && forall k | k in snapshotKeys :: k in metric.snapshot.value)
  }

  /**
   * `create_datapoints` succeeds exactly when the metric answers what is
   * asked; it then yields |keys| + |snapshot_keys| datapoints, the live
   * readers first and the snapshot readers after, all with the given time
   * and tags, each named after its base name and its field.
   */
  lemma ExpandShape<V>(baseName: string, metric: Metric<V>, time: int, tags: seq<string>,
                       keys: seq<string>, snapshotKeys: seq<string>)
    ensures var r := Expand(baseName, metric, time, tags, keys, snapshotKeys);
      && (r.Ok? <==> Answers(metric, keys, snapshotKeys))
      && (r.Ok? ==> |r.value| == |keys| + |snapshotKeys|)
      && (r.Ok? ==> forall d | d in r.value :: d.timestamp == time && d.tags == tags)
      && (r.Ok? ==> forall j | 0 <= j < |keys| ::
            r.value[j] == Datapoint(FullName(baseName, keys[j]), time, metric.readers[keys[j]], tags))
      && (r.Ok? ==> forall j | 0 <= j < |snapshotKeys| ::
            r.value[|keys| + j] ==
              Datapoint(FullName(baseName, snapshotKeys[j]), time, metric.snapshot.value[snapshotKeys[j]], tags))
  {
    ExpandSucceedsIff(baseName, metric, time, tags, keys, snapshotKeys);
    var r := Expand(baseName, metric, time, tags, keys, snapshotKeys);
    if r.Ok? {
      ExpandContents(baseName, metric, time, tags, keys, snapshotKeys);
      forall d | d in r.value ensures d.timestamp == time && d.tags == tags {
        var j :| 0 <= j < |r.value| && r.value[j] == d;
        if j < |keys| {
          assert d == Datapoint(FullName(baseName, keys[j]), time, metric.readers[keys[j]], tags);
        } else {
          var i := j - |keys|;
          assert d == r.value[|keys| + i];
          assert d == Datapoint(FullName(baseName, snapshotKeys[i]), time, metric.snapshot.value[snapshotKeys[i]], tags);
        }
      }
    }
  }

  /** `create_datapoints` raises exactly when the metric does not answer what is asked of it. */
  lemma ExpandSucceedsIff<V>(baseName: string, metric: Metric<V>, time: int, tags: seq<string>,
                             keys: seq<string>, snapshotKeys: seq<string>)
    ensures Expand(baseName, metric, time, tags, keys, snapshotKeys).Ok? <==> Answers(metric, keys, snapshotKeys)
  {
    FieldPointsSucceedsIff(baseName, metric.readers, time, tags, keys);
    if metric.snapshot.Some? {
      FieldPointsSucceedsIff(baseName, metric.snapshot.value, time, tags, snapshotKeys);
    }
  }

  /** A successful `create_datapoints`: the live readers' datapoints, then the snapshot readers'. */
  lemma ExpandContents<V>(baseName: string, metric: Metric<V>, time: int, tags: seq<string>,
                          keys: seq<string>, snapshotKeys: seq<string>)
    requires Answers(metric, keys, snapshotKeys)
    ensures Expand(baseName, metric, time, tags, keys, snapshotKeys).Ok?
    ensures var ps := Expand(baseName, metric, time, tags, keys, snapshotKeys).value;
      && |ps| == |keys| + |snapshotKeys|
      && (forall j | 0 <= j < |keys| ::
            ps[j] == Datapoint(FullName(baseName, keys[j]), time, metric.readers[keys[j]], tags))
      && (forall j | 0 <= j < |snapshotKeys| ::
            ps[|keys| + j] ==
              Datapoint(FullName(baseName, snapshotKeys[j]), time, metric.snapshot.value[snapshotKeys[j]], tags))
  {
    ExpandSucceedsIff(baseName, metric, time, tags, keys, snapshotKeys);
    var ps := Expand(baseName, metric, time, tags, keys, snapshotKeys).value;
    var first := FieldPoints(baseName, metric.readers, time, tags, keys).value;
    FieldPointsContents(baseName, metric.readers, time, tags, keys);
    if snapshotKeys == [] {
      assert ps == first;
    } else {
      var later := FieldPoints(baseName, metric.snapshot.value, time, tags, snapshotKeys).value;
      FieldPointsContents(baseName, metric.snapshot.value, time, tags, snapshotKeys);
      assert ps == first + later;
      forall j | 0 <= j < |snapshotKeys| ensures ps[|keys| + j] == later[j] {
      }
    }
  }

  /**
   * The snapshot is taken only when snapshot readers are asked for: without
   * them a metric that has no `snapshot` gives the same result, and with
   * them such a metric raises NoMethodError once its live readers are read.
   */
  lemma SnapshotOnlyWhenAsked<V>(baseName: string, metric: Metric<V>, time: int, tags: seq<string>,
                                 keys: seq<string>, snapshotKeys: seq<string>)
    ensures snapshotKeys == [] ==>
      Expand(baseName, metric, time, tags, keys, snapshotKeys)
        == Expand(baseName, metric.(snapshot := None), time, tags, keys, snapshotKeys)
    ensures snapshotKeys != [] && metric.snapshot.None? && (forall k | k in keys :: k in metric.readers) ==>
      Expand(baseName, metric, time, tags, keys, snapshotKeys) == Err(NoMethod("snapshot"))
  {
    FieldPointsSucceedsIff(baseName, metric.readers, time, tags, keys);
  }

  /** Once a prefix of the keys has failed, the whole loop fails with the same error. */
  lemma {:induction false} FieldPointsStopsAtError<V>(baseName: string, receiver: map<string, V>, time: int,
                                                      tags: seq<string>, keys: seq<string>, i: nat)
    requires i <= |keys|
    requires FieldPoints(baseName, receiver, time, tags, keys[..i]).Err?
    ensures FieldPoints(baseName, receiver, time, tags, keys) == FieldPoints(baseName, receiver, time, tags, keys[..i])
    decreases |keys|
  {
    if i < |keys| {
      var n := |keys| - 1;
      assert keys[..n][..i] == keys[..i];
      FieldPointsStopsAtError(baseName, receiver, time, tags, keys[..n], i);
    } else {
      assert keys[..i] == keys;
    }
  }

  /** `create_datapoints` as the source runs it: two `each` loops appending to one array. */
  method CreateDatapoints<V>(baseName: string, metric: Metric<V>, time: int, tags: seq<string>,
                             keys: seq<string>, snapshotKeys: seq<string>)
    returns (r: Result<seq<Datapoint<V>>, Error>)
    ensures r == Expand(baseName, metric, time, tags, keys, snapshotKeys)
  {
    var datapoints: seq<Datapoint<V>> := [];
    for i := 0 to |keys|
      invariant FieldPoints(baseName, metric.readers, time, tags, keys[..i]) == Ok(datapoints)
    {
      var key := keys[i];
      var name := FieldName(key);
      assert keys[..i + 1][..i] == keys[..i];
      match Send(metric.readers, key) {
        case Err(e) =>
          FieldPointsStopsAtError(baseName, metric.readers, time, tags, keys, i + 1);
          return Err(e);
        case Ok(value) =>
          datapoints := datapoints + [Datapoint(baseName + "." + name, time, value, tags)];
      }
    }
    assert keys[..|keys|] == keys;
    if snapshotKeys != [] {
      match metric.snapshot {
        case None =>
          return Err(NoMethod("snapshot"));
        case Some(snapshot) =>
          ghost var instant := datapoints;
          assert snapshotKeys[..0] == [] && datapoints[|instant|..] == [];
          for i := 0 to |snapshotKeys|
            invariant |instant| <= |datapoints| && datapoints[..|instant|] == instant
            invariant FieldPoints(baseName, snapshot, time, tags, snapshotKeys[..i]) == Ok(datapoints[|instant|..])
          {
            var key := snapshotKeys[i];
            var name := FieldName(key);
            assert snapshotKeys[..i + 1][..i] == snapshotKeys[..i];
            match Send(snapshot, key) {
              case Err(e) =>
                FieldPointsStopsAtError(baseName, snapshot, time, tags, snapshotKeys, i + 1);
                return Err(e);
              case Ok(value) =>
                ghost var before := datapoints;
                datapoints := datapoints + [Datapoint(baseName + "." + name, time, value, tags)];
                assert datapoints[|instant|..] == before[|instant|..] + [Datapoint(baseName + "." + name, time, value, tags)];
            }
          }
          assert snapshotKeys[..|snapshotKeys|] == snapshotKeys;
          assert datapoints == instant + datapoints[|instant|..];
      }
    }
    return Ok(datapoints);
  }
}
