/**
 * The metric objects the reporter reads: their class, the readers they
 * respond to, the distribution snapshot some of them can take, and the
 * `case` statement that picks a field list by class.
 */
module Metrics {
  import opened Options
  import opened Naming

  /** The six Metriks classes the reporter recognises; each one also names a category of the batch. */
  datatype MetricClass = Meter | Counter | Gauge | UtilizationTimer | Timer | Histogram

  type Category = MetricClass

  /** The run-time class of a registered metric: one of the six, or anything else. */
  datatype Kind = Instance(cls: MetricClass) | Other

  /**
   * Ruby's `Class#===` against one of the six classes. In the Metriks
   * library `UtilizationTimer` is a subclass of `Timer`, so a utilization
   * timer is also a timer; no other two of the six are related.
   */
  predicate IsA(k: Kind, c: MetricClass) {
    k == Instance(c) || (k == Instance(UtilizationTimer) && c == Timer)
  }

  /** The `when` arms of `get_datapoints`, in the order Ruby tries them. */
  const Arms: seq<MetricClass> := [Meter, Counter, Gauge, UtilizationTimer, Timer, Histogram]

  /** A `case` over `arms`: the first arm the metric is an instance of, or None when none matches. */
  function FirstArm(k: Kind, arms: seq<MetricClass>): Option<MetricClass> {
    if arms == [] then None
    else if IsA(k, arms[0]) then Some(arms[0])
    else FirstArm(k, arms[1..])
  }

  /**
   * The `case` picks an arm the metric is an instance of, and the first
   * such arm: no earlier arm matches. It picks none exactly when no arm
   * matches.
   */
  lemma {:induction false} FirstArmIsFirstMatch(k: Kind, arms: seq<MetricClass>)
    ensures FirstArm(k, arms).Some? ==> FirstArm(k, arms).value in arms && IsA(k, FirstArm(k, arms).value)
    ensures FirstArm(k, arms).None? <==> forall c | c in arms :: !IsA(k, c)
    ensures FirstArm(k, arms).Some? ==> exists i | 0 <= i < |arms| ::
      arms[i] == FirstArm(k, arms).value && forall j | 0 <= j < i :: !IsA(k, arms[j])
  {
    if arms != [] && !IsA(k, arms[0]) {
      var rest := arms[1..];
      FirstArmIsFirstMatch(k, rest);
      assert forall c | c in arms :: c == arms[0] || c in rest;
      var r := FirstArm(k, rest);
      if r.Some? {
        var i' :| 0 <= i' < |rest| && rest[i'] == r.value && forall j | 0 <= j < i' :: !IsA(k, rest[j]);
        assert arms[i' + 1] == r.value;
        forall j | 0 <= j < i' + 1 ensures !IsA(k, arms[j]) {
          if j > 0 { assert arms[j] == rest[j - 1]; }
        }
      }
    }
  }

  /** The category a metric of kind `k` is filed under, as the reporter's `case` decides it. */
  function Dispatch(k: Kind): Option<Category> {
    FirstArm(k, Arms)
  }

  lemma ArmsCoverEveryClass(c: MetricClass)
    ensures c in Arms
  {
  }

  /**
   * Each recognised class lands in its own category and nowhere else; in
   * particular a utilization timer is filed as a utilization timer, not as a
   * timer, and a metric of any other class is in no category.
   */
  lemma DispatchByClass(k: Kind)
    ensures Dispatch(k) == if k.Other? then None else Some(k.cls)
  {
    match k
    case Other =>
    case Instance(c) =>
      assert IsA(k, c);
      ArmsCoverEveryClass(c);
      FirstArmIsFirstMatch(k, Arms);
      var i :| 0 <= i < |Arms| && Arms[i] == Dispatch(k).value && forall j | 0 <= j < i :: !IsA(k, Arms[j]);
  }

  /** The arm order matters: with `Timer` tried first, a utilization timer would be filed as a timer. */
  lemma TimerArmFirstWouldCaptureUtilizationTimers()
    ensures FirstArm(Instance(UtilizationTimer), [Meter, Counter, Gauge, Timer, UtilizationTimer, Histogram]) == Some(Timer)
    ensures Dispatch(Instance(UtilizationTimer)) == Some(UtilizationTimer)
  {
    DispatchByClass(Instance(UtilizationTimer));
  }

  /** A metric of one of the six classes is an instance of at least one of them. */
  lemma InstanceMatchesAnArm(k: Kind)
    ensures k.Instance? ==>
      IsA(k, Meter) || IsA(k, Counter) || IsA(k, Gauge) || IsA(k, UtilizationTimer) || IsA(k, Timer) || IsA(k, Histogram)
  {
    if k.Instance? {
      match k.cls
      case Meter =>
      case Counter =>
      case Gauge =>
      case UtilizationTimer =>
      case Timer =>
      case Histogram =>
    }
  }

  /** The `case metric when ...` of `get_datapoints`, as the source tests its arms one after the other. */
  method CaseArm(k: Kind) returns (arm: Option<Category>)
    ensures arm == Dispatch(k)
  {
    DispatchByClass(k);
    InstanceMatchesAnArm(k);
    if IsA(k, Meter) {
      arm := Some(Meter);
    } else if IsA(k, Counter) {
      arm := Some(Counter);
    } else if IsA(k, Gauge) {
      arm := Some(Gauge);
    } else if IsA(k, UtilizationTimer) {
      arm := Some(UtilizationTimer);
    } else if IsA(k, Timer) {
      arm := Some(Timer);
    } else if IsA(k, Histogram) {
      arm := Some(Histogram);
    } else {
      arm := None;
    }
  }

  /** The readers each arm asks the live metric for. */
  function InstantKeys(c: Category): (r: seq<string>)
    ensures r != []
    ensures c != Gauge ==> r[0] == "count"
  {
    match c
    case Meter => ["count", "one_minute_rate", "five_minute_rate", "fifteen_minute_rate", "mean_rate"]
    case Counter => ["count"]
    case Gauge => ["value"]
    case UtilizationTimer =>
      ["count", "one_minute_rate", "five_minute_rate", "fifteen_minute_rate", "mean_rate",
       "min", "max", "mean", "stddev",
       "one_minute_utilization", "five_minute_utilization", "fifteen_minute_utilization", "mean_utilization"]
    case Timer =>
      ["count", "one_minute_rate", "five_minute_rate", "fifteen_minute_rate", "mean_rate",
       "min", "max", "mean", "stddev"]
    case Histogram => ["count", "min", "max", "mean", "stddev"]
  }

  /** The readers each arm asks the metric's snapshot for; empty for the arms that pass none. */
  function SnapshotKeys(c: Category): (r: seq<string>)
    ensures r != [] <==> c == UtilizationTimer || c == Timer || c == Histogram
    ensures r != [] ==> |r| == 2 && !HasGetMarker(r[0]) && HasGetMarker(r[1])
  {
    var distribution := ["median", "get_95th_percentile"];
    assert distribution[0][..4] != "get_" by { assert distribution[0][0] == 'm'; }
    assert distribution[1][..4] == "get_";
    match c
    case Meter => []
    case Counter => []
    case Gauge => []
    case UtilizationTimer => distribution
    case Timer => distribution
    case Histogram => distribution
  }

  /**
   * The field lists nest as the classes do: a timer reads what a meter
   * reads and more, and a utilization timer what a timer reads and more;
   * the three distribution arms ask the same snapshot readers.
   */
  lemma ArmReadersNest()
    ensures InstantKeys(Meter) <= InstantKeys(Timer) <= InstantKeys(UtilizationTimer)
    ensures InstantKeys(Counter) <= InstantKeys(Meter) && InstantKeys(Counter) <= InstantKeys(Histogram)
    ensures SnapshotKeys(Timer) == SnapshotKeys(UtilizationTimer) == SnapshotKeys(Histogram)
  {
  }

  /**
   * A registered metric as the reporter sees it: its class, the value of
   * each reader it responds to, and the readers of the snapshot it returns
   * (None when it has no `snapshot` method). The values are opaque.
   */
  datatype Metric<V> = Metric(kind: Kind, readers: map<string, V>, snapshot: Option<map<string, V>>)

  /** The exceptions that end a flush early. */
  datatype Error =
    | NoMethod(name: string)        // a reader or `snapshot` the object does not respond to
    | DeliveryFailed(reason: string) // the post to the endpoint raised

  /** `receiver.send(key)`: the reader's value, or a NoMethodError. */
  function Send<V>(receiver: map<string, V>, key: string): (r: Result<V, Error>)
    ensures r.Ok? <==> key in receiver
    ensures r.Ok? ==> r.value == receiver[key]
    ensures r.Err? ==> r.error == NoMethod(key)
  {
    if key in receiver then Ok(receiver[key]) else Err(NoMethod(key))
  }
}
