/**
 * `get_datapoints`, `submit` and `flush` of the SignalFx reporter: walk the
 * registry, file each entry's datapoints under its category with `|=`,
 * keep only the non-empty categories, post the batch unless it is empty,
 * and hand any exception to the error callback instead of raising it.
 */
module Reporter {
  import opened Options
  import opened Naming
  import opened Metrics
  import opened ArrayUnion
  import opened Datapoints

  /** One registry entry as `@registry.each` yields it; the name may be nil. */
  datatype Entry<V> = Entry(name: Option<string>, metric: Metric<V>)

  /** The attributes `get_datapoints` reads: `@prefix` (nil when unset) and `@tags`. */
  datatype Config = Config(prefix: Option<string>, tags: seq<string>)

  /** Entries with a nil or empty name are passed over. */
  predicate Named<V>(e: Entry<V>) {
    e.name.Some? && e.name.value != []
  }

  /** What one entry adds: nothing, or its datapoints under one category. */
  datatype Contribution<V> = Skipped | Contributes(category: Category, points: seq<Datapoint<V>>)

  /** The body of the registry loop for one entry, up to the `|=`. */
  function EntryPoints<V>(e: Entry<V>, config: Config, time: int): (r: Result<Contribution<V>, Error>)
    ensures !Named(e) || Dispatch(e.metric.kind).None? ==> r == Ok(Skipped)
    ensures r.Ok? && r.value.Contributes? ==> Named(e) && Dispatch(e.metric.kind) == Some(r.value.category)
    ensures r.Err? ==> Named(e) && Dispatch(e.metric.kind).Some?
  {
    if !Named(e) then Ok(Skipped)
    else
      match Dispatch(e.metric.kind)
      case None => Ok(Skipped)
      case Some(c) =>
        match Expand(BaseName(config.prefix, e.name.value), e.metric, time, config.tags, InstantKeys(c), SnapshotKeys(c))
        case Err(err) => Err(err)
        case Ok(ps) => Ok(Contributes(c, ps))
  }

  /** The six local arrays of `get_datapoints`, one per category. */
  datatype Lists<V> = Lists(meter: seq<Datapoint<V>>, counter: seq<Datapoint<V>>, gauge: seq<Datapoint<V>>,
                            utilizationTimer: seq<Datapoint<V>>, timer: seq<Datapoint<V>>, histogram: seq<Datapoint<V>>)
  {
    function Get(c: Category): seq<Datapoint<V>> {
      match c
      case Meter => meter
      case Counter => counter
      case Gauge => gauge
      case UtilizationTimer => utilizationTimer
      case Timer => timer
      case Histogram => histogram
    }

    function Put(c: Category, s: seq<Datapoint<V>>): Lists<V> {
      match c
      case Meter => this.(meter := s)
      case Counter => this.(counter := s)
      case Gauge => this.(gauge := s)
      case UtilizationTimer => this.(utilizationTimer := s)
      case Timer => this.(timer := s)
      case Histogram => this.(histogram := s)
    }
  }

  /** Putting a list under one category changes that category's list and no other. */
  lemma PutThenGet<V>(lists: Lists<V>, c: Category, s: seq<Datapoint<V>>, d: Category)
    ensures lists.Put(c, s).Get(d) == if c == d then s else lists.Get(d)
  {
  }

  function NoLists<V>(): Lists<V> {
    Lists([], [], [], [], [], [])
  }

  /** One turn of the registry loop, given what the entry yielded: raise, pass over it, or `list |= points` for its category. */
  function Step<V(==)>(lists: Lists<V>, r: Result<Contribution<V>, Error>): Result<Lists<V>, Error> {
    match r
    case Err(err) => Err(err)
    case Ok(Skipped) => Ok(lists)
    case Ok(Contributes(c, ps)) => Ok(lists.Put(c, Union(lists.Get(c), ps)))
  }

  /** The registry loop over what the entries yield, in order: the six lists, or the first exception. */
  function Fold<V(==)>(outcomes: seq<Result<Contribution<V>, Error>>): Result<Lists<V>, Error>
    decreases |outcomes|
  {
    if outcomes == [] then Ok(NoLists())
    else
      match Fold(outcomes[..|outcomes| - 1])
      case Err(err) => Err(err)
      case Ok(lists) => Step(lists, outcomes[|outcomes| - 1])
  }

  /** What each entry of the registry yields, in registry order. */
  function Outcomes<V>(registry: seq<Entry<V>>, config: Config, time: int): (r: seq<Result<Contribution<V>, Error>>)
    ensures |r| == |registry|
    ensures forall i | 0 <= i < |registry| :: r[i] == EntryPoints(registry[i], config, time)
    decreases |registry|
  {
    if registry == [] then []
    else Outcomes(registry[..|registry| - 1], config, time) + [EntryPoints(registry[|registry| - 1], config, time)]
  }

  /** What a registry made of two parts yields is what the parts yield, one after the other. */
  lemma {:induction false} OutcomesConcat<V>(a: seq<Entry<V>>, b: seq<Entry<V>>, config: Config, time: int)
    ensures Outcomes(a + b, config, time) == Outcomes(a, config, time) + Outcomes(b, config, time)
    decreases |b|
  {
    if b == [] {
      assert a + b == a;
    } else {
      var n := |b| - 1;
      assert (a + b)[..|a + b| - 1] == a + b[..n];
      OutcomesConcat(a, b[..n], config, time);
    }
  }

  /** What a registry yields around one entry: the entries before, that entry, the entries after. */
  lemma OutcomesAround<V>(before: seq<Entry<V>>, e: Entry<V>, after: seq<Entry<V>>, config: Config, time: int)
    ensures Outcomes(before + [e] + after, config, time)
      == Outcomes(before, config, time) + [EntryPoints(e, config, time)] + Outcomes(after, config, time)
  {
    assert [e][..0] == [];
    OutcomesConcat(before, [e], config, time);
    OutcomesConcat(before + [e], after, config, time);
  }

  /** The six lists after the registry loop has run over `registry`, or the exception that stopped it. */
  function Accumulate<V(==)>(registry: seq<Entry<V>>, config: Config, time: int): Result<Lists<V>, Error> {
    Fold(Outcomes(registry, config, time))
  }

  /** The hash `get_datapoints` returns: category to datapoints. */
  type Batch<V> = map<Category, seq<Datapoint<V>>>

  /** `m[c] = list if list.any?`: a hash entry only for a non-empty list. */
  function KeepIfAny<V>(m: Batch<V>, c: Category, list: seq<Datapoint<V>>): Batch<V> {
    if list != [] then m[c := list] else m
  }

  /** The hash built at the end of `get_datapoints`, one category after the other. */
  function ToBatch<V>(lists: Lists<V>): Batch<V> {
    var m := KeepIfAny(map[], Meter, lists.meter);
    var m := KeepIfAny(m, Counter, lists.counter);
    var m := KeepIfAny(m, Gauge, lists.gauge);
    var m := KeepIfAny(m, UtilizationTimer, lists.utilizationTimer);
    var m := KeepIfAny(m, Timer, lists.timer);
    KeepIfAny(m, Histogram, lists.histogram)
  }

  /** The batch has a key for a category exactly when that category's list is non-empty, holding that list. */
  lemma BatchHoldsNonEmptyLists<V>(lists: Lists<V>, c: Category)
    ensures c in ToBatch(lists) <==> lists.Get(c) != []
    ensures c in ToBatch(lists) ==> ToBatch(lists)[c] == lists.Get(c)
  {
  }

  /** What `get_datapoints` returns or raises for a registry read at time `time`. */
  function Collect<V(==)>(registry: seq<Entry<V>>, config: Config, time: int): Result<Batch<V>, Error> {
    match Accumulate(registry, config, time)
    case Err(err) => Err(err)
    case Ok(lists) => Ok(ToBatch(lists))
  }

  /** `get_datapoints` as the source runs it: one pass over the registry growing six local lists. */
  method GetDatapoints<V(==)>(registry: seq<Entry<V>>, config: Config, time: int) returns (r: Result<Batch<V>, Error>)
    ensures r == Collect(registry, config, time)
  {
    var meter, counter, gauge, utilizationTimer, timer, histogram := [], [], [], [], [], [];
    for i := 0 to |registry|
      invariant Accumulate(registry[..i], config, time) == Ok(Lists(meter, counter, gauge, utilizationTimer, timer, histogram))
    {
      var entry := registry[i];
      ghost var lists := Lists(meter, counter, gauge, utilizationTimer, timer, histogram);
      AccumulateOneMore(registry, config, time, i);
      if entry.name.None? || entry.name.value == [] {
        assert Step(lists, EntryPoints(entry, config, time)) == Ok(lists);
        continue;
      }
      var name := Sanitize(entry.name.value);
      if config.prefix.Some? {
        name := config.prefix.value + "." + name;
      }
      assert name == BaseName(config.prefix, entry.name.value);
      var arm := CaseArm(entry.metric.kind);
      if arm.None? {
        assert Step(lists, EntryPoints(entry, config, time)) == Ok(lists);
        continue;
      }
      var points := CreateDatapoints(name, entry.metric, time, config.tags, InstantKeys(arm.value), SnapshotKeys(arm.value));
      ArmStep(registry, config, time, i, lists, name, arm.value, points);
      if points.Err? {
        return Err(points.error);
      }
      match arm.value {
        case Meter => meter := Union(meter, points.value);
        case Counter => counter := Union(counter, points.value);
        case Gauge => gauge := Union(gauge, points.value);
        case UtilizationTimer => utilizationTimer := Union(utilizationTimer, points.value);
        case Timer => timer := Union(timer, points.value);
        case Histogram => histogram := Union(histogram, points.value);
      }
      assert Lists(meter, counter, gauge, utilizationTimer, timer, histogram) == lists.Put(arm.value, Union(lists.Get(arm.value), points.value));
    }
    assert registry[..|registry|] == registry;
    var datapoints := KeepNonEmpty(meter, counter, gauge, utilizationTimer, timer, histogram);
    return Ok(datapoints);
  }

  /** The end of `get_datapoints`: a hash key for each category whose list is non-empty (lines 153-158). */
  method KeepNonEmpty<V>(meter: seq<Datapoint<V>>, counter: seq<Datapoint<V>>, gauge: seq<Datapoint<V>>,
                         utilizationTimer: seq<Datapoint<V>>, timer: seq<Datapoint<V>>, histogram: seq<Datapoint<V>>)
    returns (datapoints: Batch<V>)
    ensures datapoints == ToBatch(Lists(meter, counter, gauge, utilizationTimer, timer, histogram))
  {
    datapoints := map[];
    ghost var beforeMeter := datapoints;
    if meter != [] { datapoints := datapoints[Meter := meter]; }
    assert datapoints == KeepIfAny(beforeMeter, Meter, meter);
    ghost var beforeCounter := datapoints;
    if counter != [] { datapoints := datapoints[Counter := counter]; }
    assert datapoints == KeepIfAny(beforeCounter, Counter, counter);
    ghost var beforeGauge := datapoints;
    if gauge != [] { datapoints := datapoints[Gauge := gauge]; }
    assert datapoints == KeepIfAny(beforeGauge, Gauge, gauge);
    ghost var beforeUtilizationTimer := datapoints;
    if utilizationTimer != [] { datapoints := datapoints[UtilizationTimer := utilizationTimer]; }
    assert datapoints == KeepIfAny(beforeUtilizationTimer, UtilizationTimer, utilizationTimer);
    ghost var beforeTimer := datapoints;
    if timer != [] { datapoints := datapoints[Timer := timer]; }
    assert datapoints == KeepIfAny(beforeTimer, Timer, timer);
    ghost var beforeHistogram := datapoints;
    if histogram != [] { datapoints := datapoints[Histogram := histogram]; }
    assert datapoints == KeepIfAny(beforeHistogram, Histogram, histogram);
  }

  /**
   * One entry that passed the name check and matched arm `arm`: the call
   * to `create_datapoints` either raises out of the whole loop or grows
   * that arm's list by `|=`.
   */
  lemma ArmStep<V>(registry: seq<Entry<V>>, config: Config, time: int, i: nat, lists: Lists<V>,
                   name: string, arm: Category, points: Result<seq<Datapoint<V>>, Error>)
    requires i < |registry|
    requires Accumulate(registry[..i], config, time) == Ok(lists)
    requires Named(registry[i]) && name == BaseName(config.prefix, registry[i].name.value)
    requires Dispatch(registry[i].metric.kind) == Some(arm)
    requires points == Expand(name, registry[i].metric, time, config.tags, InstantKeys(arm), SnapshotKeys(arm))
    ensures points.Err? ==> Accumulate(registry, config, time) == Err(points.error)
    ensures points.Ok? ==>
      Accumulate(registry[..i + 1], config, time) == Ok(lists.Put(arm, Union(lists.Get(arm), points.value)))
  {
    AccumulateOneMore(registry, config, time, i);
    if points.Err? {
      AccumulateStopsAtError(registry, config, time, i + 1);
    }
  }

  /** The loop over one more entry is one more `Step`. */
  lemma AccumulateOneMore<V>(registry: seq<Entry<V>>, config: Config, time: int, i: nat)
    requires i < |registry|
    ensures Accumulate(registry[..i], config, time).Err? ==>
      Accumulate(registry[..i + 1], config, time) == Accumulate(registry[..i], config, time)
    ensures Accumulate(registry[..i], config, time).Ok? ==>
      Accumulate(registry[..i + 1], config, time)
        == Step(Accumulate(registry[..i], config, time).value, EntryPoints(registry[i], config, time))
  {
    var os := Outcomes(registry[..i + 1], config, time);
    assert os[..i] == Outcomes(registry[..i], config, time);
  }

  /** Once the loop has raised on a prefix of the registry, the whole call raises the same exception. */
  lemma AccumulateStopsAtError<V>(registry: seq<Entry<V>>, config: Config, time: int, i: nat)
    requires i <= |registry|
    requires Accumulate(registry[..i], config, time).Err?
    ensures Accumulate(registry, config, time) == Accumulate(registry[..i], config, time)
  {
    var os := Outcomes(registry, config, time);
    assert os[..i] == Outcomes(registry[..i], config, time);
    FoldStopsAtError(os, i);
  }

  // ---------------------------------------------------------------------
  // The fold over outcomes

  /** Once the fold has raised on a prefix, it raises the same exception on the whole. */
  lemma {:induction false} FoldStopsAtError<V>(outcomes: seq<Result<Contribution<V>, Error>>, i: nat)
    requires i <= |outcomes|
    requires Fold(outcomes[..i]).Err?
    ensures Fold(outcomes) == Fold(outcomes[..i])
    decreases |outcomes|
  {
    if i < |outcomes| {
      var n := |outcomes| - 1;
      assert outcomes[..n][..i] == outcomes[..i];
      FoldStopsAtError(outcomes[..n], i);
    } else {
      assert outcomes[..i] == outcomes;
    }
  }

  /** The fold raises exactly when some outcome is an exception, and then with the first one. */
  lemma {:induction false} FoldFailsAtFirstError<V>(outcomes: seq<Result<Contribution<V>, Error>>)
    ensures Fold(outcomes).Ok? <==> forall i | 0 <= i < |outcomes| :: outcomes[i].Ok?
    ensures Fold(outcomes).Err? ==>
      exists i | 0 <= i < |outcomes| ::
        outcomes[i] == Err(Fold(outcomes).error) && forall j | 0 <= j < i :: outcomes[j].Ok?
    decreases |outcomes|
  {
    if outcomes != [] {
      var n := |outcomes| - 1;
      var p := outcomes[..n];
      FoldFailsAtFirstError(p);
      assert forall i | 0 <= i < n :: p[i] == outcomes[i];
      if Fold(p).Err? {
        var i :| 0 <= i < n && p[i] == Err(Fold(p).error) && forall j | 0 <= j < i :: p[j].Ok?;
        assert outcomes[i] == Err(Fold(outcomes).error);
      }
    }
  }

  /** The datapoints one outcome files under category `c`: its own when it is filed there, none otherwise. */
  function PointsFor<V>(r: Result<Contribution<V>, Error>, c: Category): seq<Datapoint<V>> {
    if r.Ok? && r.value.Contributes? && r.value.category == c then r.value.points else []
  }

  /** Every datapoint the outcomes file under category `c`, concatenated in order. */
  function Gathered<V>(outcomes: seq<Result<Contribution<V>, Error>>, c: Category): seq<Datapoint<V>>
    decreases |outcomes|
  {
    if outcomes == [] then []
    else Gathered(outcomes[..|outcomes| - 1], c) + PointsFor(outcomes[|outcomes| - 1], c)
  }

  /**
   * Each list the fold builds is the concatenation of the datapoints filed
   * under its category, in order, with every repeat after the first
   * dropped: what `|=` builds up one entry at a time.
   */
  lemma {:induction false} FoldListsAreUniqOfGathered<V>(outcomes: seq<Result<Contribution<V>, Error>>)
    requires Fold(outcomes).Ok?
    ensures forall c: Category :: Fold(outcomes).value.Get(c) == Dedup(Gathered(outcomes, c))
    decreases |outcomes|
  {
    if outcomes != [] {
      var n := |outcomes| - 1;
      var p := outcomes[..n];
      var r := outcomes[n];
      FoldListsAreUniqOfGathered(p);
      var lists := Fold(p).value;
      forall c: Category ensures Fold(outcomes).value.Get(c) == Dedup(Gathered(outcomes, c)) {
        assert Gathered(outcomes, c) == Gathered(p, c) + PointsFor(r, c);
        if r.value.Contributes? {
          var d := r.value.category;
          PutThenGet(lists, d, Union(lists.Get(d), r.value.points), c);
          if d == c {
            DedupAbsorbsDedup(Gathered(p, c), r.value.points);
          } else {
            assert Gathered(p, c) + PointsFor(r, c) == Gathered(p, c);
          }
        } else {
          assert Gathered(p, c) + PointsFor(r, c) == Gathered(p, c);
        }
      }
    }
  }

  /** Where each datapoint of `Gathered` comes from: some outcome filed it, and every filed datapoint is there. */
  lemma {:induction false} GatheredFromOutcomes<V>(outcomes: seq<Result<Contribution<V>, Error>>, c: Category)
    ensures forall d | d in Gathered(outcomes, c) :: exists i | 0 <= i < |outcomes| :: d in PointsFor(outcomes[i], c)
    ensures forall i, d | 0 <= i < |outcomes| && d in PointsFor(outcomes[i], c) :: d in Gathered(outcomes, c)
    decreases |outcomes|
  {
    if outcomes != [] {
      var n := |outcomes| - 1;
      var p := outcomes[..n];
      GatheredFromOutcomes(p, c);
      assert forall i | 0 <= i < n :: p[i] == outcomes[i];
    }
  }

  /** What is gathered from a prefix of the outcomes is a prefix of what is gathered from all of them. */
  lemma {:induction false} GatheredPrefix<V>(outcomes: seq<Result<Contribution<V>, Error>>, i: nat, c: Category)
    requires i <= |outcomes|
    ensures Gathered(outcomes[..i], c) <= Gathered(outcomes, c)
    decreases |outcomes|
  {
    if i < |outcomes| {
      var n := |outcomes| - 1;
      assert outcomes[..n][..i] == outcomes[..i];
      GatheredPrefix(outcomes[..n], i, c);
    } else {
      assert outcomes[..i] == outcomes;
    }
  }

  /**
   * Later entries only append: when the whole fold succeeds, so does the
   * fold over any prefix, and each of its lists is a prefix of the final one.
   */
  lemma ListsOnlyGrow<V>(outcomes: seq<Result<Contribution<V>, Error>>, i: nat)
    requires i <= |outcomes|
    requires Fold(outcomes).Ok?
    ensures Fold(outcomes[..i]).Ok?
    ensures forall c: Category :: Fold(outcomes[..i]).value.Get(c) <= Fold(outcomes).value.Get(c)
  {
    FoldPrefixOk(outcomes, i);
    FoldListsAreUniqOfGathered(outcomes[..i]);
    FoldListsAreUniqOfGathered(outcomes);
    forall c: Category ensures Fold(outcomes[..i]).value.Get(c) <= Fold(outcomes).value.Get(c) {
      GatheredPrefix(outcomes, i, c);
      DedupOfPrefix(Gathered(outcomes[..i], c), Gathered(outcomes, c));
    }
  }

  /** When the whole fold succeeds, so does the fold over every prefix. */
  lemma {:induction false} FoldPrefixOk<V>(outcomes: seq<Result<Contribution<V>, Error>>, i: nat)
    requires i <= |outcomes|
    requires Fold(outcomes).Ok?
    ensures Fold(outcomes[..i]).Ok?
    decreases |outcomes|
  {
    if i < |outcomes| {
      var n := |outcomes| - 1;
      assert outcomes[..n][..i] == outcomes[..i];
      FoldPrefixOk(outcomes[..n], i);
    } else {
      assert outcomes[..i] == outcomes;
    }
  }

  /** An entry that is passed over leaves the lists exactly as they were, wherever it stands. */
  lemma {:induction false} FoldIgnoresSkipped<V>(before: seq<Result<Contribution<V>, Error>>,
                                                 after: seq<Result<Contribution<V>, Error>>)
    ensures Fold(before + [Ok(Skipped)] + after) == Fold(before + after)
    decreases |after|
  {
    if after == [] {
      assert (before + [Ok(Skipped)])[..|before|] == before;
      assert before + [] == before;
      assert before + [Ok(Skipped)] + [] == before + [Ok(Skipped)];
    } else {
      var n := |after| - 1;
      var left := before + [Ok(Skipped)] + after;
      var right := before + after;
      assert left[..|left| - 1] == before + [Ok(Skipped)] + after[..n];
      assert right[..|right| - 1] == before + after[..n];
      FoldIgnoresSkipped(before, after[..n]);
    }
  }

  /**
   * `|=` adds nothing already present: an outcome that repeats an earlier
   * one leaves the lists unchanged.
   */
  lemma RepeatedOutcomeAddsNothing<V>(outcomes: seq<Result<Contribution<V>, Error>>, i: nat)
    requires i < |outcomes|
    requires Fold(outcomes).Ok?
    ensures Fold(outcomes + [outcomes[i]]) == Fold(outcomes)
  {
    var r := outcomes[i];
    var all := outcomes + [r];
    assert all[..|all| - 1] == outcomes;
    FoldFailsAtFirstError(outcomes);
    if r.value.Contributes? {
      var c := r.value.category;
      var lists := Fold(outcomes).value;
      FoldListsAreUniqOfGathered(outcomes);
      GatheredFromOutcomes(outcomes, c);
      assert forall x | x in r.value.points :: x in lists.Get(c);
      UnionExtends(lists.Get(c), r.value.points);
      assert lists.Put(c, lists.Get(c)) == lists;
    }
  }

  // ---------------------------------------------------------------------
  // What `get_datapoints` promises about the registry

  /** `get_datapoints` raises exactly when some entry raises, and then with the first such entry's exception. */
  lemma CollectFailsAtFirstFailingEntry<V>(registry: seq<Entry<V>>, config: Config, time: int)
    ensures Collect(registry, config, time).Ok? <==>
      forall i | 0 <= i < |registry| :: EntryPoints(registry[i], config, time).Ok?
    ensures Collect(registry, config, time).Err? ==>
      exists i | 0 <= i < |registry| ::
        EntryPoints(registry[i], config, time) == Err(Collect(registry, config, time).error)
        && forall j | 0 <= j < i :: EntryPoints(registry[j], config, time).Ok?
  {
    FoldFailsAtFirstError(Outcomes(registry, config, time));
  }

  /**
   * Under each category the batch holds the datapoints of the entries filed
   * there, in registry order, each once; a category under which nothing is
   * filed has no key.
   */
  lemma BatchIsUniqOfFiledDatapoints<V>(registry: seq<Entry<V>>, config: Config, time: int)
    requires Collect(registry, config, time).Ok?
    ensures forall c: Category ::
      c in Collect(registry, config, time).value <==> Gathered(Outcomes(registry, config, time), c) != []
    ensures forall c | c in Collect(registry, config, time).value ::
      Collect(registry, config, time).value[c] == Dedup(Gathered(Outcomes(registry, config, time), c))
    ensures forall c | c in Collect(registry, config, time).value :: NoDups(Collect(registry, config, time).value[c])
  {
    var os := Outcomes(registry, config, time);
    FoldListsAreUniqOfGathered(os);
    forall c: Category
      ensures c in Collect(registry, config, time).value <==> Gathered(os, c) != []
      ensures c in Collect(registry, config, time).value ==> Collect(registry, config, time).value[c] == Dedup(Gathered(os, c))
    {
      BatchHoldsNonEmptyLists(Fold(os).value, c);
      var g := Gathered(os, c);
      if g != [] {
        assert g[0] in Dedup(g);
      }
    }
  }

  /**
   * What an exported datapoint says about the entry it came from: the entry
   * is named and matched the arm of category `c`, and the datapoint carries
   * the read time, the reporter's tags, and the name and value of one of
   * that arm's readers, on the metric itself or on its snapshot.
   */
  ghost predicate EmittedBy<V>(e: Entry<V>, config: Config, time: int, c: Category, d: Datapoint<V>) {
    && Named(e)
    && Dispatch(e.metric.kind) == Some(c)
    && d.timestamp == time
    && d.tags == config.tags
    && ((exists k | k in InstantKeys(c) && k in e.metric.readers ::
           d.metric == MetricName(config.prefix, e.name.value, k) && d.value == e.metric.readers[k])
        || (e.metric.snapshot.Some? &&
            exists k | k in SnapshotKeys(c) && k in e.metric.snapshot.value ::
              d.metric == MetricName(config.prefix, e.name.value, k) && d.value == e.metric.snapshot.value[k]))
  }

  /** Every datapoint one entry files under `c` is emitted by that entry in the sense of `EmittedBy`. */
  lemma EntryPointsAreEmitted<V>(e: Entry<V>, config: Config, time: int, c: Category)
    ensures forall d | d in PointsFor(EntryPoints(e, config, time), c) :: EmittedBy(e, config, time, c, d)
  {
    var r := EntryPoints(e, config, time);
    if r.Ok? && r.value.Contributes? && r.value.category == c {
      var name := e.name.value;
      var keys, snapshotKeys := InstantKeys(c), SnapshotKeys(c);
      ExpandShape(BaseName(config.prefix, name), e.metric, time, config.tags, keys, snapshotKeys);
      var ps := r.value.points;
      forall d | d in ps ensures EmittedBy(e, config, time, c, d) {
        var j :| 0 <= j < |ps| && ps[j] == d;
        if j < |keys| {
          FullNameHasOneOfTwoShapes(config.prefix, name, keys[j]);
          assert keys[j] in keys;
        } else {
          var k := snapshotKeys[j - |keys|];
          FullNameHasOneOfTwoShapes(config.prefix, name, k);
          assert k in snapshotKeys;
        }
      }
    }
  }

  /** Every datapoint in the batch was emitted by some entry of the registry under that category. */
  lemma BatchPointsAreEmitted<V>(registry: seq<Entry<V>>, config: Config, time: int)
    requires Collect(registry, config, time).Ok?
    ensures forall c, d | c in Collect(registry, config, time).value && d in Collect(registry, config, time).value[c] ::
      exists i | 0 <= i < |registry| :: EmittedBy(registry[i], config, time, c, d)
  {
    var os := Outcomes(registry, config, time);
    var batch := Collect(registry, config, time).value;
    BatchIsUniqOfFiledDatapoints(registry, config, time);
    forall c, d | c in batch && d in batch[c]
      ensures exists i | 0 <= i < |registry| :: EmittedBy(registry[i], config, time, c, d)
    {
      GatheredFromOutcomes(os, c);
      var i :| 0 <= i < |os| && d in PointsFor(os[i], c);
      EntryPointsAreEmitted(registry[i], config, time, c);
    }
  }

  /** An entry that succeeds files datapoints under `c` exactly when it is named and matched the arm of `c`. */
  lemma EntryFiledUnder<V>(e: Entry<V>, config: Config, time: int, c: Category)
    requires EntryPoints(e, config, time).Ok?
    ensures PointsFor(EntryPoints(e, config, time), c) != [] <==> Named(e) && Dispatch(e.metric.kind) == Some(c)
  {
    if Named(e) && Dispatch(e.metric.kind) == Some(c) {
      ExpandShape(BaseName(config.prefix, e.name.value), e.metric, time, config.tags, InstantKeys(c), SnapshotKeys(c));
    }
  }

  /** A category has a key in the batch exactly when some named entry of the registry matched its arm. */
  lemma CategoryPresentIffSomeEntryMatched<V>(registry: seq<Entry<V>>, config: Config, time: int, c: Category)
    requires Collect(registry, config, time).Ok?
    ensures c in Collect(registry, config, time).value <==>
      exists i | 0 <= i < |registry| :: Named(registry[i]) && Dispatch(registry[i].metric.kind) == Some(c)
  {
    BatchIsUniqOfFiledDatapoints(registry, config, time);
    CollectFailsAtFirstFailingEntry(registry, config, time);
    if exists i | 0 <= i < |registry| :: Named(registry[i]) && Dispatch(registry[i].metric.kind) == Some(c) {
      var i :| 0 <= i < |registry| && Named(registry[i]) && Dispatch(registry[i].metric.kind) == Some(c);
      FiledEntryIsGathered(registry, config, time, c, i);
    } else if Gathered(Outcomes(registry, config, time), c) != [] {
      GatheredComesFromMatchingEntry(registry, config, time, c);
    }
  }

  /** A successful named entry that matched the arm of `c` leaves something gathered under `c`. */
  lemma FiledEntryIsGathered<V>(registry: seq<Entry<V>>, config: Config, time: int, c: Category, i: nat)
    requires i < |registry|
    requires EntryPoints(registry[i], config, time).Ok?
    requires Named(registry[i]) && Dispatch(registry[i].metric.kind) == Some(c)
    ensures Gathered(Outcomes(registry, config, time), c) != []
  {
    var os := Outcomes(registry, config, time);
    EntryFiledUnder(registry[i], config, time, c);
    assert PointsFor(os[i], c) != [];
    GatheredNonEmpty(os, i, c);
  }

  /** An outcome that files something under `c` leaves something gathered under `c`. */
  lemma GatheredNonEmpty<V>(outcomes: seq<Result<Contribution<V>, Error>>, i: nat, c: Category)
    requires i < |outcomes| && PointsFor(outcomes[i], c) != []
    ensures Gathered(outcomes, c) != []
  {
    GatheredFromOutcomes(outcomes, c);
    var ps := PointsFor(outcomes[i], c);
    assert ps[0] in ps;
  }

  /** Something gathered under `c` comes from a named entry that matched the arm of `c`. */
  lemma GatheredComesFromMatchingEntry<V>(registry: seq<Entry<V>>, config: Config, time: int, c: Category)
    requires forall i | 0 <= i < |registry| :: EntryPoints(registry[i], config, time).Ok?
    requires Gathered(Outcomes(registry, config, time), c) != []
    ensures exists i | 0 <= i < |registry| :: Named(registry[i]) && Dispatch(registry[i].metric.kind) == Some(c)
  {
    var os := Outcomes(registry, config, time);
    var g := Gathered(os, c);
    GatheredFromOutcomes(os, c);
    assert g[0] in g;
    var i :| 0 <= i < |os| && g[0] in PointsFor(os[i], c);
    EntryFiledUnder(registry[i], config, time, c);
  }

  /** The entry succeeds and files exactly `n` datapoints under category `c`. */
  predicate Yields<V>(r: Result<Contribution<V>, Error>, c: Category, n: nat) {
    r.Ok? && r.value.Contributes? && r.value.category == c && |r.value.points| == n
  }

  /** How many datapoints one metric of each handled class exports. */
  function ExportedCount(c: Category): nat {
    match c
    case Meter => 5
    case Counter => 1
    case Gauge => 1
    case UtilizationTimer => 15
    case Timer => 11
    case Histogram => 7
  }

  /**
   * How many datapoints each kind of metric exports when it answers all its
   * readers: five for a meter, one for a counter or a gauge, fifteen for a
   * utilization timer, eleven for a timer, seven for a histogram, and none
   * for anything else.
   */
  lemma DatapointsPerKind<V>(e: Entry<V>, config: Config, time: int)
    requires Named(e)
    requires e.metric.kind.Instance? ==>
      Answers(e.metric, InstantKeys(e.metric.kind.cls), SnapshotKeys(e.metric.kind.cls))
    ensures e.metric.kind.Other? ==> EntryPoints(e, config, time) == Ok(Skipped)
    ensures e.metric.kind.Instance? ==> Yields(EntryPoints(e, config, time), e.metric.kind.cls, ExportedCount(e.metric.kind.cls))
  {
    DispatchByClass(e.metric.kind);
    if e.metric.kind.Instance? {
      var c := e.metric.kind.cls;
      EntryYieldsItsReaders(e, config, time, c);
      assert |InstantKeys(c)| + |SnapshotKeys(c)| == ExportedCount(c);
    }
  }

  /** A named entry of class `c` that answers all of its arm's readers yields one datapoint per reader. */
  lemma EntryYieldsItsReaders<V>(e: Entry<V>, config: Config, time: int, c: Category)
    requires Named(e) && e.metric.kind == Instance(c)
    requires Answers(e.metric, InstantKeys(c), SnapshotKeys(c))
    ensures Yields(EntryPoints(e, config, time), c, |InstantKeys(c)| + |SnapshotKeys(c)|)
  {
    DispatchByClass(e.metric.kind);
    ExpandShape(BaseName(config.prefix, e.name.value), e.metric, time, config.tags, InstantKeys(c), SnapshotKeys(c));
  }

  /** Entries with a nil or empty name, and metrics of no handled class, change nothing wherever they stand. */
  lemma UnexportedEntryChangesNothing<V>(before: seq<Entry<V>>, e: Entry<V>, after: seq<Entry<V>>, config: Config, time: int)
    requires !Named(e) || e.metric.kind.Other?
    ensures Collect(before + [e] + after, config, time) == Collect(before + after, config, time)
  {
    DispatchByClass(e.metric.kind);
    assert EntryPoints(e, config, time) == Ok(Skipped);
    OutcomesAround(before, e, after, config, time);
    OutcomesConcat(before, after, config, time);
    FoldIgnoresSkipped(Outcomes(before, config, time), Outcomes(after, config, time));
  }

  /**
   * Names that sanitise alike collide: an entry whose name differs from an
   * earlier entry's only in how its runs of spaces are written, with the
   * same metric, adds nothing to the batch, since `|=` drops the repeats.
   */
  lemma CollidingNamesCollapse<V>(registry: seq<Entry<V>>, e: Entry<V>, config: Config, time: int, i: nat)
    requires i < |registry|
    requires Collect(registry, config, time).Ok?
    requires Named(e) && Named(registry[i])
    requires Sanitize(e.name.value) == Sanitize(registry[i].name.value) && e.metric == registry[i].metric
    ensures Collect(registry + [e], config, time) == Collect(registry, config, time)
  {
    var os := Outcomes(registry, config, time);
    assert Outcomes([e], config, time) == [os[i]];
    OutcomesConcat(registry, [e], config, time);
    RepeatedOutcomeAddsNothing(os, i);
  }

  // ---------------------------------------------------------------------
  // `submit` and `flush`

  /** What the endpoint did with one post; a rejection is the exception the HTTP client raises. */
  datatype Delivery = Delivered | Rejected(reason: string)

  /** What `submit` did: returned at once, or posted the batch once with this outcome. */
  datatype Submission<V> = NotPosted | Posted(batch: Batch<V>, delivery: Delivery)

  /** `submit`: nothing is posted for an empty batch; otherwise the whole batch is posted once. */
  function Submit<V>(batch: Batch<V>, post: Batch<V> -> Delivery): (r: Submission<V>)
    ensures r.NotPosted? <==> batch == map[]
    ensures r.Posted? ==> r.batch == batch && r.delivery == post(batch)
  {
    if batch == map[] then NotPosted else Posted(batch, post(batch))
  }

  /** What one `flush` did: its submission, and the exception it handed to the error callback, if any. */
  datatype FlushEffect<V> = FlushEffect(submission: Submission<V>, reported: Option<Error>)

  /**
   * `flush`: collect and submit; an exception from either is reported once
   * to the error callback and does not escape.
   */
  function Flush<V(==)>(registry: seq<Entry<V>>, config: Config, time: int, post: Batch<V> -> Delivery): (r: FlushEffect<V>)
    ensures Collect(registry, config, time).Err? ==>
      r.submission.NotPosted? && r.reported == Some(Collect(registry, config, time).error)
    ensures Collect(registry, config, time).Ok? ==>
      r.submission == Submit(Collect(registry, config, time).value, post)
    ensures r.reported.Some? <==>
      Collect(registry, config, time).Err? || (r.submission.Posted? && r.submission.delivery.Rejected?)
    ensures r.submission.Posted? && r.submission.delivery.Rejected? ==>
      r.reported == Some(DeliveryFailed(r.submission.delivery.reason))
  {
    match Collect(registry, config, time)
    case Err(err) => FlushEffect(NotPosted, Some(err))
    case Ok(batch) =>
      var s := Submit(batch, post);
      if s.Posted? && s.delivery.Rejected? then FlushEffect(s, Some(DeliveryFailed(s.delivery.reason)))
      else FlushEffect(s, None)
  }

  /** A registry with no named entry of a handled class yields an empty batch, and `flush` posts nothing and reports nothing. */
  lemma NoPostWithoutExportedEntries<V>(registry: seq<Entry<V>>, config: Config, time: int, post: Batch<V> -> Delivery)
    requires forall i | 0 <= i < |registry| :: !Named(registry[i]) || registry[i].metric.kind.Other?
    ensures Collect(registry, config, time) == Ok(map[])
    ensures Flush(registry, config, time, post) == FlushEffect(NotPosted, None)
  {
    forall i | 0 <= i < |registry| ensures EntryPoints(registry[i], config, time).Ok? {
      DispatchByClass(registry[i].metric.kind);
    }
    CollectFailsAtFirstFailingEntry(registry, config, time);
    var batch := Collect(registry, config, time).value;
    forall c: Category ensures c !in batch {
      CategoryPresentIffSomeEntryMatched(registry, config, time, c);
      forall i | 0 <= i < |registry| ensures !(Named(registry[i]) && Dispatch(registry[i].metric.kind) == Some(c)) {
        DispatchByClass(registry[i].metric.kind);
      }
    }
    assert batch == map[];
  }
}
