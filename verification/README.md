# SignalFx reporter for Metriks, modelled in Dafny

This project models the export path of `Metriks::SignalFxReporter`. That reporter walks a
Metriks registry, turns each recognised metric into SignalFx datapoints and posts them in one
JSON batch. The model covers:

- **Naming.** A registry name has every run of spaces replaced by one `_`. It gets `prefix.` in
  front when a prefix is set; an empty prefix counts as set. Each exported field is appended
  after a dot, with one leading `get_` removed.
- **Metrics.** The six classes the reporter recognises are Meter, Counter, Gauge,
  UtilizationTimer, Timer and Histogram. A `UtilizationTimer` is also a `Timer`. The model
  covers the `case` that picks an arm by class, the readers each arm asks for, and the snapshot
  readers (`median`, `get_95th_percentile`). A metric is a value: its kind, a map from reader
  name to value, and an optional snapshot map. Asking a metric or snapshot for a reader it lacks
  raises `NoMethodError`; `Error.NoMethod` models that.
- **`create_datapoints`.** `Datapoints.Expand` specifies it and `Datapoints.CreateDatapoints`
  implements it with the source's two loops. One datapoint is produced per live reader, then
  one per snapshot reader from a single snapshot. Every datapoint carries the read time and the
  reporter's tags.
- **`get_datapoints`.**
  - `Reporter.Collect` specifies it and `Reporter.GetDatapoints` implements it. The
    implementation is one pass over the registry that grows six local lists, one per category,
    with `|=`.
  - The pass skips nameless entries and entries of unrecognised classes. It stops at the first
    exception.
  - It then builds a hash holding only the non-empty lists.
  - `Array#|` is modelled as `ArrayUnion.Union`: concatenate, then keep each element's first
    occurrence.
- **`submit` and `flush`.** An empty batch is not posted; otherwise it is posted once. `flush`
  catches any exception raised while collecting or posting and hands it to the error callback
  once.

A timer exports eleven datapoints: the nine live readers (lib/metriks/signalfx_reporter.rb:137-140)
plus `median` and `95th_percentile` from the snapshot (141-143). `Reporter.DatapointsPerKind`
states the counts for every class.

## Model

| member | source | states |
|---|---|---|
| `Naming.Sanitize` | lib/metriks/signalfx_reporter.rb:106 | the rewritten name contains no space, and is empty exactly when the registry name is |
| `Naming.SanitizeSpaceRun` | lib/metriks/signalfx_reporter.rb:106 | a run of one or more spaces, of any length, becomes exactly one `_` |
| `Naming.SanitizeSplitsAtNonSpace` | lib/metriks/signalfx_reporter.rb:106 | a non-space character ends any run: the text before and after it is rewritten independently and the character is kept in place |
| `Naming.SanitizeKeepsSpaceFreeNames` | lib/metriks/signalfx_reporter.rb:106 | a name with no spaces is exported unchanged |
| `Naming.FieldName` | lib/metriks/signalfx_reporter.rb:166-178 | a reader name with a leading `get_` is that marker followed by the exported field; any other reader name is exported as it is |
| `Naming.BaseName` | lib/metriks/signalfx_reporter.rb:106-109 | without a prefix, the base name is the space-free rewritten name, empty only for an empty name; with one, it is the prefix, a dot, then a space-free rewritten name |
| `Naming.SanitizeIsIdempotent` | lib/metriks/signalfx_reporter.rb:106 | rewriting an already rewritten name changes nothing |
| `Naming.FieldNameDropsOneMarker` | lib/metriks/signalfx_reporter.rb:166 | exactly one leading `get_` is removed from a reader name, other names are kept, and `get_95th_percentile` is exported as `95th_percentile` |
| `Naming.FullNameHasOneOfTwoShapes` | lib/metriks/signalfx_reporter.rb:105-168 | an exported name is `name.field` without a prefix and `prefix.name.field` with one, the name being the rewritten registry name |
| `Metrics.InstantKeys` | lib/metriks/signalfx_reporter.rb:113-149 | the live readers of each `when` arm, in source order: never empty, and starting with `count` for every arm but the gauge's |
| `Metrics.SnapshotKeys` | lib/metriks/signalfx_reporter.rb:132-149 | the snapshot readers of each arm: two (`median`, then the `get_`-marked percentile) for utilization timers, timers and histograms, none for the other arms |
| `Metrics.ArmReadersNest` | lib/metriks/signalfx_reporter.rb:113-149 | a timer reads everything a meter reads, and a utilization timer everything a timer reads; counter readers begin the meter and histogram lists; the three distribution arms share their snapshot readers |
| `Metrics.Send` | lib/metriks/signalfx_reporter.rb:170-182 | `send` answers exactly when the receiver has the reader, with its value; otherwise it raises `NoMethodError` naming that reader |
| `Metrics.FirstArmIsFirstMatch` | lib/metriks/signalfx_reporter.rb:111-150 | the `case` picks an arm the metric is an instance of, no earlier arm matches it, and it picks none exactly when no arm matches |
| `Metrics.DispatchByClass` | lib/metriks/signalfx_reporter.rb:111-150 | each of the six classes lands in its own category, a utilization timer included; any other object lands nowhere |
| `Metrics.TimerArmFirstWouldCaptureUtilizationTimers` | lib/metriks/signalfx_reporter.rb:125-143 | the arm order matters: with `Timer` tried before `UtilizationTimer`, a utilization timer would be filed as a timer |
| `Metrics.CaseArm` | lib/metriks/signalfx_reporter.rb:111-150 | the arms, tried one after the other, pick the category `Dispatch` defines |
| `ArrayUnion.Dedup` | lib/metriks/signalfx_reporter.rb:113 | the result has no repeats, holds exactly the elements of the input, and is no longer than it |
| `ArrayUnion.UnionExtends` | lib/metriks/signalfx_reporter.rb:113 | `a \| b` on a list without repeats keeps `a` as a prefix and has no repeats; its elements are exactly those of `a` and `b`; it is `a` itself when `b` adds nothing new |
| `ArrayUnion.DedupAbsorbsDedup` | lib/metriks/signalfx_reporter.rb:113 | applying `\|=` step by step gives the same list as dropping repeats once from the whole concatenation |
| `ArrayUnion.DedupPrefix` | lib/metriks/signalfx_reporter.rb:113 | dropping repeats from a longer list extends the result for a shorter one |
| `Datapoints.FieldPointsSucceedsIff` | lib/metriks/signalfx_reporter.rb:165-173 | the reader loop raises exactly when the receiver lacks one of the keys |
| `Datapoints.FieldPointsContents` | lib/metriks/signalfx_reporter.rb:165-173 | a successful reader loop yields one datapoint per key, in key order, named `base.field` and holding the receiver's value, the time and the tags |
| `Datapoints.FieldPointsFirstMissing` | lib/metriks/signalfx_reporter.rb:165-173 | a failed reader loop raises `NoMethodError` for the first key the receiver lacks |
| `Datapoints.FieldPointsStopsAtError` | lib/metriks/signalfx_reporter.rb:165-173 | once the loop has raised on some prefix of the keys, later keys change nothing |
| `Datapoints.ExpandSucceedsIff` | lib/metriks/signalfx_reporter.rb:163-188 | `create_datapoints` raises exactly when the metric lacks a live reader, or when snapshot readers are asked for and it has no snapshot or the snapshot lacks one |
| `Datapoints.ExpandContents` | lib/metriks/signalfx_reporter.rb:163-188 | a successful call yields the live readers' datapoints first, in key order, then the snapshot readers' datapoints, \|keys\| + \|snapshot_keys\| in all |
| `Datapoints.ExpandShape` | lib/metriks/signalfx_reporter.rb:163-188 | combines the two above and adds that every datapoint carries the given time and tags |
| `Datapoints.SnapshotOnlyWhenAsked` | lib/metriks/signalfx_reporter.rb:175-176 | `snapshot` is called only when snapshot readers are asked for; then a metric without it raises after its live readers are read |
| `Datapoints.CreateDatapoints` | lib/metriks/signalfx_reporter.rb:163-188 | the two appending loops return exactly what `Expand` specifies, the error included |
| `Reporter.EntryPoints` | lib/metriks/signalfx_reporter.rb:105-150 | the loop body for one entry: a nameless entry or an unrecognised class adds nothing; an entry that adds datapoints or raises is named and its class picks an arm, and what it adds is filed under that arm's category |
| `Reporter.GetDatapoints` | lib/metriks/signalfx_reporter.rb:94-161 | the registry loop over six local lists, then the hash of non-empty lists, returns exactly what `Collect` specifies, the first exception included |
| `Reporter.KeepNonEmpty` | lib/metriks/signalfx_reporter.rb:153-158 | the six conditional hash stores build the batch `ToBatch` specifies |
| `Reporter.BatchHoldsNonEmptyLists` | lib/metriks/signalfx_reporter.rb:153-158 | a category has a key exactly when its list is non-empty, and the key holds that list |
| `Reporter.CollectFailsAtFirstFailingEntry` | lib/metriks/signalfx_reporter.rb:104-151 | `get_datapoints` raises exactly when some entry raises, and then with the exception of the first such entry |
| `Reporter.FoldListsAreUniqOfGathered` | lib/metriks/signalfx_reporter.rb:111-150 | each list the loop builds is the concatenation of the datapoints filed in its category, in registry order, with later repeats dropped |
| `Reporter.BatchIsUniqOfFiledDatapoints` | lib/metriks/signalfx_reporter.rb:94-161 | the batch has a key exactly for the categories something is filed under; each key holds that category's datapoints in registry order, each once |
| `Reporter.ListsOnlyGrow` | lib/metriks/signalfx_reporter.rb:104-151 | when the loop succeeds it succeeds on every prefix of the registry, and later entries only append to each list |
| `Reporter.FoldPrefixOk` | lib/metriks/signalfx_reporter.rb:104-151 | when the loop succeeds on the whole registry it succeeds on every prefix |
| `Reporter.UnexportedEntryChangesNothing` | lib/metriks/signalfx_reporter.rb:105-150 | an entry with a nil or empty name, or of an unrecognised class, changes nothing wherever it stands in the registry |
| `Reporter.RepeatedOutcomeAddsNothing` | lib/metriks/signalfx_reporter.rb:113-145 | an entry whose datapoints repeat an earlier entry's adds nothing, since `\|=` drops repeats |
| `Reporter.CollidingNamesCollapse` | lib/metriks/signalfx_reporter.rb:104-113 | two entries with the same metric whose names rewrite to the same name collapse into one set of datapoints |
| `Reporter.EntryPointsAreEmitted` | lib/metriks/signalfx_reporter.rb:104-150 | each datapoint an entry files in a category belongs to that entry: named, matching the category's arm, carrying the time, the tags, and one reader's name and value |
| `Reporter.BatchPointsAreEmitted` | lib/metriks/signalfx_reporter.rb:94-161 | every datapoint in the batch was emitted, in that sense, by some entry of the registry under the same category |
| `Reporter.EntryFiledUnder` | lib/metriks/signalfx_reporter.rb:104-150 | an entry that succeeds files datapoints in a category exactly when it is named and its class picks that category's arm |
| `Reporter.CategoryPresentIffSomeEntryMatched` | lib/metriks/signalfx_reporter.rb:153-158 | a category is a key of the batch exactly when some named entry of the registry picks its arm |
| `Reporter.EntryYieldsItsReaders` | lib/metriks/signalfx_reporter.rb:111-149 | an entry that answers all its arm's readers yields one datapoint per live and snapshot reader, in its own category |
| `Reporter.DatapointsPerKind` | lib/metriks/signalfx_reporter.rb:111-149 | exported datapoints per metric: meter 5, counter 1, gauge 1, utilization timer 15, timer 11, histogram 7; anything else none |
| `Reporter.Submit` | lib/metriks/signalfx_reporter.rb:84-91 | an empty batch is never posted; otherwise the whole batch is posted exactly once |
| `Reporter.Flush` | lib/metriks/signalfx_reporter.rb:72-82 | a collection error goes to the error callback with nothing posted; a rejected post is reported once; nothing is reported when collection and delivery succeed |
| `Reporter.NoPostWithoutExportedEntries` | lib/metriks/signalfx_reporter.rb:84-85 | a registry with no named entry of a recognised class gives an empty batch, and `flush` posts and reports nothing |

## Left out

- The background thread, `start`, `stop` and `restart` (lines 41-70) are not modelled: they
  are thread control and sleeping. One flush is modelled at a time.
- The mutex around a flush is not modelled. Metric values are taken as fixed during one flush,
  so the model does not capture a registry changing while it is walked.
- Logging (lines 35-39 and the `log` calls) is not modelled. The "Sent ... metrics" message
  reports `datapoints.size`, the number of categories in the batch, not the number of
  datapoints.
- The HTTP post is a parameter `post` of `Submit` and `Flush`. JSON encoding, the URL, the
  organisation id and the token are not modelled. A post is either delivered or rejected, the
  rejection standing for the exception the HTTP client raises.
- The key order of the batch hash, which only shows in the JSON text, is not modelled. The
  batch is a map from category to list.
- The clock is not modelled: the floored read time is a parameter `time`.
- The metrics' own computations (rates, percentiles, snapshots) are not modelled: readers are
  maps to opaque values. Equality of values stands for Ruby's `eql?`, which is what `Array#|`
  uses.
- Constructor options the export path does not read (`batch_size`, `percentiles`, `source`,
  `interval`, the default registry) are not modelled.
- The error callback's own behaviour is not modelled. `Flush` records which exception it was
  handed.
- An exception raised inside the rescue branch of `flush` escapes it, and is not modelled. This
  covers a failure of the logger at line 79. It also covers a callback exception outside
  `StandardError`, since `rescue nil` at line 80 catches only `StandardError`.
- `Flush` covers only the exceptions the model can produce: a missing reader or snapshot, and
  a rejected post. Other Ruby exceptions are treated the same way by `rescue Exception`.
- Registry names are strings, so `to_s` is the identity. Reader lists are flat, so `flatten`
  is the identity.
- `/^get_/` in Ruby also matches after a newline inside a string. Reader names are fixed
  symbols without newlines, so only a leading `get_` is modelled.
