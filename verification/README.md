# edt: verified model of the verdict logic

`edt` drives event-driven scenarios and decides whether they pass. This project models
the code that makes those decisions and the protocols and parsers around it, and proves
what that code guarantees:

- the check operators: greedy latency pairing is a maximum matching, percentiles are order
  statistics, the glob scanner is exact on one family of patterns (`Latency`, `Percentile`,
  `Glob`);
- the eval executor: cursors, reseeding, polling and used outputs against a store that
  others append to at any moment, then aggregation and verdicts (`EvalRun`, `Scoring`);
- the schema-registry codec: its two caches under every interleaving of callers and registry
  updates, the wire header, and the Protobuf message-index path (`Codec`, `ProtoPath`);
- the worker loop: tick thread, goroutines, semaphore and dispatch map as an interleaving
  transition system (`Worker`);
- the event store and its windowed views (`MemStore`, `Window`);
- the hand-written scanners, each proved against a printer it inverts (`ScanJson`, `Sse`,
  `SplitArgs`, `ExpandEnv`);
- the read loops of the streaming steps on a virtual clock (`StreamLoop`, `Consume`).

Code that changes state step by step is modelled by methods and classes that do the same,
proved against specification functions; protocols are state machines whose runs are all
finite sequences of atomic steps. The lemmas speak about those functions and runs.
`dafny verify dfyconfig.toml` checks everything.

## Where the code and its documentation part

The model follows the code.

- `globMatch` places the last segment leftmost, so `*a` rejects `aba` although it ends in
  `a` (`Glob.MissedIsMissed`, `Glob.ExactPatterns`).
- `SSEStream.Next` keeps the name and the id of a frame without data for the next event;
  section 9.2.6 of the WHATWG HTML Living Standard resets the event name there
  (`Sse.NameLeaks`, `Sse.FramesStandAloneExactly`). It also delivers an unclosed last frame
  that has data, which the standard discards (`Sse.UnclosedExactly`), and forgets an id once an
  event is delivered with it (`Sse.IdForgotten`, `Sse.RunningIdsExactly`).
- A worker goroutine's deferred delete removes whatever entry its scenario has by then, so
  one that outlives its cancellation can hide a newer goroutine from later ticks
  (`Worker.LateDeleteOrphans`, with the exact condition in `Worker.RunCoversExactly`).
- The executor's cursors are lengths of `Query` results, so they are positions in the
  history only while a stream is not full (`MemStore.CursorsNeedNoEviction`).
- `windowed.Since` lets older bounds go when the latest bound is the zero time
  (`Window.SinceExactly`).
- `resolveMessage` asks for a slice of the length it read, which panics when the length is
  negative or more than a slice can hold (`ProtoPath.PanicsExactly`).
- An aggregate of no samples, of an unknown name or of samples that a judge answered with
  `"NaN"` can be NaN, which meets a `!=` threshold (`Scoring.NaNVerdict`, `Scoring.ReduceIsNaN`);
  only the sample gate keeps the first from passing. With NaN samples the least and the greatest
  value depend on the order in which the samples came (`Scoring.OrderMattersExactly`).
- `scanJSONObjects` promises every balanced block, but an unpaired quote in the text hides the
  objects after it (`ScanJson.FoundExactly`).
- Two evals of one name share an aggregate, of the kind the first of them called declares
  (`Scoring.SharedNameWrongKind`; harmless exactly when they declare the same kind,
  `Scoring.OwnKindExactly`).
- `SSEStream.Next` looks at its context on entry only, so a message that comes after an SSE
  step's deadline is recorded and may pass the step (`StreamLoop.LateMatchPasses`).
- A ttl of zero keeps the latest pointer of a subject for ever (`Codec.NoTtlNoFreshness`), as
  documented for that setting.

## Model

| member | source | states |
|---|---|---|
| `Latency.Latency` | pkg/checks/operators.go:197-237 | The loop returns one duration per pair of a matching that is key-equal, never back in time, uses every event at most once, is FIFO per key, and is as large as any such matching |
| `Latency.GreedyIsMaximum` | pkg/checks/operators.go:217-237 | No valid matching of the two streams has more pairs than the greedy outcome |
| `Latency.KeyMaximum` | pkg/checks/operators.go:217-237 | Already within one key no valid matching has more pairs than the greedy one |
| `Latency.GreedyCertificate` | pkg/checks/operators.go:218-237 | For every key there is a time t at which the greedy size equals the sources before t plus the destinations not before t, which bounds every matching |
| `Latency.DurationsIndependentOfOrder` | pkg/checks/operators.go:201-237 | Permuting either stream, and breaking timestamp ties either way in the unstable sorts, leaves the multiset of latencies unchanged |
| `Latency.Bucket` | pkg/checks/operators.go:201-204 | Each bucket holds the destinations of its key in stream order |
| `Latency.SortBuckets` | pkg/checks/operators.go:205-209 | Each bucket becomes a sorted permutation of itself |
| `Latency.SortByTs` | pkg/checks/operators.go:213-215 | A sorted permutation by timestamp, ties in any order |
| `Latency.FirstNotBefore` | pkg/checks/operators.go:220-226 | The first destination not before the source, all earlier ones being before it |
| `Latency.Serve` | pkg/checks/operators.go:219-236 | One source takes the first destination of its key not before it: its bucket loses that one and the list gains the duration, or nothing changes |
| `Latency.ServeKeeps` | pkg/checks/operators.go:218-237 | Serving one source keeps, for every key, the pairs so far plus the greedy pairing of what is left equal to the greedy pairing of the whole key |
| `Glob.GlobMatch` | pkg/checks/operators.go:70-95 | It accepts only strings the glob denotes; all of them when the pattern has no star or ends in one; otherwise the pattern itself and exactly the strings that are its segments, the first at the start, each of the others after a gap and occurring no earlier than after it |
| `Glob.Place` | pkg/checks/operators.go:74-90 | The loop ends where leftmost placement of all segments ends, or misses |
| `Glob.VerdictSound` | pkg/checks/operators.go:70-95 | Accepted strings are denoted by the glob, for every pattern |
| `Glob.VerdictComplete` | pkg/checks/operators.go:70-95 | For a pattern without a star or ending in one, every string the glob denotes is accepted |
| `Glob.OpenScanComplete` | pkg/checks/operators.go:76-90 | Leftmost placement never misses when the gaps are open on the right |
| `Glob.ScanEarliest` | pkg/checks/operators.go:80-88 | Leftmost placement ends no later than any back-to-back occurrence of the segments |
| `Glob.MissedIsMissed` | pkg/checks/operators.go:91-94 | A pattern with a star that does not end in one rejects a string the glob denotes, built from the pattern: its segments with the last one doubled |
| `Glob.ExactPatterns` | pkg/checks/operators.go:70-95 | The scanner agrees with the glob on all strings if and only if the pattern has no star or ends in one |
| `Glob.AcceptsExactly` | pkg/checks/operators.go:70-95 | For a pattern with a star that does not end in one, a string other than it is accepted if and only if it splits into the segments and gaps such that no segment occurs earlier than after its gap |
| `Percentile.ChecksPercentile` | pkg/checks/operators.go:322-347 | The copy in pkg/checks returns NaN on no samples and otherwise the Type-7 value at p clamped to 0..100, without indexing out of range |
| `Percentile.EvalPercentile` | pkg/eval/aggregator.go:118-133 | For p in 0..100 and at least one sample the copy in pkg/eval returns NaN when the lower rank falls among the NaN samples, which sort first, and otherwise the Type-7 value among the numbers at the rank lowered by the NaNs |
| `Percentile.CopiesAgree` | pkg/eval/aggregator.go:118-133 | On samples without NaN the copy in pkg/eval gives what the one in pkg/checks gives |
| `Percentile.SortFloatsSorts` | pkg/eval/aggregator.go:119-121 | The sorted copy is a permutation with NaN first and the numbers in order |
| `Percentile.MonotoneInP` | pkg/checks/operators.go:322-347 | A larger p never gives a smaller percentile |
| `Percentile.MonotoneInValues` | pkg/checks/operators.go:322-347 | Raising any samples never lowers a percentile |
| `Percentile.SortDominated` | pkg/checks/operators.go:332-334 | If every sample of one list is at most its counterpart, so is every order statistic |
| `Percentile.SplitsTheSample` | pkg/checks/operators.go:339-346 | More than floor(rank) samples are at most the percentile and at least n - ceil(rank) are not below it |
| `Percentile.WithinRange` | pkg/checks/operators.go:322-347 | A percentile lies between the least and the greatest sample and equals them at p <= 0 and p >= 100 |
| `Percentile.EvenPercentile` | pkg/checks/operators.go:322-347 | The p-th percentile of evenly spaced samples, in any order, is p hundredths of the way from the first to the last |
| `Percentile.AtBetween` | pkg/checks/operators.go:340-346 | Interpolation stays between the two neighbouring order statistics |
| `Percentile.AtMonotone` | pkg/checks/operators.go:339-346 | Interpolation is monotone in the rank |
| `EvalRun.Run.RunIterations` | pkg/eval/executor.go:176-215 | With any appends by others between any two reads, a run keeps: no output paired twice; every sample's input is one its own iteration read, and its output has the same key and lies past that iteration's cursor; each iteration starts on a store grown from the one the run began on and from what earlier iterations read, were judged against or scanned; the windows' reseeds and readings are, one by one, those in the world's record since the run began; each input got the first match, in the order of the output streams, that its last pass saw unused, and is missing only if that pass, which read no less than the store held when the inputs were read, saw none; inputs judged in the order read. A finished run judged them all |
| `EvalRun.Run.Iteration` | pkg/eval/executor.go:188-213 | One iteration keeps all of that, whether it ends, is cancelled, or its reseed fails; its window starts on the store it was called with, and a cancelled context ends it before anything is done |
| `EvalRun.Run.Seed` | pkg/eval/executor.go:196-202 | The window starts on the store of the call, its reseed is the one the world recorded, the cursors are lengths taken before that reseed, and the fresh inputs are the events from the cursors to the lengths read after it |
| `EvalRun.Run.SnapshotCursors` | pkg/eval/executor.go:243-249 | Each cursor is the length of its stream at some instant of the call |
| `EvalRun.Run.FreshInputsAfter` | pkg/eval/executor.go:261-272 | The events returned are those at the positions from each cursor to the end read, topic by topic |
| `EvalRun.Run.WaitForOutput` | pkg/eval/executor.go:292-326 | A hit is the first unused output with the key past the cursors in the order of the streams, and becomes used; a timeout means that the time is over and the pass that has just ended read every output stream and found none; a context already cancelled ends it at once |
| `EvalRun.Run.Pass` | pkg/eval/executor.go:298-316 | One pass reads the output streams in their declared order, others appending between two reads, and takes the first unused match past the cursors: every match in an earlier stream, or earlier in the stream of the hit, is used; a miss read them all; the stream read last is as it is when the pass ends |
| `EvalRun.Run.ScanStream` | pkg/eval/executor.go:299-315 | The first unused event with the key at or after the cursor, marked used; none otherwise |
| `EvalRun.Run.ScorePair` | pkg/eval/executor.go:220-241 | One sample of this input and iteration is judged unless the context was cancelled, in which case none is |
| `EvalRun.HitKeepsSound` | pkg/eval/executor.go:302-313 | Judging the first unused match of the last pass keeps outputs used once, pairs honest, and nothing passed over but what earlier inputs used |
| `EvalRun.MissKeepsSound` | pkg/eval/executor.go:317-319 | Recording a miss when the last pass read every stream, no earlier than when the inputs were read, and found every match used keeps them too |
| `EvalRun.NothingStale` | pkg/eval/executor.go:192-197 | The sample of an input belongs to the one iteration that read it, and neither the input nor the output it is judged against was in the store when the run began, when any earlier iteration had ended, or when this one began |
| `EvalRun.LaterIterationsReadOn` | pkg/eval/executor.go:192-197 | An output judged in a later iteration lies after everything that the last pass of an earlier iteration's input read of its stream, and so after every output judged there |
| `EvalRun.OneWindow` | pkg/eval/executor.go:188-213 | The inputs of two iterations are disjoint |
| `EvalRun.FirstUnusedIsJudged` | pkg/eval/executor.go:298-316 | Every matching output past the cursor that was in the store recorded when the inputs had been read, and that lies in an earlier stream than the output an input was judged against, or earlier in its stream, was judged with an earlier input |
| `EvalRun.FreshOrdered` | pkg/eval/executor.go:261-272 | The fresh inputs come topic by topic in the order of the topics, and in each in the order of the stream |
| `EvalRun.MissingOnlyWhenUsed` | pkg/eval/executor.go:292-319 | An input is reported missing only if every matching output past the cursor that was in the store recorded when its iteration had read the inputs was judged with an earlier input |
| `EvalRun.FreshDistinctExactly` | pkg/eval/executor.go:261-272 | Reading the fresh inputs never repeats one, for all cursors and lengths, if and only if the consumed topics are distinct |
| `EvalRun.AllFreshDistinct` | pkg/eval/executor.go:188-213 | With distinct topics no input is read twice in a whole run |
| `EvalRun.FreshJudgedOnce` | pkg/eval/executor.go:194-213 | With distinct topics every event between an iteration's cursor and the end it read is judged exactly once in a finished run |
| `EvalRun.ReseededInputsJudgedOnce` | pkg/eval/executor.go:196-213 | In a finished run with distinct topics every input appended between the two ends of any reseed recorded since the run began is judged exactly once |
| `EvalRun.ObserveSample` | pkg/eval/executor.go:224-228 | Observing one more sample takes the executor from the judge calls of the log to those of the longer log |
| `EvalRun.EveryInputJudged` | pkg/eval/executor.go:109-241 | After a finished run the samples and errors reported for an eval exceed those before it by the fresh inputs read, once per judged eval of the name |
| `Scoring.Aggregate.constructor` | pkg/eval/aggregator.go:21-27 | The kind is lower-cased and trimmed, empty meaning avg |
| `Scoring.Aggregate.Add` | pkg/eval/aggregator.go:31-36 | A score is appended, an error is dropped |
| `Scoring.Aggregate.Value` | pkg/eval/aggregator.go:40-75 | The loops compute the named reduction of samples that may be NaN: mean, least, greatest, percentile, or NaN |
| `Scoring.ReduceInRange` | pkg/eval/aggregator.go:40-75 | A reduction that is not NaN lies between the least and the greatest of the samples that are numbers |
| `Scoring.ReduceIsNaN` | pkg/eval/aggregator.go:40-75 | A reduction is NaN exactly on no samples, for an unknown name, for a mean with a NaN sample, for a least or greatest value whose first sample is NaN, and for a percentile whose lower rank is below the number of NaN samples |
| `Scoring.OrderMattersExactly` | pkg/eval/aggregator.go:40-75 | Some permutation of the samples changes the reduction if and only if it is min or max and some but not all samples are NaN |
| `Scoring.KindsByName` | pkg/eval/aggregator.go:44-74 | On numbers avg and mean give the sum over the count, min the least, max the greatest, p50, p95 and p99 those percentiles, and any other name NaN |
| `Scoring.MeansWeigh` | pkg/eval/aggregator.go:45-50 | Two means weigh as much in their common mean as they count |
| `Scoring.MeanOfOne` | pkg/eval/aggregator.go:45-50 | The mean of one number is the number |
| `Scoring.KindIgnoresCaseAndSpace` | pkg/eval/aggregator.go:21-27 | A kind is the same in capitals or small letters and with any white space around it |
| `Scoring.BlankKind` | pkg/eval/aggregator.go:21-27 | White space alone asks for avg |
| `Scoring.ThresholdReadsBack` | pkg/eval/aggregator.go:86-98 | A printed threshold is read back as its own comparison, whatever blanks precede the number; >= is never taken for > |
| `Scoring.ThresholdMeans` | pkg/eval/aggregator.go:82-116 | A number meets a printed threshold exactly when it is as the symbol says: at least, at most, equal, unequal, above or below the number behind it |
| `Scoring.NaNVerdict` | pkg/eval/executor.go:419-440 | An eval whose value is NaN passes if and only if the sample gate is met and its threshold is absent, empty or a well-formed !=; without samples it never passes |
| `Scoring.FinalizeStatus` | pkg/eval/executor.go:419-440 | Pass if and only if there are at least max(1, required) accepted samples and the threshold, if any, is met; exactly when each other status is given |
| `Scoring.PassMeans` | pkg/eval/executor.go:109-137 | A reported eval with a printed threshold and a number as its value passes exactly when it has at least one sample and the minimum asked for, and the number is as the symbol says |
| `Scoring.CallsConserved` | pkg/eval/executor.go:81-104 | Accepted samples plus errors of an eval equal the judge calls made for it |
| `Scoring.JudgedExactly` | pkg/eval/executor.go:72-79 | An eval is among those judged, as often as it is declared, exactly when it has a judge |
| `Scoring.OwnKind` | pkg/eval/executor.go:88-96 | An eval whose name no other eval was called under is reduced by the kind it declares |
| `Scoring.ObserveTallies` | pkg/eval/executor.go:72-79 | Observing one more pair calls every judged eval exactly once more |
| `Scoring.ObservedTallies` | pkg/eval/executor.go:72-79 | Observing n pairs calls every judged eval exactly n times |
| `Scoring.OwnKindExactly` | pkg/eval/executor.go:88-96 | After at least one observed pair every judged eval is reduced by the kind it declares if and only if judged evals of one name declare the same normalised kind |
| `Scoring.SharedNameWrongKind` | pkg/eval/executor.go:88-96 | An eval that declares min behind one of the same name that declares max is reported with the greatest score |
| `Scoring.Executor.Observe` | pkg/eval/executor.go:72-79 | Every judged eval gets exactly one call, in order |
| `Scoring.Executor.ScoreOne` | pkg/eval/executor.go:81-104 | Aggregates and error counts stay those of all calls made so far |
| `Scoring.Executor.Record` | pkg/eval/executor.go:87-101 | Only the named eval's values and error count change, as the score says |
| `Scoring.Executor.AggregateFor` | pkg/eval/executor.go:88-96 | The first use of a name creates an empty aggregate of the kind the eval declares, or avg; all others are untouched |
| `Scoring.Executor.Finalize` | pkg/eval/executor.go:109-137 | One result per judged eval, in order, each in terms of every judge call ever made under its name; the kind is the one declared by the first eval called under the name, or avg if none was |
| `Scoring.Executor.FinalizeOne` | pkg/eval/executor.go:118-134 | Kind, counts, value, requirement, verdict and status of one eval; counts add up to its calls |
| `MemStore.MemStore.constructor` | pkg/events/store.go:38-46 | A cap that is not positive becomes the default |
| `MemStore.MemStore.Append` | pkg/events/store.go:48-61 | After any appends every buffer is the last cap events of its stream in order and the count is their total; no two streams share an array |
| `MemStore.MemStore.Insert` | pkg/events/store.go:51-60 | One buffer gains the event, losing its oldest when full; all others and the frame stay |
| `MemStore.MemStore.Grow` | pkg/events/store.go:52-58 | Evict the oldest in place if full, then append |
| `MemStore.ShiftLeft` | pkg/events/store.go:54-55 | The in-place copy drops the first element |
| `MemStore.Push` | pkg/events/store.go:58 | append: in place while there is room, else into a fresh larger array |
| `MemStore.MemStore.Query` | pkg/events/store.go:63-73 | A fresh array holding exactly the retained events |
| `MemStore.MemStore.QueryRange` | pkg/events/store.go:77-95 | Exactly the retained events within the inclusive bounds, a zero bound being open |
| `MemStore.MemStore.Since` | pkg/events/store.go:98-100 | Exactly the retained events not before the bound |
| `MemStore.MemStore.Len` | pkg/events/store.go:129-133 | The number of events retained over all streams |
| `MemStore.RetainedSnoc` | pkg/events/store.go:48-61 | Appending to the history appends to the last cap events of that stream alone, dropping the oldest when full |
| `MemStore.NewTotal` | pkg/events/store.go:48-61 | An append raises the total by one unless its stream was full |
| `MemStore.AppendAfterQuery` | pkg/events/store.go:48-73 | A slice handed out before an append is untouched by it, in-place eviction included |
| `MemStore.CursorsNeedNoEviction` | pkg/eval/executor.go:243-272 | Reading from a length taken as a cursor gives exactly the events appended since if and only if nothing was appended or no eviction was needed |
| `Window.QueryRangeExact` | pkg/events/window.go:26-31 | A range query through any nest of views is the base stream filtered by the range and every bound |
| `Window.SinceLatest` | pkg/events/window.go:33-38 | Since through a nest of views is Since on the base with the latest bound |
| `Window.SinceExactly` | pkg/events/window.go:33-38 | It honours every bound on every stream if and only if the latest bound is not the zero time while another lies before it |
| `Window.NestedViewsCompose` | pkg/events/window.go:22-38 | Nested views with bounds not before the zero time equal one view with the latest bound |
| `Window.AllFiltered` | pkg/events/window.go:42-51 | All through a nest of views keeps exactly the base events past every bound |
| `Window.Sink` | pkg/events/window.go:61-63 | The inner loop sinks one element to its place, events of one time keeping their order |
| `Window.SortInPlace` | pkg/events/window.go:53-66 | The in-place insertion sort yields a sorted permutation in which events of one time keep their order |
| `Codec.EncodeHeader` | pkg/schemaregistry/codec.go:20-25 | The buffer is the magic byte and the id modulo 2^32 in big-endian |
| `Codec.HeaderRoundTrip` | pkg/schemaregistry/codec.go:20-38 | Parsing a header and a body gives back the body, and the id if and only if 0 <= id < 2^32 |
| `Codec.ParsedIsHeaded` | pkg/schemaregistry/codec.go:30-38 | Whatever is accepted is the header of the id returned, followed by the body returned |
| `Codec.StepKeeps` | pkg/schemaregistry/codec.go:119-168 | Each step of any caller keeps both caches equal to handlers built from the registry's schemas, and every cached pointer within its ttl |
| `Codec.Reachable` | pkg/schemaregistry/codec.go:119-168 | So does every interleaving of callers, clock and registry updates |
| `Codec.EncodeIsFresh` | pkg/schemaregistry/codec.go:119-146 | With a positive ttl the id used by a call that read the clock at now was the subject's latest at some instant after now - ttl, even when a slower caller overwrote the cache |
| `Codec.DecodeUsesTheEncodingSchema` | pkg/schemaregistry/codec.go:103-117 | A decode of the id an encode wrote uses the very handler that encoded |
| `Codec.EncodeDecodeRoundTrip` | pkg/schemaregistry/codec.go:89-117 | Decoding the bytes of an encode in the same run gives the value when the handler round-trips it and 0 <= id < 2^32 |
| `Codec.NoTtlNoFreshness` | pkg/schemaregistry/codec.go:137-139 | Without a positive ttl there is a run using an id that stopped being latest any time ago |
| `Codec.DecodeGoesThrough` | pkg/schemaregistry/codec.go:148-168 | Whatever other callers do between its steps, a decode ends with the handler of the registry's schema exactly when the id is cached at its lookup or the registry answers with a schema that compiles |
| `Codec.EncodeGoesThrough` | pkg/schemaregistry/codec.go:119-146 | The same for an encode: an unexpired entry at its lookup is used as it is, otherwise the latest schema at its fetch, cached under subject and id with an expiry counted from when the call began |
| `Codec.Codec.HandlerForSubject` | pkg/schemaregistry/codec.go:119-146 | An unexpired entry is returned as it is, whatever the registry; otherwise there is one exactly when the registry answers with a latest schema that compiles, with its id, its handler and its expiry, put into both caches; the steps are the protocol's |
| `Codec.Codec.HandlerForID` | pkg/schemaregistry/codec.go:148-168 | There is a handler exactly when the id is cached or the registry answers with a schema that compiles: the cached one, or the schema's, which is cached; the steps are the protocol's |
| `ProtoPath.VarintRoundTrip` | pkg/schemaregistry/proto.go:109-119 | Every 64-bit integer written as a zig-zag varint is read back with its length, whatever follows |
| `ProtoPath.ResolveMessage` | pkg/schemaregistry/proto.go:100-128 | The loop computes the resolution: shorthand, length, entries, descent, each error, and the panic on a length no slice can have |
| `ProtoPath.DescendIndices` | pkg/schemaregistry/proto.go:130-147 | A message is found if and only if the path is nonempty and valid, and it is the one at the path |
| `ProtoPath.PathRoundTrip` | pkg/schemaregistry/proto.go:100-147 | The explicit form of any path resolves to its message and exactly the bytes that follow, is out of range if the path leads nowhere, and panics if it is longer than a slice can be |
| `ProtoPath.NoCollision` | pkg/schemaregistry/proto.go:104-107 | The explicit form of a nonempty path never starts with the shorthand byte |
| `ProtoPath.ShorthandAgrees` | pkg/schemaregistry/proto.go:71-84 | The shorthand byte resolves as the explicit path [0] does, to the first message |
| `ProtoPath.ResolveSound` | pkg/schemaregistry/proto.go:100-128 | From any bytes, a resolved message is at some path of the tree and the tail is a proper suffix of the payload |
| `ProtoPath.ResolvesExactly` | pkg/schemaregistry/proto.go:100-147 | A payload without the shorthand resolves to a message and a tail exactly when it is a length within the bound, as many whole varints that are the path of the message, and the tail |
| `ProtoPath.PanicsExactly` | pkg/schemaregistry/proto.go:109-114 | The reader panics if and only if the payload starts with a well-formed varint whose first byte is odd or whose value is more than a slice can hold |
| `ProtoPath.EveryBadLengthPanics` | pkg/schemaregistry/proto.go:109-114 | A payload that starts with a nonzero length panics the reader if and only if no slice can have that length |
| `Worker.Loop.CancelAssignmentsNotIn` | pkg/worker/loop.go:147-156 | Exactly the unwanted entries are cancelled and removed, in whatever order the map is walked |
| `Worker.Loop.CancelAllAssignments` | pkg/worker/loop.go:158-165 | Every entry is cancelled and the map emptied |
| `Worker.StepKeepsSlots` | pkg/worker/loop.go:123-143 | Each step keeps tokens equal to goroutines holding one and within the bound |
| `Worker.BoundedConcurrency` | pkg/worker/loop.go:110-145 | In every interleaving no more handlers run than MaxConcurrentRuns, and tokens are never lost |
| `Worker.MapAlwaysOk` | pkg/worker/loop.go:85-165 | In every interleaving each map entry is an uncancelled goroutine of that scenario whose delete is pending |
| `Worker.StepCoversExactly` | pkg/worker/loop.go:126-138 | One step keeps every uncancelled goroutine cancellable through the map if and only if it is not a deferred delete of another goroutine's entry |
| `Worker.RunCoversExactly` | pkg/worker/loop.go:85-165 | Through a whole run every goroutine stays cancellable if and only if every deferred delete found its own entry or none |
| `Worker.OneLivePerScenario` | pkg/worker/loop.go:103-121 | While every goroutine is cancellable no scenario has two uncancelled ones |
| `Worker.TickCancelsExactly` | pkg/worker/loop.go:85-101 | The end of a tick cancels every goroutine of an unwanted scenario if and only if the uncancelled ones were in the map |
| `Worker.TickCancelsUnwanted` | pkg/worker/loop.go:85-101 | So in a run with clean deletes every successful tick cancels them all |
| `Worker.CancelsAsTheLoopDoes` | pkg/worker/loop.go:147-165 | The step that ends a tick, and the one that stops the worker, do to the map and the contexts what the loop's methods do |
| `Worker.ServesInOrder` | pkg/worker/loop.go:93-99 | Along any run a tick deals with its assignments in order, losing none: each is found in the map, or its fetch fails, or it is dispatched as one new waiting goroutine that the map can cancel |
| `Worker.TickServesAll` | pkg/worker/loop.go:85-101 | A tick that ends has dealt with exactly the assignments of its heartbeat |
| `Worker.TickCanEnd` | pkg/worker/loop.go:85-101 | From anywhere in a tick there are steps that end it, whether fetches succeed or fail |
| `Worker.TickSparesWanted` | pkg/worker/loop.go:147-156 | A tick cancels no goroutine of a scenario that its heartbeat wants |
| `Worker.TickObeysHeartbeat` | pkg/worker/loop.go:85-101 | From its heartbeat on, whatever goroutines do, a tick cancels none of an assigned scenario and, when the uncancelled ones are in the map, all others |
| `Worker.EntryLeavesOnly` | pkg/worker/loop.go:110-165 | An entry leaves the map only when it is not wanted at the end of a tick, when the worker stops, or by the deferred delete of a goroutine of its scenario |
| `Worker.WaitEndsExactly` | pkg/worker/loop.go:126-134 | A waiting goroutine gets a slot exactly when one is free, and gives up exactly when it is cancelled |
| `Worker.RunsToItsEnd` | pkg/worker/loop.go:126-143 | A goroutine with a slot ends with its entry deleted and its slot given back, whatever others do between its steps |
| `Worker.StepUniqueExactly` | pkg/worker/loop.go:110-121 | One step keeps at most one goroutine per scenario with its delete pending if and only if it does not dispatch over a pending one |
| `Worker.RunUniqueExactly` | pkg/worker/loop.go:85-145 | The same for whole runs |
| `Worker.NoOverlapIsClean` | pkg/worker/loop.go:110-145 | Without overlapping dispatches every deferred delete is clean |
| `Worker.LateDeleteOrphans` | pkg/worker/loop.go:134-138 | For any bound on the handlers, a run in which a late deferred delete removes a newer goroutine entry, so that a tick wanting nothing leaves it to run its handler uncancelled |
| `ScanJson.ScanJsonObjects` | pkg/eval/anthropic.go:173-214 | On any text the results are disjoint substrings in order, each opening with a brace whose depth outside strings first reaches zero at its last byte |
| `ScanJson.SpansAreBalanced` | pkg/eval/anthropic.go:179-212 | The invariant behind it, at every byte of any text |
| `ScanJson.ItemKeeps` | pkg/eval/anthropic.go:180-211 | Inside an object any well-formed text, string or nested object leaves the scanner where it was |
| `ScanJson.ObjectEmits` | pkg/eval/anthropic.go:194-211 | Outside an object a well-formed one is emitted whole |
| `ScanJson.ScanInvertsPrinting` | pkg/eval/anthropic.go:173-214 | From objects in prose with closed string literals, whatever the text leaves open at its end, exactly the closed objects come back, in order |
| `ScanJson.EveryTextIsReply` | pkg/eval/anthropic.go:173-214 | Every text is such a reply: objects in prose, then prose, then a string or an object left open, or nothing |
| `ScanJson.FoundExactly` | pkg/eval/anthropic.go:180-211 | A well-formed object is found after a text if and only if the text leaves no string and no object open; an unpaired quote hides it |
| `ScanJson.SpansBeginOutside` | pkg/eval/anthropic.go:194-209 | On any text every object found begins where the scanner is outside strings and objects |
| `ScanJson.ParseVerdict` | pkg/eval/anthropic.go:139-168 | The loop returns the first verdict, else the first error, else none |
| `ScanJson.ChooseFirst` | pkg/eval/anthropic.go:141-163 | The first candidate that decodes as a verdict wins, whatever errors precede it |
| `ScanJson.ChooseError` | pkg/eval/anthropic.go:141-163 | Without a verdict among the candidates the result is the first decode error, or nothing when there is none |
| `ScanJson.VerdictOfReply` | pkg/eval/anthropic.go:139-214 | In a printed reply the verdict is the first object that decodes as one |
| `ScanJson.ErrorOfReply` | pkg/eval/anthropic.go:139-214 | A printed reply without a verdict object gives the first decode error of its objects, or nothing when there is none |
| `Sse.SSEStream.Next` | pkg/httpc/sse.go:75-119 | One call returns the next event of the body and leaves the rest, or reports the end, or cancellation with nothing read |
| `Sse.SSEStream.ReadString` | pkg/httpc/sse.go:82 | Through the next newline, or everything left without one |
| `Sse.LineRead` | pkg/httpc/sse.go:91-100 | A printed line, ended either way, is read back as its text; a blank one closes a frame with data |
| `Sse.LineAbsorbed` | pkg/httpc/sse.go:101-117 | A printed field sets what it says, with or without a blank after the colon; anything else changes nothing |
| `Sse.DrainInvertsFraming` | pkg/httpc/sse.go:75-134 | Repeated calls on printed frames, an unclosed frame and a line cut short give exactly one event per frame with data, frames without data leaving their name and id behind |
| `Sse.FramesStandAloneExactly` | pkg/httpc/sse.go:92-100 | The events are those of the frames read one by one if and only if no frame without data leaves a name or id to an event that does not set its own |
| `Sse.FramesRoundTrip` | pkg/httpc/sse.go:75-134 | Frames with a data line each come back one by one, then the end: each event has the last name and the last id its frame sets, and its data, cut at the newlines, is the frame's data lines |
| `Sse.CutInvertsJoin` | pkg/httpc/sse.go:127-128 | Joined data lines, cut at the newlines, are the data lines |
| `Sse.MeaningIs` | pkg/httpc/sse.go:101-117 | Reading a frame adds its data lines to those gathered, and the last name and the last id it sets replace what was known |
| `Sse.NameLeaks` | pkg/httpc/sse.go:92-97 | A named frame without data gives its name to the next unnamed event |
| `Sse.UnclosedExactly` | pkg/httpc/sse.go:83-90 | An unclosed last frame is discarded if and only if it has no data |
| `Sse.RunningIdsExactly` | pkg/httpc/sse.go:75-119 | The ids delivered are the last event ids of the standard if and only if every event sets its own, comes before any nonempty id, or is the first since the last id was set |
| `Sse.IdForgotten` | pkg/httpc/sse.go:75-119 | An event without an id after one with an id is delivered without it |
| `SplitArgs.SplitArgs` | pkg/data/generator.go:150-181 | The byte loop computes the split of the trimmed, possibly bracketed, text |
| `SplitArgs.EscapeRoundTrip` | pkg/data/generator.go:160-163 | Inside quotes the escaped form of any text is read back as the text |
| `SplitArgs.QuoteRoundTrip` | pkg/data/generator.go:160-170 | A quoted argument is read without its quotes, commas and quotes inside it kept |
| `SplitArgs.SplitInvertsPrinting` | pkg/data/generator.go:150-181 | Any nonempty argument list, escaped, quoted and joined with commas, splits into the arguments with outer white space trimmed |
| `SplitArgs.ArrayFormAgrees` | pkg/data/generator.go:187-196 | The same list inside brackets splits the same way |
| `SplitArgs.SplitIsInverse` | pkg/data/generator.go:150-181 | A list of trimmed arguments comes back unchanged |
| `SplitArgs.SplitExactly` | pkg/data/generator.go:150-181 | For every text: it is tokens, plain characters, commas and quotes with escapes, and a tail; splitting gives nothing when it is blank, an error exactly when its last quote is never closed, and otherwise the trimmed arguments between the commas |
| `SplitArgs.ArrayLiteralExactly` | pkg/data/generator.go:187-196 | Brackets are dropped exactly when what is inside them, but for white space, begins and ends with a quote |
| `StreamLoop.Step.ReadLoop` | pkg/orchestrator/websocket.go:65-134 | The loop of the WebSocket step, and of the SSE step with the same lines, ends with the outcome, clock, log and previous record of the run below, whether or not reads honour their context |
| `StreamLoop.RecordsPrefix` | pkg/orchestrator/websocket.go:65-134 | The log gains the messages taken, in order; none before the last matches, breaks a rule or is the Count-th, and the outcome is what the last one says if it does |
| `StreamLoop.TakesExactly` | pkg/orchestrator/websocket.go:65-132 | Whatever the pauses, a message is taken if and only if its read begins in time, at an instant computed from the messages and capped pauses before it, and gets it, and every message before it was taken and did not end the step |
| `StreamLoop.OutcomeExactly` | pkg/orchestrator/websocket.go:65-132 | Every outcome has its reason: the last message taken, a malformed pause, or what the next read met at its known beginning: cancellation, the deadline, a closed or failed read, or silence for ever |
| `StreamLoop.InstantsRecorded` | pkg/orchestrator/websocket.go:89-95 | Every message is recorded with the instant at which its read brought it |
| `StreamLoop.PassesExactly` | pkg/orchestrator/sse.go:50-118 | A step with rules passes if and only if its last message matched or was the Count-th and broke no rule; silence never passes it |
| `StreamLoop.ClockBounded` | pkg/orchestrator/websocket.go:114-132 | The step ends no later than its deadline plus a late read, whatever the pauses, unless reads ignore their context and one arrival carries the clock to its own time |
| `StreamLoop.PausesKept` | pkg/orchestrator/websocket.go:114-132 | Between two messages the step pauses for the declared time or, if less, the time left, after every so many messages and not otherwise, and then reads the next when it comes |
| `StreamLoop.CountsExactly` | pkg/orchestrator/websocket.go:108-112 | A step takes no more messages than its count and, unless the rules decide, ends on its count exactly then |
| `StreamLoop.WithoutRules` | pkg/orchestrator/websocket.go:66-87 | A step without rules is not failed by its deadline and never by a rule |
| `StreamLoop.CancelNoticed` | pkg/orchestrator/websocket.go:66-132 | A cancellation ends the step when it comes, at once if it came before, or by a late read |
| `StreamLoop.RecordsInTime` | pkg/orchestrator/websocket.go:75-95 | Records are in time order and before the limit, all but the last even when reads ignore their context |
| `StreamLoop.OutcomesTrue` | pkg/orchestrator/websocket.go:66-87 | A timeout is reported only past the deadline, a cancellation only once cancelled, a failed read only when neither |
| `StreamLoop.LateMatchPasses` | pkg/orchestrator/sse.go:60-95 | A matching message whose read began in time, after any messages that do not end the step, is the one the step passes on if and only if it comes before the limit or reads ignore their context, as the SSE session does |
| `StreamLoop.LateMatchRecorded` | pkg/orchestrator/sse.go:60-95 | A match past the limit is recorded at its own time |
| `StreamLoop.SlowModeOnlyTruncates` | pkg/orchestrator/websocket.go:114-132 | Without its pauses a step takes at least the same messages, and if it ended at a message it ends at the same one the same way |
| `StreamLoop.UnpausedTakesExactly` | pkg/orchestrator/websocket.go:65-112 | Without pauses a message is taken if and only if it and all before it were there in time and none before it ended the step; the last may be late when reads ignore their context |
| `Consume.Consumer.OnRecord` | pkg/orchestrator/run.go:293-335 | A record of another topic changes nothing; one of the topic is appended and counted, the answer is nil exactly on a miss without an expiring pause, and the previous record changes exactly on a match |
| `Consume.Consumer.RunConsume` | pkg/orchestrator/run.go:293-351 | Feeding records until the callback answers with an error, then the verdict on the error that comes back |
| `Consume.RecordsPrefix` | pkg/orchestrator/run.go:293-335 | The step records its topic's records up to the first that matches, breaks a rule or whose pause outlasts the context, in order, or all of them if none does, and answers as that one says; other topics leave no trace |
| `Consume.PassesExactly` | pkg/orchestrator/run.go:337-351 | It passes if and only if its last record matched, or no record of the topic ends it and the client's loop ended without an error |
| `Consume.FirstRecordIsEnough` | pkg/orchestrator/run.go:320-325 | Without rules the first record of the topic passes the step, and is all it records |
| `ExpandEnv.ExpandHostEnv` | cmd/edt/run.go:241-263 | The index loop computes the expansion of the text |
| `ExpandEnv.WriteAt` | cmd/edt/run.go:244-260 | What one round writes and where the next begins |
| `ExpandEnv.IsEnvName` | cmd/edt/run.go:265-279 | True exactly for names of capitals, underscores and, not first, digits |
| `ExpandEnv.EveryTextIsPieces` | cmd/edt/run.go:241-263 | Every text is a list of literal characters and braced references, and a tail that never closes |
| `ExpandEnv.ExpandsPieces` | cmd/edt/run.go:241-263 | The expansion of such a text is that of its pieces: environment-style references replaced, all else as it was |
| `ExpandEnv.UntouchedExactly` | cmd/edt/run.go:233-263 | A text comes through unchanged in every environment if and only if no braced reference in it has an environment-style name |

## Left out

- Kafka, HTTP, gRPC and WebSocket clients, the registry client, Postgres, the Anthropic call and metrics: arbitrary input sequences, answers and failures stand for them.
- CEL compilation and evaluation: match rules and checks are arbitrary functions of a payload.
- Avro and JSON Schema handlers and Protobuf marshalling: an arbitrary pair of functions per handler; the codec's round trip is conditional on theirs.
- JSON decoding of judge replies and SSE data, and number parsing: function parameters, or the raw text they are applied to.
- Floating-point rounding and infinities: samples, scores and thresholds are reals or NaN.
- Unicode white space and case: the ASCII part of both. Text is a sequence of characters and is not decoded from bytes.
- The wall clock: integer virtual clocks that others advance.
- `fnRate`, `asMap`, `untrustedBlob`, `fingerprint`, `parseMinSamples`, `coerceScore` and `RunInputs`: single expressions or a shorter form of the loop that is modelled. The minimum sample count is a function parameter.
- Codec.HandlerForSubject: the method form is for a caller alone; interleaved callers are the transition system of the same module, whose steps it is proved to take.
- ProtoPath.ResolveMessage: the largest capacity of a slice is a parameter; running out of memory below it is not modelled.
- EvalRun.Run.RunIterations: streams only grow, so a stream that reaches its retention cap during a run is outside it; `MemStore.CursorsNeedNoEviction` says what happens then. The reseed callback (`EvalRun.World.Reseed`) is an arbitrary interference that may fail, recorded with the stores at its two ends.
- Worker.BoundedConcurrency: a loop without `HandleAssignment` never dispatches and is not modelled; registration and the default bound of 16 are not either.
- StreamLoop.Step.ReadLoop: what a session does in a read is assumed (`StreamLoop.Step.Read`): with a context that it honours, or one that it looks at on entry only. What the HTTP library does to the body of a request whose own context has ended is not part of this model. Opening the session, the initial frame sent and compiling the rules come before the loop and are not modelled; evaluating a rule takes no time.
- EvalRun.Run.ScorePair: the judge's verdicts are noted with the sample; the executor object that observes them is a separate one, tied to the log by `EvalRun.ObserveSample`.
- Consume.Consumer.RunConsume: records are decoded beforehand; whether the context ends during a pause is a parameter.
- Window.SortInPlace: views are modelled on values over an immutable snapshot of the base store; appends through a view are appends to the base.
- `MemStore.All`, `AllSorted` and `Streams`: copying and library sorting of the same buffers. The mutex of the store is not modelled: each method is atomic.
- Faker helpers, generators and their seeding, report rendering, control-plane handlers, MCP, auth, the web UI and the TypeScript builder: no part of a verdict.
