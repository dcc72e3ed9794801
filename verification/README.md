# din: a verified model

din takes vehicle events over HTTP, keeps them in a JetStream write-ahead log, batches them in a
sink, commits the batches to a DuckLake table, and maintains that table. This project models the
protocols, loops and state machines of that path in Dafny and proves what they guarantee.
`dafny verify dfyconfig.toml` checks all of it.

The writer, the catalog, the broker, the clock, the hash and the scheduler are arbitrary: they are
function parameters, script parameters or unconstrained steps, so each theorem holds for whatever
they do.

| file | what it models |
|---|---|
| `Isolate.dfy` | the bisection that re-drives a bundle that failed to commit |
| `Sink.dfy` | the Run goroutine, its workers, the channels and the shared byte counter, as an interleaved step system with crashes |
| `Flush.dfy` | the proof that a worker in any interleaving performs exactly the recursive bisection and acks exactly what it stored |
| `Backpressure.dfy` | the proof that the blocking backpressure call always returns |
| `Signals.dfy`, `Prune.dfy` | sorting, pruning and grouping decoded signals in place |
| `Coordinates.dfy`, `Grouping.dfy` | the index-based coordinate state machine, and the greedy grouping it refines |
| `MergeRamp.dfy` | the per-call file cap of the maintenance merge, within and across cycles |
| `Expiry.dfy` | consumer cursors, the frozen expiry cutoff, and runs of the maintenance cycle beside commits |
| `Limiter.dfy` | the sharded, evicting rate-limiter cache against an unbounded reference |
| `Writer.dfy` | one bundle, one transaction, retried on commit conflicts |
| `SqlText.dfy` | SQL quoting, a literal reader, and the scrubber |
| `Backfill.dfy` | registering files in batches, with failures and reruns |
| `Options.dfy` | a value that may be absent |
| `Routing.dfy`, `Streams.dfy` | subjects, filters, partition streams and the stale-layout guard |

Where the source changes state in place the model does too: a class or an array with a method whose
`ensures` equates the new state with a value-level function of the old one (`Bisect`, `Run`,
`Passes`, `Retried`, `BackfillRun`, `Scrub`, ...). The theorems are about those functions.

## Findings

Where code and documentation disagree the model follows the code.

- The bisection does not always isolate a poison row: a row in the first ⌊n/128⌋ of a bundle makes
  the pass give up after eight calls. `Isolate.OnePoisonRow` gives the exact boundary.
- The comment on eviction (internal/server/middleware.go:182-186) says that dropping a hot bucket
  merely gives its remote a fresh burst. In total that is so: on every run, whatever is dropped, every
  remote is granted at least as many requests as by an unbounded limiter
  (`Limiter.DroppingNeverCostsInTotal`). Request by request it is not: a later request that would have
  been granted can be refused (`Limiter.DroppingIsNotAlwaysKinder`), and this is impossible if and only
  if the bucket is full (`Limiter.DroppingIsKindExactly`).
- din's own README.md says expiry never drops a snapshot at or past a live consumer's cursor. The code
  protects only what lies strictly past it (`Expiry.CursorSnapshotCanExpire`);
  `Expiry.CursorSnapshotSurvives` says exactly when the snapshot at the cursor survives, and
  `Expiry.ExpiredExactly` exactly what any expire step removes.
- What lies strictly past the cursor is protected under every configuration that passes validation
  (`Expiry.ValidatedExpirySafe`). A maintainer built with an unvalidated configuration, negative
  retention and positive staleness, can lose it (`Expiry.UnsoundLoses`).
- The count of snapshots a stale consumer is about to lose is one too high exactly when the current
  snapshot is past its cursor and older than the cutoff (`Expiry.ReportExactly`,
  `Expiry.ReportCanOverstate`).
- A larger memory limit can lower the merge ceiling in exactly one way: by becoming known
  (`MergeRamp.CeilingMonotone`).
- "No second out-of-memory cycle" is false (`MergeRamp.WastedAgainIsPossible`). What holds is that
  some cycle merges between any two wasted ones (`MergeRamp.WastedCyclesAreSeparated`), and
  `MergeRamp.WastedAgainExactly` says exactly when a later cycle can be wasted, from the cap it starts
  with (`MergeRamp.SafeStartExactly`) and from what the last merging cycle and the cycles since left
  of the ramp (`MergeRamp.MergeLeavesHighExactly`, `MergeRamp.HighUntilTouched`).
- A zero timestamp disables the 500 ms gap check (`Grouping.ZeroTimestampSkipsGapCheck`);
  `Grouping.WindowExactly` says for which inputs the window holds.
- The doc comment on stream provisioning speaks of refusing any different layout; growth from two or
  more partitions passes the guard, as the rescale runbook notes (`Streams.GuardExactly`).

## Model

| member | source | states |
|---|---|---|
| Isolate.IsolateState.IsolateRange | internal/sink/sink.go:692-741 | the recursive method, updating the isolate state in place for any writer and any cancellation, computes `Bisect` |
| Isolate.IsolateBundle | internal/sink/sink.go:669-676 | a pass starts from a fresh state and covers the whole bundle |
| Isolate.PassDichotomy | internal/sink/sink.go:692-741 | without cancellation, a pass either commits and acks nothing in at most 8 calls, or every row is either in exactly one committed range and acked, or failed alone; committed ranges are disjoint and increasing and acks are exactly their rows |
| Isolate.CancelledPassIsSafe | internal/sink/sink.go:692-717 | with any cancellation, acks are exactly the committed rows, and no row is both acked and failed alone |
| Isolate.TermNeedsEvidence | internal/sink/sink.go:718-737 | a terminated row failed alone and was not acked, and one of the calls made was on that row alone and was answered with the poison tag, or failed otherwise after at least 10 deliveries and after an earlier call of the pass was stored |
| Isolate.OutageTermsNothing | internal/sink/sink.go:718-737 | if nothing is tagged and nothing commits, nothing is terminated, however often rows were redelivered |
| Isolate.AttemptsAtMostTwicePerRow | internal/sink/sink.go:692-741 | never more than 2n−1 writer calls, for any writer |
| Isolate.PoisonCost | internal/sink/sink.go:658-741 | with k poison rows never more than 1 + 2k⌈log2 n⌉ calls |
| Isolate.CeilLog2IsLeast | internal/sink/sink.go:658-662 | the logarithm in that bound is the least exponent whose power of two reaches n |
| Isolate.OnePoisonRow | internal/sink/sink.go:696-741 | with one deterministic poison row at index p of n, every other row commits if and only if p ≥ ⌊n/128⌋; then the row is terminated exactly when tagged, or untagged, redelivered often enough and not leftmost; otherwise nothing commits in eight calls, and the row is tried alone exactly if n < 256 and then terminated exactly if tagged |
| Sink.RunKeepsAccounts | internal/sink/sink.go:446-582 | every step of Run keeps the accounting exact; only receiving a decodable message adds resident bytes, and by exactly its footprint |
| Sink.WorkKeepsAccounts | internal/sink/sink.go:584-648 | every worker step keeps the accounting exact and adds no resident bytes |
| Sink.ExactAccounting | internal/sink/sink.go:522-548 | in every reachable state inflight is the footprint of queued and flushing jobs minus the one charge enqueue has not added yet; it is negative only in that window; queue and token channel stay within capacity |
| Sink.NegativeIsReachable | internal/sink/sink.go:532-543 | a run in which inflight is negative |
| Sink.MemoryBound | internal/sink/sink.go:556-582 | before shutdown, buffer plus unfinished jobs stay below MaxBufferedBytes plus one message, and below MaxBufferedBytes whenever Run is back in its loop |
| Sink.NoLostWakeUp | internal/sink/sink.go:556-582 | whenever Run waits there is a token, or a job queued, being flushed, or subtracted but not yet signalled |
| Sink.WorkShrinks | internal/sink/sink.go:584-648 | every worker step uses up a finite measure, whatever the writer answers |
| Sink.RestMeansIdle | internal/sink/sink.go:584-648 | workers come to rest only when no job is queued, flushing or unsignalled |
| Sink.WaitEnds | internal/sink/sink.go:572-582 | from any waiting state the workers take only finitely many steps, and when they rest Run can wake up |
| Backpressure.BackpressureReturns | internal/sink/sink.go:556-582 | from any reachable state inside the backpressure call, steps of the call and of the workers, in any order and with any writer, are finite in number, and when none is left Run is back in its loop |
| Backpressure.StepLowersEffort | internal/sink/sink.go:556-582 | every such step lowers one measure over worker work, tokens, the buffer and Run's control point |
| Sink.AtLeastOnce | internal/sink/sink.go:597-617 | over whole runs with failures, redelivery, drain timeouts and crashes: an acked message is in a stored bundle; a terminated one was undecodable, or failed alone with the poison tag, or failed alone after 10 deliveries with a sibling range of the same flush stored earlier |
| Sink.Durable | internal/sink/sink.go:301-372 | acks, terminations and stored bundles are never undone, not even by a crash |
| Sink.StepKeepsInv | internal/sink/sink.go:301-741 | accounting, memory bound, wake-up and delivery invariants are kept together by every step of every goroutine |
| Flush.AdvanceUnwinds | internal/sink/sink.go:692-741 | one entry of the call stack leaves the final result of the recursion unchanged |
| Flush.RunIsFaithful | internal/sink/sink.go:584-617 | in every reachable state each busy worker is at a point of the recursive bisection, and the log holds exactly what its flush did |
| Flush.FlushSettles | internal/sink/sink.go:597-617 | in any interleaving, a finished flush is the recursion's result: the bundles it stored are disjoint increasing ranges of its job, it called the writer at most 2n times, and unless its context was done it stored nothing within 9 calls or settled every message exactly one way |
| Flush.FinishedJobIsAcked | internal/sink/sink.go:703-716 | when a worker finishes a job it has sent the ack of every row of every range it stored, in order and once, and no other |
| Signals.SortSignals | internal/decodestream/location.go:95-97 | the in-place sort yields some sorted permutation, nothing more |
| Signals.SortIsIdentity | internal/decodestream/location.go:95-97 | a strictly sorted sequence has no other sorted permutation |
| Signals.DropPruned | internal/decodestream/decodestream.go:479-489 | the in-place filter leaves exactly the unmarked entries, in order |
| Prune.PruneFutureAndDuplicateSignals | internal/decodestream/decodestream.go:492-511 | the in-place pass leaves exactly the survivors of the sorted input and reports one error per future signal |
| Prune.SurvivorsAccepted | internal/decodestream/decodestream.go:497-508 | each survivor is an input entry that is last of its key's run, not in the future and not named like the marker |
| Prune.OneSurvivorPerKey | internal/decodestream/decodestream.go:497-515 | each key whose last entry is acceptable has exactly that survivor, every other key has none, and the output is strictly sorted |
| Prune.SecondSortIsIdentity | internal/decodestream/location.go:91-97 | the coordinate store's own sort cannot change pruned output |
| Prune.GroupSignalsByName | internal/decodestream/decodestream.go:468-474 | each name maps to exactly its signals, in order, and no other name has an entry |
| Coordinates.CoordinateStore.TryCreateLocation | internal/decodestream/location.go:158-227 | on indices and in-place renames it closes the open triple: at most one location or one error, all parts consumed, nothing else touched |
| Coordinates.CoordinateStore.ProcessSignal | internal/decodestream/location.go:115-149 | one signal advances the machine by one `Feed` |
| Coordinates.CoordinateStore.ProcessSignals | internal/decodestream/location.go:86-113 | output is the untouched other signals of the sorted input followed by the created ones, with the machine's locations and errors |
| Grouping.OnlyLocationsMatter | internal/decodestream/location.go:115-149 | removing all other signals from an input in time order changes neither locations nor errors |
| Grouping.MachineIsGreedyGrouping | internal/decodestream/location.go:86-227 | on any sorted input the machine creates and reports exactly what the greedy groups of its location signals do |
| Grouping.GroupsPartition | internal/decodestream/location.go:115-149 | the groups are non-empty, each fits, and together they are the location signals in order |
| Grouping.CoordinatesConserved | internal/decodestream/location.go:158-227 | latitudes plus longitudes equal twice the created plus twice the invalid pairs plus the unpaired, and errors are the latter two |
| Grouping.OthersExactly | internal/decodestream/location.go:106-113 | of the input exactly the signals that are neither latitude, longitude, HDOP nor named like the marker are kept, each as often as it occurs |
| Grouping.OthersSorted | internal/decodestream/location.go:106-113 | what is kept stays in order |
| Grouping.CreatedIsSound | internal/decodestream/location.go:158-227 | every created location is valid, carries the header and identifiers of its latitude, comes from a latitude, a longitude and the HDOP of a group of its own, and these lie within 500 ms of its timestamp unless the group starts at the zero time |
| Grouping.CreatedOrigin | internal/decodestream/location.go:212-222 | different created locations come from different groups |
| Grouping.WindowExactly | internal/decodestream/location.go:118-148 | for every sorted input, the parts of all created locations lie within 500 ms of their location's time if and only if no group that makes a location starts at the zero time with a first real time of 500 ms or more |
| Grouping.WindowWithoutZeroTimes | internal/decodestream/location.go:118-148 | so they do whenever no location signal carries the zero time |
| Grouping.ZeroTimestampSkipsGapCheck | internal/decodestream/location.go:118-148 | the machine makes one location of a latitude at the zero time and a longitude any 500 ms or more later |
| MergeRamp.Maintainer.RunBoundedMerge | internal/lake/maintain.go:544-613 | the loop over sub-calls, updating the ramp in place, computes `MergePass` |
| MergeRamp.CapsInRange | internal/lake/maintain.go:563-611 | in a pass from any ramp within the ceiling, every cap is at least 1 and at most the ceiling, and so is the ramp left behind |
| MergeRamp.EveryCapInRange | internal/lake/maintain.go:544-637 | across all cycles of a process, whatever the sub-calls answer, every cap is in 1..1000 and at most its cycle's ceiling, and with a derived ceiling it is 1 or fits half the memory limit |
| MergeRamp.DerivedCapFits | internal/lake/maintain.go:622-637 | with a derived ceiling every cap is in 1..1000 and is 1 or fits half the memory limit |
| MergeRamp.CeilingMonotone | internal/lake/maintain.go:622-637 | a larger limit never lowers the ceiling, if and only if it did not just become known with a derived value below the fallback |
| MergeRamp.AtMostFiveWasted | internal/lake/maintain.go:184-191 | under any fixed memory threshold and any ceilings, a fresh process wastes at most five cycles before the first merge |
| MergeRamp.FiveCanBeWasted | internal/lake/maintain.go:184-194 | five is reached |
| MergeRamp.RampAfterProgress | internal/lake/maintain.go:608-611 | after the first merge the ramp never exceeds twice the threshold at a cycle boundary |
| MergeRamp.WastedCyclesAreSeparated | internal/lake/maintain.go:583-611 | after the first merge, some cycle merges between any two wasted ones |
| MergeRamp.SafeStartExactly | internal/lake/maintain.go:544-598 | under a memory threshold no answers whatever waste a cycle if and only if the cap it starts with, the ramp within the ceiling, is within the threshold |
| MergeRamp.MergeLeavesHighExactly | internal/lake/maintain.go:583-611 | a merging pass leaves the ramp above the threshold if and only if it did not run out of memory in the end and twice its last merged cap, within the ceiling, is above |
| MergeRamp.HighUntilTouched | internal/lake/maintain.go:544-611 | with q the last merging cycle before j, the ramp before j is above the threshold if and only if q left it above and no cycle since was wasted or had a ceiling within the threshold |
| MergeRamp.WastedAgainExactly | internal/lake/maintain.go:544-611 | after the first merge, exactly which histories and ceilings let a cycle run out of memory without merging |
| MergeRamp.WastedAgainIsPossible | internal/lake/maintain.go:602-611 | two cycles, of which the first merges and the second is wasted |
| Expiry.ProgressTable.RecordConsumerProgress | internal/lake/consumer.go:33-65 | one transaction: on success the consumer's rows are replaced by the new one, on any failure nothing changes |
| Expiry.RecordSetsCursor | internal/lake/consumer.go:26-65 | recording sets the consumer's cursor whatever rows it had, and nobody else's |
| Expiry.ConsumerFloor | internal/lake/consumer.go:73-83 | the least cursor among live rows, or none if no row is live |
| Expiry.FirstUnconsumed | internal/lake/maintain.go:773-779 | the earliest time among snapshots past the cursor, or none |
| Expiry.ExpireCutoff | internal/lake/maintain.go:755-786 | never past the retention horizon nor any snapshot a live consumer has not read, and earlier than the horizon only by being the time of such a snapshot |
| Expiry.StepKeepsCutoffSafe | internal/lake/maintain.go:395-401 | commits, cursor updates and clock ticks between freezing and expiring keep the cutoff safe |
| Expiry.ExpirySafe | internal/lake/maintain.go:447-483 | in every run, a snapshot that expiry removes is older than retention and, unless retention is negative and staleness positive, consumed by every consumer live when the floor was read |
| Expiry.ExpiredExactly | internal/lake/maintain.go:755-786 | in every run an expire step removes a snapshot if and only if it is not current, was older than retention when the cutoff was frozen, and is older than everything a live consumer had not read then |
| Expiry.ValidatedIsSound | internal/config/config.go:389-395 | settings that pass validation, after defaults and truncation to seconds, have non-negative retention or no live rows |
| Expiry.ValidatedExpirySafe | internal/config/config.go:385-395 | with validated settings, every snapshot that expiry removes is older than retention and consumed by every consumer live when the floor was read |
| Expiry.UnsoundLoses | internal/lake/maintain.go:755-770 | for every negative retention with positive staleness, which validation refuses, a run that removes a snapshot a live consumer has not read |
| Expiry.CursorSnapshotCanExpire | internal/lake/maintain.go:773-786 | a run that removes the snapshot at a live consumer's cursor |
| Expiry.CursorSnapshotSurvives | internal/lake/maintain.go:773-786 | the snapshot at a live cursor survives an expire step if and only if it is current, was within retention at freezing, or something unread by a live consumer then was no younger |
| Expiry.ReliableConsumerLosesNothing | internal/lake/maintain.go:790-812 | through any number of cycles, a consumer live at each floor read whose cursor never goes back keeps every snapshot past its cursor |
| Expiry.ValidatedConsumerLosesNothing | internal/config/config.go:385-395 | with validated settings that needs no condition on retention |
| Expiry.UnconsumedExpiringCount | internal/lake/consumer.go:125-135 | counts the snapshots past the cursor and older than the cutoff |
| Expiry.ReportVersusLoss | internal/lake/consumer.go:119-135 | that count is the consumer's backlog before expiring minus its backlog after, plus one where the current snapshot is past the cursor and older than the cutoff |
| Expiry.ReportExactly | internal/lake/consumer.go:119-135 | in every run the count for an expire step's cutoff equals what the step takes from the consumer if and only if the current snapshot is consumed or not older than the cutoff |
| Expiry.ReportCanOverstate | internal/lake/consumer.go:125-135 | in every configuration, a run whose expire step removes nothing while a loss of one is reported for its cutoff |
| Limiter.EvictLocked | internal/server/middleware.go:187-205 | leaves exactly the buckets that are not full if that makes room, and otherwise drops a tenth of a shard of those, whichever they are |
| Limiter.RemoteLimiter.Allow | internal/server/middleware.go:167-180 | one request on the sharded maps is a step of the relation `Allowed` and keeps every shard within bounds |
| Limiter.RequestAgrees | internal/server/middleware.go:167-205 | unless the arbitrary-drop branch is taken, a request is answered as by the unbounded limiter and every remote still sees the same level |
| Limiter.RunAgrees | internal/server/middleware.go:167-205 | on every request sequence without an arbitrary drop, all decisions equal those of an unbounded per-key token bucket |
| Limiter.RunStaysBounded | internal/server/middleware.go:130-138 | on every sequence each shard stays within its share of the key budget |
| Limiter.BurstGranted | internal/server/middleware.go:167-180 | n simultaneous requests are all granted if and only if the bucket holds n tokens |
| Limiter.OnlyFullBucketsAreForgettable | internal/server/middleware.go:182-192 | forgetting a bucket is invisible to all future requests if and only if it is full |
| Limiter.DroppingIsKindExactly | internal/server/middleware.go:182-205 | no future request granted to the kept bucket is refused to a fresh one, in any future, if and only if the bucket is full |
| Limiter.DroppingIsNotAlwaysKinder | internal/server/middleware.go:184-186 | a stored bucket and two requests of which the dropped remote loses the second |
| Limiter.DroppingGrantsMoreInTotal | internal/server/middleware.go:182-186 | over every future, a dropped remote is granted in total at least as many requests as with its bucket kept |
| Limiter.DroppingNeverCostsInTotal | internal/server/middleware.go:167-205 | on every run, whatever is dropped, every remote has at every point been granted at least as many requests as by the unbounded limiter |
| Writer.WriteBundleOnce | internal/lake/writer.go:111-136 | one attempt adds the whole bundle and reports success, or adds nothing and reports the first failing statement; no transaction stays open |
| Writer.BundleWriter.WriteBundle | internal/lake/writer.go:90-106 | for every pattern of failures the bundle is added exactly once on success and not at all on error, all connections end idle, and the unsigned counter advances with wrap-around |
| Writer.RetriesOnlyConflicts | internal/lake/lake.go:425-445 | at most three attempts, each but the last lost a commit race, a poison row is never retried, and the result is the last attempt's or a cancellation during a wait |
| Writer.ConflictsAreRidden | internal/lake/lake.go:425-445 | if an attempt among the first three succeeds after only lost races, the bundle is written |
| SqlText.ReadUndoesQuoted | internal/lake/lake.go:689-692 | an independent literal reader gets back every quoted value and stops exactly at its end |
| SqlText.ScrubQuotedLiterals | internal/lake/lake.go:728-743 | the loop computes `Scrub` |
| SqlText.ScrubHidesValue | internal/lake/lake.go:724-743 | scrubbing balanced text around a quoted value shows one placeholder more than the value has quotes, and the text around it as if it were alone |
| SqlText.OnlyQuoteCountLeaks | internal/lake/lake.go:724-743 | values with equally many quotes are indistinguishable after scrubbing |
| SqlText.UnbalancedTextLeaks | internal/lake/lake.go:724-743 | after text with an open quote a value without quotes is shown in full |
| SqlText.HiddenExactly | internal/lake/lake.go:724-743 | a value shows only its number of quotes if and only if the text before it is balanced |
| SqlText.ScrubStatement | internal/lake/lake.go:724-743 | scrubbing a statement of balanced text and any number of quoted values shows the scrubbed text and only placeholders for the values |
| SqlText.RedactHidesValues | internal/lake/lake.go:694-710 | redacting a statement whose text marks it as credential-bearing hides all its values: two sets of credentials of one shape give the same output |
| Backfill.GroupParquetByPrefix | internal/lake/backfill.go:242-259 | prefixes in first-seen order, each with exactly its parquet files in order |
| Backfill.OrderDistinct | internal/lake/backfill.go:242-259 | no prefix is listed twice and the prefix of every parquet file is listed |
| Backfill.Catalog.RegisterListed | internal/lake/backfill.go:151-186 | commits the batches of a wholly new prefix in order up to the first failure |
| Backfill.Catalog.RegisterFiles | internal/lake/backfill.go:205-236 | the same for the per-file fallback with its smaller batches |
| Backfill.Catalog.Backfill | internal/lake/backfill.go:53-140 | a whole run on the catalog computes `BackfillRun` |
| Backfill.RunCommitsPlan | internal/lake/backfill.go:53-140 | every run commits a prefix of its plan up to the first failing transaction and reports exactly what it registered; a completed run has Registered + Skipped equal to the parquet count |
| Backfill.PlanExact | internal/lake/backfill.go:98-133 | a plan registers each new parquet file exactly as often as it is listed, and nothing else |
| Backfill.PrefixBatchesBounded | internal/lake/backfill.go:13-23 | no batch is empty or above the cap of the path its prefix takes |
| Backfill.PlanBatchesBounded | internal/lake/backfill.go:13-23 | every snapshot of a run is within the snapshot cap |
| Backfill.AfterRun | internal/lake/backfill.go:45-52 | a run loses nothing and adds new parquet files only, all of them if it completes |
| Backfill.OnceExactly | internal/lake/backfill.go:45-52 | a completed run leaves no file registered twice if and only if no new parquet file is listed twice |
| Backfill.CompletedRunCovers | internal/lake/backfill.go:45-52 | a completed run leaves exactly the old files plus all parquet paths |
| Backfill.RerunsAreSafe | internal/lake/backfill.go:45-52 | after any sequence of runs, each over a duplicate-free listing of its own and failing anywhere, no file is registered twice, old files stay, and only parquet files of the listings were added |
| Backfill.RerunsConverge | internal/lake/backfill.go:45-52 | once a rerun completes over the same or a grown listing, the catalog holds exactly what one uninterrupted run over it would leave |
| Backfill.RerunIsIdle | internal/lake/backfill.go:109-113 | rerunning a completed backfill commits nothing and skips every parquet file |
| Routing.SplitAtDot | internal/stream/subjects.go:28-42 | joining two subjects with a dot joins their tokens, for all strings |
| Routing.SanitizedIsToken | internal/stream/subjects.go:91-108 | a sanitized string is one non-empty token and no wildcard |
| Routing.PartitionTokenInjective | internal/stream/subjects.go:57-70 | different partitions have different padded tokens |
| Routing.PartitionFilterAccepts | internal/stream/subjects.go:65-70 | of all strings, a partition filter accepts exactly the five-token raw subjects ending in its own token |
| Routing.RoutesToExactlyOneStream | internal/stream/subjects.go:36-70 | for all header strings and any partition count the published subject matches its own partition's filter and no other |
| Routing.TypeFilterExact | internal/stream/subjects.go:72-89 | a type filter matches a published subject if and only if the type tokens agree, whatever the layout |
| Streams.Broker.CheckStaleStreams | internal/stream/stream.go:89-107 | passes if and only if every WAL-prefixed stream belongs to the layout and the listing succeeded |
| Streams.Broker.EnsureStreams | internal/stream/stream.go:48-83 | touches nothing unless the guard passes, then provisions the partitions in order up to the first failure |
| Streams.NoOverlap | internal/stream/stream.go:41-83 | whenever the guard passes, no string whatsoever matches two WAL streams, after complete provisioning and wherever it stopped |
| Streams.PublishedHasOneHome | internal/stream/stream.go:41-83 | every published event matches its partition's stream, which exists, and no other WAL stream |
| Streams.OldStreamsKept | internal/stream/stream.go:85-107 | whenever the guard passes, at every point of provisioning every existing WAL stream is there with the same filter, so stored messages keep their stream |
| Streams.ByNameKept | internal/stream/stream.go:48-83 | provisioning, complete or stopped anywhere, keeps every WAL stream's filter the one its name stands for |
| Streams.GuardExactly | internal/stream/stream.go:89-107 | against the complete layout of m partitions the guard for n passes if and only if m = n or 2 ≤ m ≤ n |

## Left out

- The sink's Run and worker goroutines are a step system on values, one step per action another goroutine can observe, rather than a class with fields: their point is the interleaving. Aliasing of the sent buffer appears as the uncharged window.
- 64-bit overflow of inflight and of the byte totals: integers are unbounded there.
- Fairness of the scheduler: `Backpressure.BackpressureReturns` shows that nothing can go on forever or stop before Run is back in its loop, not that the scheduler lets every goroutine run.
- `recordCommitFailure` and its time window: the fatal exit of Run is a step that may happen at any time.
- Sink.MemoryBound: says nothing once shutdown is signalled, as the source then accepts and hands off without waiting.
- JetStream internals: the model has only deliver, redeliver (any message may be received again), ack, term and crash.
- DuckDB, DuckLake and Postgres internals and all SQL text: a commit is atomic, a failed COMMIT commits nothing, ROLLBACK works, expiry removes snapshots strictly older than the cutoff and never the current one.
- FNV-1a: an arbitrary function of the key, so nothing is said about balance between partitions or shards.
- float64: coordinates are reals with NaN and infinities, limiter tokens and time are reals, the memory budget is integer halving, and the formatting of the cutoff into SQL is exact.
- Limiter: the clock does not go back within a run, and rps > 0 with burst ≥ 1, as the middleware enables it only then.
- SortSignals: the library's unstable sort is any sorted permutation; callers use only that.
- Merge sub-call retries: a sub-call's answer is the one after its own retries; `parseByteSize` and the catalog's average file size are inputs.
- Expiry has one clock for the catalog and all consumers: a progress row stamped by a host whose clock runs ahead or behind is not modelled.
- `reportConsumerHealth` computes its own cutoff, separate from the frozen one, while `Expiry.ReportExactly` compares at one cutoff; the other maintenance steps only commit snapshots here.
- The backfill pause heartbeat and the partitioning reset around a run; files merged away between runs.
- Which connection a bundle is written on is not observable in the lake, and mutual exclusion on it is taken for granted.
- HTTP servers, TLS, JWT, attestation, conversion and validation of payloads, blob encryption, object stores, configuration, metrics and logging: plumbing around code that is not part of this model.
