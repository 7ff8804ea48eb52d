# Flameping, modelled and verified

Flameping is a ping monitor: a scheduler sends probes, an engine and a bounded event bus carry what
happened to a single writer, SQLite tables keep it raw and as rollups, and an incident controller probes
faster while something is wrong. This project models the parts of it that carry state and proves what
they promise over every input, every run or every reachable state.

`dafny verify dfyconfig.toml` checks everything.

## The parts

* **Incident controller** (`ObsessTarget`, `ObsessRecovery`, `ObsessProgress`, `ObsessBaseline`, `ObsessStatus`,
  `DeadlineHeap`, `ObsessNodes`, `ObsessController`, `ObsessMonitor`).
  `ObsessTarget` says on values what each operation does to one target: the FIFO of probes, the baseline
  window, the incident and the healthy run. `ObsessRecovery` runs it beside an audit, a record of what
  really happened kept independently of the controller's own variables, and proves the recovery guarantee
  over every run: what is announced was earned. `ObsessProgress` proves the other half: what is earned is
  announced at once. `ObsessBaseline` says what limits and baselines are made of, `ObsessStatus` what is shown
  between announcements. `ObsessController` is the imperative controller, with shared counters, a key map and a
  heap whose nodes know their places; every public method keeps the whole representation invariant and
  equals the value semantics. `ObsessMonitor` gives it a ghost trace for each target, so the guarantee over
  all runs is a statement about the recoveries this object announces.
* **Rollup store** (`PingAggregate`, `RawAggregate`, `RawCounts`, `RawScan`, `RawBuckets`, `PingRollups`,
  `Overview`).
  Aggregates form a commutative monoid. A raw scan of a window is the total of what each row and each gap
  contributes; it divides over neighbouring windows, and `RawCounts` says what it counts: the sets of rows of
  each outcome, the missed slots, the round trips. From this follow the minute scan, the hour as an
  image of its minutes, the bucketed raw query, and the overview that mixes rollups with raw rows.
* **Writer and retention** (`SampleStore`, `Writer`, `Delivery`, `TrafficCounts`, `Coherence`, `Retention`,
  `HourRollups`). The tables, what each write, recomputation and delete does to them, the class that does it in
  place with rollback and retries, the independence of delivery order, the tie from events to counts, and the
  proof against a full ghost history that nothing is lost, neither in minutes nor in the hours merged from them.
* **Admission** (`Cadence`, `Scheduler`, `EventBus`, `EchoEngine`, `EchoEvents`). Slots from the scheduler to the
  event stream. `Scheduler` and `EventBus` are classes; `EchoEngine` is a machine of atomic steps for the queues,
  the send loops, the gap loop and the bus, whose steps are those of the class. `EchoEvents` says which event
  each job gets.
* **Histogram and checksum** (`Buckets`, `Histogram`, `HistogramCodec`, `TailFlags`, `BucketFlags`, `Checksum`).
* **Interfaces and routes** (`Interfaces`, `InterfaceHistory`, `Routes`, `RouteChanges`). `InterfaceHistory` ties
  the generations in the store to the list of events alone.
* `Common`, `Sums`, `Sorting` and `TimeGrid` hold shared helpers.

Times are integers: microseconds in the store and for interfaces, nanoseconds in the scheduler, ticks in the
controller. A zero time is `None`. SQL tables are maps and sets and a statement is an update of them;
where the source reads rows in no particular order, so does the model.

## Where the code does less than one might expect

* A scheduler gap or an eviction interrupts a healthy run at the clock of the moment, and forgets the run whatever
  that clock says. So what was settled by then counts no more towards an end of the incident, even if it was sent
  after the clock reading; the audit marks the moment after each such send as well.
* A gap is stored with its first slot and its interval rounded down to microseconds. Its slots are where they were
  missed if and only if the last one drifts by less than a microsecond (`SlotsExactIff`); an interval below a
  microsecond leaves none.
* `countPeriodic` divides rounding towards zero. It is exact if and only if the gap starts before the window
  ends or at least one step past its last instant (`CountPeriodicExactIff`, `CountPeriodicOvercounts`). Both callers
  filter the gaps so that it is.
* The histogram decoder adds distances and counts modulo 2^64. The buckets of an accepted input ascend if and
  only if no sum of distances in it wrapped (`AcceptedAscendsIff`). Its total is the sum of its buckets if and
  only if that sum fits 64 bits and the counts that were overwritten add up to a multiple of 2^64
  (`CountIsTotalIff`); while all counts together fit, that is exactly if no bucket occurs twice
  (`SmallCountIsTotalIff`). `WRAPPED` overwrites a bucket by a wrapped distance (`WrappedInputIsAccepted`);
  `OVERFULL` does neither and is accepted with a total of 0 (`OverfullInputIsAccepted`).
* A second reply before its row takes the place of the first. The row is what it would have been with the
  probe stored first if and only if no displaced reply came from the probed address
  (`SameAsSendFirstIff`, `SecondEarlyReplyDisplaces`).
* A write can lose data. It keeps the store coherent with its history if and only if every minute whose
  counts it changes is dirty or has the rollup that recomputing it would store (`WriteCoheresIffSafe`), which
  can be checked on the store before the write and holds of every write at or after the raw cutoff
  (`RecentIsSafe`). `NothingIsLost` covers all runs of such writes; `LateSendLoses` is a run that loses a probe.
* A drain of the engine completes as well when a loop has failed. Then every accepted job and admitted gap has
  its one event if and only if no queue holds anything and no loop took anything with it (`DrainAccountsIff`).
* A new endpoint strikes the keys of all its target's probes, settled ones included. The controller's key map
  survives if and only if no probe of another target is out under one of these keys (`UpdateEndpoint`), as is the
  case when sequence numbers of a run are not used again.
* The filter of a raw query by source buckets keeps or drops whole minutes in buckets of a minute
  (`FilteredMinute`). A minute that begins an hour lets the whole hour pass (`HourStartPasses`), and in wider
  buckets the slots of gaps pass with the start of the bucket (`WideBucketDropsSlot`).
* The sample counts of neighbouring interface minutes add up if and only if nothing was sampled before the second
  one; otherwise the sample that leads it is counted twice (`SamplesAddUpIff`).

## Model

| member | source | states |
|---|---|---|
| ObsessRecovery.RecoveryIsSound | internal/obsess/controller.go:405-475 | whenever a recovery is announced, in any run, every probe sent in the announced window was good and within the frozen limit, neighbouring sends are at most twice the fast interval apart, the window is long enough, nothing up to its end is unresolved, and no loss, late reply, reply over the limit, gap, send error, eviction or unobserved probe fell inside |
| ObsessRecovery.NoFaultInside | internal/obsess/controller.go:354-403 | whatever event interrupted confidence since the endpoint last changed, a reply over the limit in force included, every later recovery begins its window no earlier than that |
| ObsessRecovery.IncidentsAlternate | internal/obsess/controller.go:389-403 | starts and ends of incidents strictly alternate over every run and the last one tells whether an incident is open |
| ObsessRecovery.FrozenBaseline | internal/obsess/controller.go:405-413 | during an incident baseline and limit never change, history stays sorted, and every retained sample was sent after the last fault and lies within the limit |
| ObsessRecovery.IncidentStartsExactlyOnFault | internal/obsess/controller.go:354-403 | an idle target starts an incident exactly on a lost probe, a late reply or a reply above the limit captured at its send, with that probe's baseline and limit frozen; the announcement names the probe, the reason, and the missed deadline or the arrival |
| ObsessRecovery.ApplyKeeps | internal/obsess/controller.go:224-339 | every event keeps the audited invariant and justifies the recoveries it emits |
| ObsessRecovery.RunKeeps | internal/obsess/controller.go:224-475 | the audited invariant holds after every run of possible events |
| ObsessRecovery.DrainKeeps | internal/obsess/controller.go:415-475 | consuming settled probes from the head keeps the invariant and emits only justified recoveries |
| ObsessRecovery.DrainOnlyRecovers | internal/obsess/controller.go:415-475 | settling probes in send order can end an incident but never start one |
| ObsessRecovery.PruneKeepsWindow | internal/obsess/controller.go:491-500 | pruning a sorted history keeps exactly the samples within the baseline window |
| ObsessRecovery.MeanBelow | internal/obsess/controller.go:507-515 | a mean over samples within a limit is within that limit, so the baseline after recovery is at most the frozen threshold |
| ObsessProgress.IncidentsEnd | internal/obsess/controller.go:424-473 | in no reachable state is an incident open while the record holds a window long enough, healthy under the frozen limit, close enough, fully resolved and not interrupted |
| ObsessProgress.RecoversExactlyWhenEarned | internal/obsess/controller.go:464-469 | an event other than a new endpoint ends an open incident if and only if the record then holds such a window, and announces exactly the one recovery |
| ObsessProgress.ApplyCompletes | internal/obsess/controller.go:224-475 | every event keeps the run collected so far the longest there is, and no run ever long enough |
| ObsessBaseline.CapturedLimit | internal/obsess/controller.go:517-529 | a round trip exceeds the limit captured at a send exactly if it exceeds the incident's frozen one, or else the absolute limit, or else, with enough samples, their mean by more than the percentage; the cap is never noticed |
| ObsessBaseline.RecoveryRestsOnItsWindow | internal/obsess/controller.go:437-468 | the baseline and count of an announced recovery are those of the genuine answers to the sends of its window, all of them as far back as the retained window reached |
| ObsessBaseline.BaselineIsLearned | internal/obsess/controller.go:470-500 | without an incident the history gains exactly the on-time answers whose turn came and retires exactly the samples older than the window; an eviction takes the oldest, and nothing else changes it |
| ObsessStatus.ShowsLastIncident | internal/obsess/controller.go:389-403 | reason and start shown of an incident are those of the announcement that opened it, and none are shown without one |
| ObsessStatus.LimitedIffLacking | internal/obsess/controller.go:234-240 | tracking shows as limited exactly since capacity was last lost, until a recovery or a new endpoint |
| ObsessStatus.KeepsFirstEarly | internal/obsess/controller.go:285-292 | a probe whose write is not over keeps the first reply reported for it |
| ObsessController.Controller.Register | internal/obsess/controller.go:147-174 | a new target starts idle, without history, and the invariant holds |
| ObsessController.Controller.BeginProbe | internal/obsess/controller.go:224-257 | a probe is tracked, dropped or ignored as the value semantics says, on exactly those conditions; only here can a sample be evicted or a probe go untracked, and only at capacity |
| ObsessController.Controller.CompleteProbe | internal/obsess/controller.go:259-277 | a finished write accepts its probe, or interrupts the run; an unknown or accepted key changes nothing; nothing is evicted |
| ObsessController.Controller.ObserveReply | internal/obsess/controller.go:279-297 | a matching reply settles or is buffered exactly once; any other changes nothing |
| ObsessController.Controller.ObserveGap | internal/obsess/controller.go:299-310 | a missed slot interrupts the healthy run of its target and nothing else |
| ObsessController.Controller.UpdateEndpoint | internal/obsess/controller.go:312-339 | a new endpoint discards the target's probes, history and incident, and keeps the invariant if and only if no other target has a probe out under a key it strikes |
| ObsessController.Controller.ExpireDue | internal/obsess/controller.go:379-387 | all probes whose deadline has passed are faulted, and no pending deadline up to the clock remains |
| ObsessController.Controller.MakeRoom | internal/obsess/controller.go:534-551 | makes room below the shared bound by giving up one sample of a target, or reports that it cannot |
| ObsessController.Controller.Average | internal/obsess/controller.go:507-515 | the incremental mean is the arithmetic mean of the live history |
| ObsessController.Controller.AddSample | internal/obsess/controller.go:477-489 | appends a sample in send order and keeps the shared count of samples |
| ObsessController.Controller.PruneHistory | internal/obsess/controller.go:491-500 | drops the samples before the window and keeps the shared count |
| ObsessController.Controller.Finish | internal/obsess/controller.go:415-475 | settling a probe consumes all settled probes at the head, in send order, as the value semantics says, of which `ObsessProgress` and `ObsessBaseline` say when it ends an incident and what it learns |
| ObsessMonitor.Monitor.RecoveriesAreSound | internal/obsess/controller.go:405-475 | as long as sends of a target came in order and no reading preceded its send, every recovery the controller object has announced about any target was justified by the record of its trace at the moment of the announcement |
| ObsessMonitor.Monitor.IncidentsEnd | internal/obsess/controller.go:424-473 | as long as sends came in order and no reading preceded its send, no incident the controller object has open is one whose end the record of its target has earned |
| ObsessMonitor.EveryRecoveryIsGrounded | internal/obsess/controller.go:405-475 | for every announcement of a recovery in a run there is the event that made it, and the record after that event justifies it |
| ObsessMonitor.Monitor.BeginProbe | internal/obsess/controller.go:224-257 | enters pruning, eviction and the send or the dropped probe in the books, announces nothing, and the books still describe all targets |
| ObsessMonitor.Monitor.CompleteProbe | internal/obsess/controller.go:259-277 | enters the end of a write as the acceptance, failure or overtaking reply it amounts to; what is returned is what the book announces |
| ObsessMonitor.Monitor.ObserveReply | internal/obsess/controller.go:279-297 | enters a matching reply, before or after its write was confirmed, and nothing otherwise |
| ObsessMonitor.Monitor.UpdateEndpoint | internal/obsess/controller.go:312-339 | enters a changed endpoint; the books stay true even if a reused key spoils the key map |
| ObsessMonitor.Monitor.ExpireDue | internal/obsess/controller.go:379-387 | enters the losses of all due probes one after another, each announcement with its target |
| DeadlineHeap.DeadlineHeap.Push | internal/obsess/controller.go:103-107 | adds a node, keeps heap order and every node's recorded place |
| DeadlineHeap.DeadlineHeap.Remove | internal/obsess/controller.go:108-115 | removes exactly the node at a place, keeps heap order and places of the others |
| DeadlineHeap.RootIsEarliest | internal/obsess/controller.go:95-115 | the root of the heap has the least deadline of all |
| DeadlineHeap.MoveUp | internal/obsess/controller.go:95-115 | one exchange towards the root restores the order but for one place higher up |
| DeadlineHeap.MoveDown | internal/obsess/controller.go:95-115 | one exchange away from the root restores the order but for one place lower down |
| PingAggregate.MergeLaws | internal/store/sqlite/query.go:711-739 | merging aggregates is associative and commutative with the empty aggregate as unit, in every counter, extreme, timeout range and histogram |
| RawAggregate.MissedSplits | internal/store/sqlite/rollup.go:420-439 | neighbouring windows divide the slots of a gap |
| RawAggregate.CountPeriodicExactIff | internal/store/sqlite/rollup.go:420-439 | the closed form equals the number of slots in the window if and only if the gap starts before its end or at least a step past its last instant |
| RawAggregate.CountPeriodicInWindow | internal/store/sqlite/rollup.go:396-409 | for every gap that starts before the window ends the closed form is exact |
| RawAggregate.CountPeriodicOvercounts | internal/store/sqlite/rollup.go:428-428 | a slot right after the window is counted inside it |
| RawAggregate.RawSplits | internal/store/sqlite/query.go:583-676 | a raw scan of a window merges the scans of its two halves: nothing twice, nothing missed |
| RawAggregate.RawSettled | internal/store/sqlite/query.go:630-637 | with no probe of the window pending, the scan at a clock equals the scan of a minute rollup |
| RawAggregate.TimeoutsCover | internal/store/sqlite/query.go:699-709 | the timeout range of a scan covers the timeout of every probe in it |
| RawCounts.RawCountsRows | internal/store/sqlite/query.go:583-650 | attempted, failed, sent, on time, late and unanswered are the numbers of rows of the window with that outcome, and each histogram bucket the number of replies with such a round trip |
| RawCounts.RawCountsMissed | internal/store/sqlite/query.go:651-675 | missed is the number of pairs of a gap of the target and a slot of it in the window |
| RawCounts.RawSumsTrips | internal/store/sqlite/query.go:687-697 | the replies of the window are counted and their round trips summed, and nothing else is |
| RawCounts.RawRanges | internal/store/sqlite/query.go:687-709 | minimum and maximum are those of the round trips, and of the positive timeouts, of the rows in the window |
| RawCounts.RawPartialIff | internal/store/sqlite/query.go:630-637 | a scan is partial exactly while a sent probe of its window is unanswered and has time left |
| RawScan.ObserveProbeMerges | internal/store/sqlite/query.go:583-650 | counting one row into an accumulator merges exactly what the row contributes |
| RawScan.AggregateRawMinute | internal/store/sqlite/rollup.go:349-418 | the loops over rows and gaps compute the raw aggregate of the minute, missing replies unanswered, whose counts are those of `RawCounts` |
| RawBuckets.QueryRaw | internal/store/sqlite/query.go:583-676 | every bucket holds the raw aggregate of what passes the filter in its part of the window, of everything if there is no filter, and nothing observed has no bucket |
| RawBuckets.FilteredMinute | internal/store/sqlite/query.go:601-610 | a bucket of a minute holds all of the minute if the minute or its hour is among the sources, and nothing otherwise |
| RawBuckets.HourStartPasses | internal/store/sqlite/query.go:604-607 | a source that begins an hour lets every instant of the hour pass |
| RawBuckets.WideBucketDropsSlot | internal/store/sqlite/query.go:661-669 | in a bucket of an hour the slot of a gap in a minute among the sources is dropped when the hour is not |
| RawBuckets.AddRow | internal/store/sqlite/query.go:592-650 | one row changes the one bucket it is scheduled in |
| RawBuckets.AddGap | internal/store/sqlite/query.go:651-675 | the slots of a gap are spread over exactly the buckets they lie in |
| RawBuckets.BucketsAddUp | internal/store/sqlite/overview.go:181-188 | the buckets of a window sum to one raw scan of it |
| RawBuckets.Regroup | internal/store/sqlite/overview.go:181-188 | merges minutes into wider buckets and into one total, each the sum of the minutes in it |
| RawBuckets.RegroupKeeps | internal/store/sqlite/overview.go:181-192 | a wider bucket is again the raw aggregate of its part of the window |
| PingRollups.StoreKeeps | internal/store/sqlite/rollup.go:510-553 | a stored aggregate, read back or accumulated, merges as the original although empty extremes are stored as null |
| PingRollups.AggregateHour | internal/store/sqlite/rollup.go:441-508 | the loop merges the stored minutes of an hour, in any order |
| PingRollups.HourIsRaw | internal/store/sqlite/rollup.go:441-508 | merging the stored minutes of an hour gives the aggregate of the hour's raw rows and gaps |
| PingRollups.RawBalanced | internal/store/sqlite/rollup.go:349-418 | scheduled is attempted plus missed, attempted is sent plus errors, replies are on time or late, and a scan is partial exactly while a sent probe is undecided |
| Overview.QueryRollups | internal/store/sqlite/query.go:449-491 | the minutes read from rollups are exactly the clean whole minutes of the window, each equal to its raw aggregate |
| Overview.FillIn | internal/store/sqlite/overview.go:163-180 | reading each contiguous run of dirty or absent minutes from raw rows completes the minutes of the window |
| Overview.CleanIff | internal/store/sqlite/query.go:449-491 | a stored minute is used exactly if it is not dirty and lies wholly in the window |
| Overview.OverviewPing | internal/store/sqlite/overview.go:131-196 | for every window and dirty set the total is one raw aggregation of the window, and the trend buckets are those of the width, clipped to the window, and tile it, each the raw aggregation of its part |
| Overview.TrendAddsUp | internal/store/sqlite/overview.go:186-195 | the trend buckets sum to the total |
| Overview.PendingIsExact | internal/store/sqlite/overview.go:198-214 | the reported pending count is the number of probes sent, unanswered and before their deadline, and the report is partial exactly while there is one |
| SampleStore.ApplyAllAppends | internal/store/sqlite/writer.go:181-231 | applying a run of events in batches is applying it in one |
| Writer.Writer.ApplyReply | internal/store/sqlite/writer.go:286-331 | the first reply from the probed address is stored and dirties its minute, later ones are counted, one from elsewhere only raises a diagnostic |
| Writer.Writer.InsertProbe | internal/store/sqlite/writer.go:239-284 | stores the row, dirties its minute and applies a buffered reply; a repeated key is an error |
| Writer.Writer.Receive | internal/store/sqlite/writer.go:192-206 | applies a reply, or counts it as evicted, or buffers it; a full buffer is an error |
| Writer.Writer.InsertGap | internal/store/sqlite/writer.go:333-349 | stores the gap and marks every minute from its first to its last slot |
| Writer.Writer.ApplyBatch | internal/store/sqlite/writer.go:181-231 | all events of a batch take effect or none does in the tables |
| Writer.Writer.ApplyRetainedBatch | internal/store/sqlite/writer.go:123-130 | a failed attempt leaves the tables and the buffer of early replies as they were |
| Writer.Writer.ApplyBatchRecovering | internal/store/sqlite/writer.go:97-121 | however many attempts were rolled back, the batch is applied exactly once, or not at all if it is bad |
| Writer.Writer.RecomputePingMinute | internal/store/sqlite/rollup.go:326-347 | a minute that is over and has no pending probe gets the aggregate of its raw rows, is no longer dirty and marks its hour; any other is left alone |
| Writer.Writer.PrunePingRaw | internal/store/sqlite/retention.go:29-35 | a bounded delete removes only old rows of clean minutes with a rollup, the earliest first, and all of them if there are few |
| Writer.Writer.PruneGaps | internal/store/sqlite/retention.go:36-41 | a bounded delete removes only old gaps none of whose minutes is dirty, the earliest first, and all of them if there are few |
| Writer.Writer.AdvancePrunedThrough | internal/store/sqlite/retention.go:82-97 | the watermark moves to the cutoff once no older row remains, and never back |
| TrafficCounts.RowsAreSends | internal/store/sqlite/writer.go:239-284 | after any run the rows are the probes that were sent, each with target, address, times, timeout and outcome of its write |
| TrafficCounts.GapsAreMissings | internal/store/sqlite/writer.go:333-349 | after any run the gaps are those reported, one for each in their order, with their number of slots at their microsecond positions but for the drift of rounding |
| TrafficCounts.SlotsExactIff | internal/store/sqlite/writer.go:333-349 | all slots of a stored gap are where they were missed if and only if the last one drifts by less than a microsecond |
| TrafficCounts.ScanCountsTraffic | internal/store/sqlite/query.go:583-676 | a scan counts as many probes sent and failed as were written for its window and as many slots missed as were reported for it |
| TrafficCounts.RefusedIff | internal/store/sqlite/writer.go:181-231 | an event fails exactly if it sends a probe again, buffers a reply with 4096 waiting, or reports a gap without slots or interval |
| TrafficCounts.CountersTell | internal/store/sqlite/writer.go:192-208 | the diagnostics count the replies from other addresses and the replies too old to be buffered, and the buffer is bounded |
| Delivery.RowsAreDelivered | internal/store/sqlite/writer.go:181-331 | after any run rows exist for exactly the sent probes, each is its sent row with the replies it saw folded in, and the dirty minutes are those of the probes and gaps |
| Delivery.FirstReplyIsKept | internal/store/sqlite/writer.go:286-331 | the first genuine reply stays for good and each further one counts as a duplicate |
| Delivery.SameAsSendFirstIff | internal/store/sqlite/writer.go:192-208 | a row is as if its probe had been stored first if and only if no displaced reply came from the probed address |
| Delivery.SecondEarlyReplyDisplaces | internal/store/sqlite/writer.go:208-208 | of two early replies the second is kept and the first never counted |
| Delivery.InterleavingDoesNotMatter | internal/store/sqlite/writer.go:181-331 | with at most one early reply per probe all interleavings of the same traffic leave the same rows and dirty minutes |
| Delivery.AsIfSentFirst | internal/store/sqlite/writer.go:181-331 | storing all probes before all replies succeeds as well and leaves the same rows and dirty minutes |
| Delivery.SendFirstSucceeds | internal/store/sqlite/writer.go:181-331 | whatever run of writes succeeds, with the replies moved behind all probes and gaps it still does: the buffer of early replies never needs more room |
| Coherence.StepCoheres | internal/store/sqlite/writer.go:239-349 | every write, recomputation and prune keeps the store coherent with its full history |
| Coherence.NothingIsLost | internal/store/sqlite/retention.go:29-41 | after any run of safe writes, recomputations and prunes the store is coherent |
| Coherence.WholeOrRolled | internal/store/sqlite/rollup.go:326-347 | each minute has all its rows and gaps in the raw tables, or is clean with a rollup of its full history |
| Coherence.WriteCoheresIffSafe | internal/store/sqlite/writer.go:239-349 | a write leaves the store coherent with its full history if and only if nothing of a minute whose counts it changes has been pruned, as the store itself shows before the write |
| Coherence.WholeIffIntact | internal/store/sqlite/rollup.go:326-347 | all of a minute is still in the raw tables if and only if it is dirty or its rollup is what recomputing it would store |
| Coherence.RecentIsSafe | internal/store/sqlite/retention.go:29-41 | a write at or after the raw cutoff is always safe |
| Coherence.CautiousIsLegal | internal/store/sqlite/retention.go:29-41 | a run whose writes all lie at or after the cutoff is among those `NothingIsLost` covers |
| Coherence.RollKeeps | internal/store/sqlite/rollup.go:326-347 | recomputing a dirty minute makes its rollup the aggregate of its full history |
| Coherence.DropRowsKeeps | internal/store/sqlite/retention.go:29-35 | deleting prunable rows leaves dirty and recent minutes whole |
| Coherence.DropGapsKeeps | internal/store/sqlite/retention.go:36-41 | deleting prunable gaps leaves dirty and recent minutes whole |
| Coherence.RecomputeExactIff | internal/store/sqlite/rollup.go:349-418 | a recomputation stores the aggregate of the full history if and only if nothing of the minute has been pruned |
| Coherence.LateWriteLoses | internal/store/sqlite/rollup.go:326-347 | a partly pruned minute made dirty again loses the pruned part |
| Coherence.LateSendLoses | internal/store/sqlite/rollup.go:326-347 | a run of five steps that makes the store incoherent by a late probe and ends with a clean rollup of one probe where two were scheduled |
| Coherence.ReachableIsTrusted | internal/store/sqlite/overview.go:131-162 | in every reachable store the overview's trust in clean rollups is justified for windows after the cutoff |
| Coherence.RecentIsWhole | internal/store/sqlite/retention.go:29-41 | a raw scan of a window after the raw cutoff equals the scan of the full history |
| Coherence.OverviewOfAll | internal/store/sqlite/overview.go:131-196 | the overview of a reachable store, for a window after the cutoff, is one aggregation of everything ever scheduled in it, in total and in every bucket |
| Retention.WatermarkIsHighestCleared | internal/store/sqlite/retention.go:82-97 | the watermark never falls, and over every run it is the highest cutoff at which no older row was left |
| Retention.OnlyOldIsGone | internal/store/sqlite/retention.go:29-41 | whatever was applied and is no longer in the raw tables was scheduled and sent before the highest raw cutoff |
| Retention.OldRowsCanGo | internal/store/sqlite/retention.go:29-35 | retention keeps pace: in every reachable store whose older rows lie in clean minutes all of them may go, and the watermark then rises to the cutoff unless a row sent before it was scheduled later |
| Retention.GapPrunableIff | internal/store/sqlite/retention.go:36-41 | a gap may go exactly when all its slots are older than the cutoff and no minute from its first slot to its last is dirty |
| Retention.MinuteRolls | internal/store/sqlite/rollup.go:326-347 | a minute that is over and has no probe waiting is clean after its recomputation and has a rollup; any other is left alone |
| HourRollups.HourRolls | internal/store/sqlite/rollup.go:441-508 | an hour that is over and has no dirty minute is clean after its recomputation and has a rollup; any other is left alone |
| HourRollups.EverythingRollsUp | internal/store/sqlite/rollup.go:326-508 | recomputation catches up from every reachable store: once all dirty minutes and hours are over and no probe waits, a legal continuation leaves none dirty, touches no raw data, and gives every hour the aggregate of all that was ever scheduled in it |
| HourRollups.HoursAreTrue | internal/store/sqlite/rollup.go:441-508 | in every reachable store, however much has been pruned, a clean hour without dirty minutes is the aggregate of all that was ever scheduled in it, and an hour without a rollup never had anything |
| HourRollups.StepKeeps | internal/store/sqlite/rollup.go:326-347 | every step keeps a clean hour equal to what recomputing it from its minutes would store, because a recomputed minute marks its hour |
| HourRollups.MinutesAreRaw | internal/store/sqlite/rollup.go:441-508 | stored minutes that are current for some tables sum to the raw aggregate of the hour over these tables |
| Writer.Writer.RecomputePingHour | internal/store/sqlite/rollup.go:441-508 | an hour that is over and has no dirty minute gets the merge of its stored minutes and is no longer dirty; any other is left alone |
| Cadence.MissKeeps | internal/scheduler/scheduler.go:153-174 | skipped and refused slots extend the pending gap up to the deadline and stay accounted for |
| Cadence.AcceptKeeps | internal/scheduler/scheduler.go:153-174 | an accepted slot hands over the pending gap and stays accounted for |
| Cadence.ChangeKeeps | internal/scheduler/scheduler.go:176-208 | a new cadence starts an epoch of its own with nothing due |
| Cadence.ExpandOnce | internal/scheduler/scheduler.go:217-228 | a gap of n slots stands for n different slots |
| Cadence.DueExactly | internal/scheduler/scheduler.go:153-174 | the slots accounted for in the current epoch are exactly those up to the clock |
| Scheduler.Scheduler.constructor | internal/scheduler/scheduler.go:45-112 | each target starts at the phase its hash gives it within one interval, with nothing due |
| Scheduler.Scheduler.SubmitDue | internal/scheduler/scheduler.go:153-174 | offers each due target, and no other, one job for its latest due slot, leaves every deadline after the clock, and keeps all slots accounted for |
| Scheduler.Scheduler.ApplyUpdates | internal/scheduler/scheduler.go:176-208 | changed targets get the new cadence, their pending gap recorded first; the others are untouched |
| Scheduler.Scheduler.FlushGaps | internal/scheduler/scheduler.go:134-140 | after a flush every slot that came due has been given to the sink as a job or in a gap |
| Scheduler.Scheduler.Wake | internal/scheduler/scheduler.go:118-150 | a wake offers every due target its latest due slot, accepts at most one job per target, leaves every deadline after the clock, and completes every cadence up to the clock before beginning another; five seconds after the last flush no gap is pending and all that came due has been given |
| Scheduler.Scheduler.Stop | internal/scheduler/scheduler.go:118-123 | at the end of a run given slots and due slots are the same |
| Scheduler.Scheduler.UpdateInterval | internal/scheduler/scheduler.go:58-75 | coalesces a positive interval of a known target until the next wake |
| Scheduler.ChangedDeadline | internal/scheduler/scheduler.go:190-205 | under a new cadence the deadline is an interval after the last accepted job, or now if that is over; a target never served keeps an earlier deadline when it gets faster and waits a full interval otherwise |
| Scheduler.ChangedLater | internal/scheduler/scheduler.go:190-205 | a target with a job just accepted is not due again at once under its new cadence |
| EventBus.EventBus.Reserve | internal/eventbus/eventbus.go:38-53 | takes a slot for a new live reservation, or ends because the context is done or the bus is closed, whichever is ready; a slot taken on a closed bus is given back |
| EventBus.EventBus.Publish | internal/eventbus/eventbus.go:55-70 | publishes at once, without waiting, unless the reservation was used before or the bus is closed; the slot goes with the event or is given back |
| EventBus.EventBus.Cancel | internal/eventbus/eventbus.go:72-74 | gives the slot of an unused reservation back, once |
| EventBus.EventBus.Next | internal/eventbus/eventbus.go:84-102 | hands over the oldest event and frees its slot, or ends because the context is done, or, once the queue is empty, because the bus is closed |
| EchoEngine.DrainAccountsIff | internal/echo/engine.go:280-303 | when a drain completes, with failed loops or without, every accepted job has exactly one event and every admitted gap exactly one, if and only if the queues and what failed loops carried are empty |
| EchoEngine.DrainLosesNothing | internal/echo/engine.go:280-303 | a drain in which no loop failed accounts for every job and gap, and the consumer sees the published events in order |
| EchoEngine.BusIsBounded | internal/eventbus/eventbus.go:38-102 | slots are live reservations plus queued plus in transit, within the capacity, and consumed events are a prefix of the published ones |
| EchoEngine.PublishNeverBlocks | internal/eventbus/eventbus.go:55-70 | whoever holds a reservation finds room in the queue |
| EchoEngine.DrainGoesOn | internal/echo/engine.go:283-303 | a drain is never stuck while the bus is open and nobody fails |
| EchoEngine.StepKeeps | internal/echo/engine.go:107-278 | every atomic step keeps the invariant |
| EchoEngine.SendJobs | internal/echo/engine.go:201-278 | a step of a send loop moves a job but neither loses nor doubles it; which event it gets is said by `EchoEvents` |
| EchoEvents.EventsTellTheRun | internal/echo/engine.go:201-278 | over every run the event of a job is a probe marked sent or failed exactly as its write ended, to the endpoint it was resolved to and for the target it was submitted for, and a unit gap exactly if it was turned away |
| EchoEvents.WrittenIff | internal/echo/engine.go:256-265 | a job counts as written with an outcome if and only if the run holds a step that wrote it so |
| EchoEvents.QueuesAreFifo | internal/echo/engine.go:201-220 | each send loop takes the jobs of its family one by one in the order of their acceptance |
| EchoEvents.AcceptsIff | internal/echo/engine.go:107-147 | in every run a job is accepted exactly if the inputs have not been closed, its target's endpoint, the last one it was given if any, is valid, its family has a socket that has not failed, and that queue has room |
| EchoEvents.RunTold | internal/echo/engine.go:90-147 | endpoints, failures, closing and the numbers of accepted jobs and gaps are what the steps so far have told the engine |
| EchoEngine.SendFamily | internal/echo/engine.go:234-247 | a send loop only ever handles endpoints of its own address family |
| Buckets.BucketMonotone | internal/histogram/histogram.go:186-197 | a larger value never falls into a lower bucket |
| Buckets.BucketLow | internal/histogram/histogram.go:199-206 | the lower edge of a value's bucket does not exceed the value |
| Buckets.BucketIff | internal/histogram/histogram.go:186-197 | a bucket holds exactly the values between its edges, the last one also everything above |
| Buckets.BinLowIsEdge | internal/histogram/histogram.go:199-206 | values below a bucket's lower edge lie in lower buckets and whole values above it do not |
| Histogram.RankIsLeast | internal/histogram/histogram.go:66-75 | the rank of a quantile is the least one that is at least 1 and the asked proportion of the observations |
| Histogram.RankMonotone | internal/histogram/histogram.go:66-75 | a larger quantile never has a lower rank |
| Histogram.QuantileMonotone | internal/histogram/histogram.go:53-94 | a higher rank never has a lower nearest-rank bucket |
| Histogram.Histogram.Observe | internal/histogram/histogram.go:26-33 | one observation raises one bucket and the count |
| Histogram.Histogram.Merge | internal/histogram/histogram.go:37-45 | merging adds bucket by bucket and the counts |
| Histogram.Histogram.Quantiles | internal/histogram/histogram.go:53-94 | one scan answers every request, in request order, with the value of the least bucket up to which the observations are one at least and make up the asked proportion; a larger quantile never gets a lower bucket |
| Histogram.Histogram.TopBins | internal/histogram/histogram.go:108-123 | the highest qualifying bins, highest first, and whether more were cut off |
| HistogramCodec.Marshal | internal/histogram/histogram.go:125-141 | writes the version, the number of pairs and the pairs in ascending order with delta-coded buckets |
| HistogramCodec.Unmarshal | internal/histogram/histogram.go:143-184 | the decoding loop is the parse, error by error |
| HistogramCodec.VarintDigits | internal/histogram/histogram.go:125-141 | a varint holds the digits of its value to the base 128, lowest first, with all bytes but the last marked |
| HistogramCodec.AcceptedIsStorable | internal/histogram/histogram.go:143-184 | whatever is accepted has positive 64-bit counts in at most 2^20 of the 32-bit buckets |
| HistogramCodec.NothingTrails | internal/histogram/histogram.go:178-184 | an accepted input followed by anything is refused for what trails it |
| HistogramCodec.VarintRoundTrip | internal/histogram/histogram.go:125-184 | a 64-bit number read back from its varint consumes exactly its bytes |
| HistogramCodec.RoundTrip | internal/histogram/histogram.go:125-184 | decoding the encoding of any storable histogram restores its buckets, and its count modulo 2^64, with nothing left over |
| HistogramCodec.AcceptedPairAscendsIff | internal/histogram/histogram.go:160-176 | an accepted pair lies above the one before it if and only if the sum fits 64 bits |
| HistogramCodec.CountIsTotalIff | internal/histogram/histogram.go:143-184 | the total of an accepted input is the sum of its buckets if and only if that sum fits 64 bits and the overwritten counts add up to a multiple of 2^64 |
| HistogramCodec.SmallCountIsTotalIff | internal/histogram/histogram.go:143-184 | while all counts of an accepted input together fit 64 bits, its total is right if and only if no bucket occurs in it twice |
| HistogramCodec.AcceptedAscendsIff | internal/histogram/histogram.go:143-184 | the buckets of an accepted input ascend if and only if none of its distances wrapped, and then its total is their sum modulo 2^64 |
| HistogramCodec.WrappedInputIsAccepted | internal/histogram/histogram.go:171-171 | a whole input that is accepted although a distance wraps to a lower bucket and another returns to the first, whose count is overwritten but stays in the total |
| HistogramCodec.OverfullInputIsAccepted | internal/histogram/histogram.go:175-175 | two ascending buckets with a count of 2^63 each are accepted with a total of 0 |
| TailFlags.MergeObservesBoth | internal/histogram/histogram.go:37-45 | merging histograms gives the histogram of all replies of both |
| TailFlags.Flag | internal/store/sqlite/query.go:846-856 | the walk flags a bin exactly if no more replies lie in it and above it than were late and, with mixed timeouts, its lower edge exceeds the longest |
| TailFlags.FlagNeverOverclaims | internal/store/sqlite/query.go:833-858 | a flagged bin holds only replies later than their own timeout |
| TailFlags.FlaggedIff | internal/store/sqlite/query.go:846-856 | with one timeout a bin is flagged exactly if every reply in it or above it was late, with several exactly if it lies above the longest |
| BucketFlags.RawHolds | internal/store/sqlite/query.go:583-650 | the histogram and the late tally of a raw scan are those of exactly the replies of the rows in its window, each with its own timeout |
| BucketFlags.FlaggedRowsAreLate | internal/store/sqlite/query.go:833-858 | in a bucket aggregated from raw rows whose late mark means a round trip above the timeout, every row whose reply lies in a flagged bin was late |
| Checksum.PseudoSum | internal/trace/checksum.go:41-72 | the loop sums the words of pseudo header, header and payload modulo 2^32; families must agree |
| Checksum.SumOfParts | internal/trace/checksum.go:41-72 | the sum is that of both addresses, protocol 17, the length twice, both ports and the payload |
| Checksum.SumNeverOverflows | internal/trace/checksum.go:68-71 | for every payload UDP allows the sum stays below 2^32 |
| Checksum.Fold | internal/trace/checksum.go:74-79 | folding terminates with the residue modulo 65535, zero only for zero |
| Checksum.OnesSubtract | internal/trace/checksum.go:81-85 | the one's-complement difference |
| Checksum.UdpChecksum | internal/trace/checksum.go:29-39 | the complement of the sum, all ones instead of zero |
| Checksum.ChecksumFits | internal/trace/checksum.go:29-39 | added to the sum the checksum gives a multiple of 65535, which is what a receiver checks |
| Checksum.Compensates | internal/trace/checksum.go:18-21 | the compensating word brings any positive sum to any non-zero checksum |
| Checksum.ParisPayload | internal/trace/checksum.go:9-27 | succeeds exactly for a non-zero checksum and one address family, with an eight-byte payload whose datagram has that checksum |
| Interfaces.StepKeeps | internal/store/sqlite/events_extra.go:48-178 | every snapshot and reset keeps generations well formed, and a closed one is never reopened nor extended |
| Interfaces.GenerationsStayWellFormed | internal/store/sqlite/events_extra.go:93-178 | in every reachable store at most one generation per name is open and samples of each grow strictly in time and never fall in a counter |
| InterfaceHistory.OpenIsCurrent | internal/store/sqlite/events_extra.go:93-178 | in every reachable store the open generation of a name holds exactly the samples since the last restart, other identity, fallen counter or time that did not advance |
| InterfaceHistory.SampleIsPlaced | internal/store/sqlite/events_extra.go:64-178 | a storable sample that goes on where the current stretch of its name ends joins its generation without a new one or a reset; any other one ends what is open, with its reset, and begins a generation; one too large is refused |
| InterfaceHistory.RestartEnds | internal/store/sqlite/events_extra.go:50-63 | a restart ends what is open under its name with its reset, or is recorded by itself, and begins nothing |
| InterfaceHistory.EveryMinuteIsDirty | internal/store/sqlite/events_extra.go:88-91 | every minute in which a generation has a sample or ended is dirty |
| InterfaceHistory.SamplesAreStored | internal/store/sqlite/events_extra.go:64-91 | the store holds exactly the storable samples it was given, each in a generation of its interface |
| Interfaces.Store.Sampled | internal/store/sqlite/events_extra.go:64-178 | a sample joins the open generation it may follow, or closes what is open under the name and begins another, as the value semantics says of which `InterfaceHistory` tells when it is which |
| Interfaces.Store.Restarted | internal/store/sqlite/events_extra.go:50-63 | a reset closes what is open under the name, records it and marks its last minute |
| Interfaces.RateReaches | internal/store/sqlite/rollup.go:214-223 | a rate of whole bytes per second is reached exactly if so many bytes came in that time |
| Interfaces.AggregateRows | internal/store/sqlite/rollup.go:183-212 | fails exactly when rows do not grow; deltas are last minus first and peaks the highest pair rates |
| Interfaces.LoadRows | internal/store/sqlite/rollup.go:149-181 | the samples of the window led by the last one before it |
| Interfaces.RecomputeMinute | internal/store/sqlite/rollup.go:114-147 | a minute is aggregated exactly once it is over and its generation has gone on or ended; it never fails on a growing generation, deltas, elapsed time and peaks are those of the sample pairs it owns, samples are counted with the one that leads them, and resets are those of its generation in it |
| Interfaces.OwnedByOneMinute | internal/store/sqlite/rollup.go:149-181 | every pair of neighbouring samples belongs to exactly one minute, that of its later sample |
| Interfaces.GainsTelescope | internal/store/sqlite/rollup.go:149-212 | deltas and elapsed times of consecutive minutes add up to those of the whole, from the first sample to the last |
| Interfaces.PeaksCombine | internal/store/sqlite/rollup.go:183-212 | the highest of the peaks of consecutive minutes is the peak of all of them |
| Interfaces.SamplesAddUpIff | internal/store/sqlite/rollup.go:149-181 | the sample counts of neighbouring windows add up if and only if nothing was sampled before the second |
| Routes.RouteSignature | internal/trace/runner.go:303-326 | hops in order with sorted responders, holding exactly the pairs of hop and responder seen |
| Routes.SignatureIsUnique | internal/trace/runner.go:303-326 | two signatures are equal if and only if they hold the same pairs |
| Routes.RouteMeaningfullyDifferent | internal/store/sqlite/events_extra.go:299-335 | true exactly if at some hop both routes have responders and none in common |
| Routes.DifferIff | internal/store/sqlite/events_extra.go:299-335 | two routes differ exactly if at some hop both traces saw responders and none was seen by both |
| RouteChanges.BaselineIsLastReset | internal/store/sqlite/events_extra.go:234-297 | the baseline of a run is the trace of the last change, or the first eligible one since endpoint, method or flow changed |
| RouteChanges.SecondOneConfirms | internal/store/sqlite/events_extra.go:234-297 | after a first trace one that goes elsewhere changes nothing, and the next one that agrees with it records the change |
| RouteChanges.UnfinishedIsIgnored | internal/store/sqlite/events_extra.go:234-237 | a trace that did not complete or found no hop changes nothing |
| RouteChanges.ChangeIffConfirmed | internal/store/sqlite/events_extra.go:234-297 | a change is written exactly when two eligible traces with nothing eligible between agree on a route that differs from the comparable baseline, and it records baseline and both traces |
| RouteChanges.RunTracks | internal/store/sqlite/events_extra.go:234-297 | over every run the candidate is the last eligible trace, exactly while that one differs from the baseline |
| RouteChanges.HalfAtMostConfirm | internal/store/sqlite/events_extra.go:268-296 | confirmations are at most half of the eligible traces other than the one that set the baseline |
| RouteChanges.Detector.UpdateRouteCandidate | internal/store/sqlite/events_extra.go:234-297 | the table row and the list of changes of one target are updated as specified and no other row |

## Left out

- ObsessController.Controller.ObserveReply: the reply time is recorded when the probe settles; each operation reads the clock once.
- The controller's linked FIFO is a sequence instead of next and previous pointers, and the capacity of a history's backing array is left open.
- Targets without a policy, the status snapshot and the interval callback of the controller; a callback is fast on a start and normal on a recovery.
- Floating-point rounding: averages and thresholds are reals, histogram buckets are the exact powers of 1.02, midpoints are a parameter, rates are rounded down exactly.
- Wrap-around of 64-bit totals and sums that are counted in memory; the histogram decoder and the 32-bit checksum are modelled with theirs.
- Overview.QueryRollups: minute rollups only, as the overview uses it; the series queries, their resolution plan, dirty overlay, exact samples and axis rounding are left out. Instants are in microseconds, the overview's own are whole milliseconds.
- Times before 1970, for which truncating and flooring bucket starts differ.
- Writer.Writer.ApplyBatchRecovering: the emergency pruning and checkpoints between attempts, and the timeouts that end the attempts.
- Gap identifiers are never reused in the model; nothing but the delete reads them.
- HourRollups.HoursAreTrue: runs without pruning of minute rollups, whose delete looks at its hour alone, and of hour rollups.
- Expiry of buffered replies after five seconds, which fails the writer; diagnostics other than the two reply counters; endpoint rows, of which only the address is kept.
- Scheduler.Scheduler.SubmitDue: the binary heap of deadlines is a sequence from which an earliest deadline is taken; immediate observation of gaps and the computation of the next wake are left out.
- EchoEngine.BusIsBounded: acquiring a slot and looking whether the bus is closed are one step of a reservation; receivers and other publishers are one anonymous group.
- EventBus.EventBus.Reserve: the wait itself; a call stands for the moment at which one of its cases is ready.
- EventBus.EventBus.Next: the wait itself, as for a reservation.
- The engine is a machine on values instead of goroutines over channels and locks; each step is what runs between two of their operations.
- Payload encoding, sequence exhaustion and contexts appear in the engine only as the failure of a loop.
- Interfaces.Store.Sampled: samples carry no generation of their own, as nothing in the repository sets one; the reason of a reset is not kept.
- RouteChanges.Detector.UpdateRouteCandidate: deleting traces that a candidate refers to; a signature is a list of hops instead of its JSON text, and responders are numbered in text order.
- SQLite itself, sockets, name resolution, the HTTP interface, configuration and the web client.
