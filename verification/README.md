# Lymbo: a verified model of the delayed-task queue

Lymbo (package `lymbo`, its orchestrator `Kharon`) keeps tickets that become due at a run time,
hands them to workers under a lease, and lets one ticket, a finalizer, wait for the pending
members of a group. This project models four of its parts in Dafny and proves what they promise.

- **The ticket store** (`StoreSpec`, `MemoryStore`, `TubeSet`). The in-memory store is a class
  over its two maps; each method is proved equal to a function on a plain value `State`. Ties in a
  poll, the order of map iteration and the tickets an expiry picks are left nondeterministic.
- **Runs of the store** (`StoreLaws`, `Runs`, `DependencyGraph`, `Finalizers`, `Polling`). A run is any
  sequence of calls. Over all runs: the graph of finalizers stays acyclic and some pending ticket
  can always run; a finalizer is never returned early; a lease holds; ordered polling starves
  nobody; attempts count polls; only deletes remove a pending ticket.
- **The pusher and the poller's put-back** (`Flush`, `StoppingFlush`, `Pusher`, `FlushOrder`,
  `StoppingOrder`, `Dispatch`, `SavePaths`). Batches are regrouped (deletes first) and flushed by goroutines whose
  store calls interleave; polled tickets are filtered in place and some put back. Each is compared
  with applying the messages one by one, and where the two can differ the exact condition is proved.
- **Statistics, backoff, lifecycle** (`Histogram`, `NativeHistogram`, `ClassicHistogram`,
  `Powers`, `Backoff`, `RunStop`). The histogram window refines the multiset of observations, the
  native export round-trips and is canonical, the exponent clamp is exact and least, and Run/Stop
  is a protocol between any number of callers.

Time is an integer number of nanoseconds and the clock is a parameter; each update carries the
reading at which the store comes to it. Real powers and logarithms are exact (`Powers`).
`dafny verify dfyconfig.toml` checks everything.

## Where the code departs from what it promises

The model follows the code. Each departure below has a lemma with the exact condition, or with the
inputs that show it.

- `Update` can take a blocker out of pending without releasing its finalizer
  (`store/memory/memory.go:181-196`, against 170-175). The graph stays sound exactly when it does
  not (`SoundStepIff`); otherwise expiry and resubmission close a cycle (`StrandingUpdateDeadlocks`).
- Expiry leaves dep sets behind (`store/memory/memory.go:309-310`), so a resubmitted finalizer of an
  empty group is not always immediately eligible, as the repository's own `README.md:251` says. It
  is exactly when it is due, in a requested tube, and what earlier submissions under its id captured
  has been released (`FinalizerEligibleAtOnceIff`, `ExpiredFinalizerStaysBlocked`).
- The memory store stops a batch at the first missing id (`store/memory/memory.go:161-164`) where
  Postgres passes over it. A flush loses updates unless no live update stands behind a missing one
  (`StoppingFlushIsSequentialIff`).
- The memory store hands out copies made before the lease (`store/memory/memory.go:260-272`) where
  Postgres returns the leased tickets. Kharon takes the run time it is handed as the deadline of the
  handler (`kharon.go:792`), so over the memory store that deadline has always passed
  (`HandedDeadlinePassed`).
- Flushes run concurrently (`kharon.go:553`), so two flushes updating the same ticket can take effect
  in either order. Over a store that passes over missing ids they are harmless, whatever the schedule,
  the tickets and the contents, exactly when no live ticket is updated by two batches
  (`AsyncFlushesAreSequentialIff`), and over the memory store exactly when moreover each batch has the
  updates of live tickets before the others (`AsyncStoppingFlushesAreSequentialIff`). A given schedule
  is harmless exactly when it is ordered (`InterleavingIsSequentialIff`) and, over the memory store, no
  update of a surviving ticket stands behind one whose ticket is missing by then
  (`StoppingInterleavingIsSequentialIff`).
- The put-back of polled tickets (`kharon.go:738`) goes the same way: if another caller deleted one of
  them since the poll, the memory store drops the put-backs behind it, those tickets stay leased, and
  only a warning is logged (`PutBackAfterDeletesIff`).
- `save` drops `resetAttempts` on the update-set path and `beforeUpdate` ignores jitter
  (`kharon.go:107-192`); the two paths agree exactly when neither matters (`SameTicketIff`,
  `SameDepsIff`, `RestartKeepsAttempts`). No lifecycle call adds an attempt, although the repository's `README.md:130`
  says Retry does: only polls do (`AttemptsCountPolls`).
- SQL clips a negative TTR or jitter to zero and Go does not, and SQL adds before anything is rounded
  where Go first drops the fraction of the delay. The delays are equal exactly when the extra delay is
  not negative and carries no negative fraction of a nanosecond across zero (`SqlDelayMatchesMemoryIff`).
- The exponent sent to SQL is capped at the largest int32 for any base of one or below
  (`kharon.go:152-154`). From a base of -1 on that is harmless; a number format holds every clamped
  power of a base below -1 exactly when it holds the one with the largest int32 as its exponent
  (`ClampedPowerBoundedIff`).

## Model

| member | source | states |
|---|---|---|
| MemoryStore.Store.constructor | store/memory/memory.go:26-31 | a new store is empty |
| MemoryStore.Store.Get | store/memory/memory.go:34-43 | the stored ticket, or not found |
| MemoryStore.Store.Put | store/memory/memory.go:46-58 | stores the ticket as pending under its id and leaves dep sets alone; an empty id is an error |
| MemoryStore.Store.Delete | store/memory/memory.go:61-68 | the ticket, its dep set and its place in every other dep set are gone |
| MemoryStore.Store.RemoveDep | store/memory/memory.go:70-77 | the id leaves every dep set and its own set is dropped, in any visiting order |
| MemoryStore.Store.PutAfterGroup | store/memory/memory.go:80-110 | a no-op on a stored id; otherwise the ticket is stored as pending and gains exactly the pending members of the group as blockers, whatever order they are scanned in |
| MemoryStore.Store.DeleteBatch | store/memory/memory.go:112-125 | the tickets deleted and what is reported about them |
| Runs.DeleteBatchEffect | store/memory/memory.go:112-125 | exactly the listed tickets go, the rest are untouched |
| Runs.DeleteReports | store/memory/memory.go:116-124 | the report names exactly the stored tickets of the batch as they were before |
| MemoryStore.Overwrite | store/memory/memory.go:127-153 | field-by-field overwriting equals one simultaneous update; a backoff wins over an explicit run time |
| MemoryStore.Store.UpdateBatch | store/memory/memory.go:155-179 | the updates up to the first missing id are applied and kept, terminal tickets leave every dep set, and the error is returned exactly when some id was missing |
| MemoryStore.StopsAtMissing | store/memory/memory.go:160-164 | nothing behind the first missing id is applied |
| MemoryStore.Store.Update | store/memory/memory.go:181-196 | stores what the function returns under the key asked for, or nothing on either error |
| MemoryStore.Store.PollPending | store/memory/memory.go:200-273 | the outcome is a valid top-limit selection, leased and handed out as copies made before the lease; invalid limits fail and an empty tube list changes nothing |
| MemoryStore.Store.Collect | store/memory/memory.go:222-243 | exactly the pending, due, unblocked tickets in a requested tube are gathered, each once |
| MemoryStore.SortReady | store/memory/memory.go:249-255 | a permutation sorted by run time and nice, ties in any order |
| MemoryStore.TopOfSorted | store/memory/memory.go:249-257 | the first min(limit, n) of all eligible tickets in poll order form a top selection |
| MemoryStore.Store.Lease | store/memory/memory.go:259-268 | each chosen ticket is stored with its bumped run time and attempts, and handed out without them |
| MemoryStore.TubeNames | store/memory/memory.go:212-217 | the sorted, compacted names are strictly ascending and name exactly the requested tubes |
| TubeSet.Sort | store/memory/memory.go:216 | a sorted permutation of the names |
| TubeSet.Compact | store/memory/memory.go:217 | strictly ascending, same names |
| TubeSet.BinarySearch | store/memory/memory.go:233-235 | finds a name exactly when it is there |
| MemoryStore.Store.CountPendingInGroup | store/memory/memory.go:276-287 | the number of pending members of the group |
| MemoryStore.Store.ExpireTickets | store/memory/memory.go:291-314 | removes min(limit, expirable) expired non-pending tickets (all, for a negative limit), any of them, reports each and leaves dep sets alone |
| Runs.PollEffect | store/memory/memory.go:260-268 | in a store keyed by id a poll rewrites exactly the tickets it hands out and no dep set |
| Runs.KeyedAlong | store/memory/memory.go:20 | every ticket stays stored under its own id over every run whose update functions keep ids |
| StoreLaws.PutStores | store/memory/memory.go:46-58 | for every store, a put stores its ticket as pending, over one of the same id if there is one, and touches nothing else |
| StoreLaws.RejectedPutsChangeNothing | store/memory/memory.go:47-91 | without an id, or for a finalizer that is stored already, nothing changes |
| StoreLaws.PutAfterGroupStores | store/memory/memory.go:93-107 | a new finalizer is stored as pending and gains as blockers exactly the other stored tickets that are pending and in the group; tickets and dep sets of others are untouched |
| StoreLaws.GroupMembersIff | store/memory/memory.go:281-285 | the members counted are the stored tickets that are pending and carry the group; one without a group is in none |
| StoreLaws.DeleteRemoves | store/memory/memory.go:61-77 | the ticket and its dep set go, and its id leaves every other dep set |
| StoreLaws.DeleteBatchRemovesDeps | store/memory/memory.go:112-125 | a batch does so for its stored ids and leaves all other dep sets and their other members alone |
| StoreLaws.DeleteReportsInOrder | store/memory/memory.go:116-124 | the report has one entry for each stored id, in the order of first mention |
| StoreLaws.UpdateSetsFields | store/memory/memory.go:127-176 | given fields are overwritten and others kept; the run time is the clock reading plus backoff and jitter, else the one asked for; only a terminal ticket leaves the dep sets |
| StoreLaws.UpdateReports | store/memory/memory.go:159-168 | entry i of the report describes the ticket as update i left it |
| StoreLaws.UpdateStores | store/memory/memory.go:181-196 | the stored ticket becomes what the function returns for it, and stays on an error |
| StoreLaws.ExpiryTakes | store/memory/memory.go:291-314 | only tickets that are not pending and whose run time has come go, limit of them if there are as many, all for a negative limit |
| StoreLaws.AppearsExactlyBy | store/memory/memory.go:46-314 | over every call a ticket appears exactly by a submission under its id, as submitted but pending |
| StoreLaws.ChangesOnlyBy | store/memory/memory.go:46-314 | over every call a ticket that stays changes only if the call names it or hands it out |
| Polling.PollSelectsTop | store/memory/memory.go:200-273 | the result has min(limit, eligible) distinct eligible tickets in poll order, none after an eligible one left out; everything else is unchanged |
| Polling.PollOrder | store/memory/memory.go:222-257 | in tickets and dep sets only: those handed out are ready, earliest first and at the same time lowest nice first, limit of them or all, and a ready one left out is behind them all |
| Polling.PicksAgreeUpToTies | store/memory/memory.go:249-257 | any two possible answers to a poll agree place by place on run time and nice |
| Polling.HandedDeadlinePassed | store/memory/memory.go:260-272 | a returned ticket carries its run time from before the lease, which has passed, while the stored one runs at the poll plus backoff plus TTR and has one attempt more |
| DependencyGraph.SoundStepIff | store/memory/memory.go:46-314 | whatever ids the tickets carry, a step keeps the graph ranked and pointing at stored pending tickets exactly when it is not an Update that takes a blocker out of pending |
| DependencyGraph.UpdateSoundIff | store/memory/memory.go:181-196 | the same condition for Update itself |
| Runs.KeyedStepIff | store/memory/memory.go:46-314 | keys and ids go on agreeing over a step exactly when it is not an Update that changes the id |
| DependencyGraph.WiringKeepsRank | store/memory/memory.go:96-107 | new edges from an id that nothing waits for close no cycle |
| DependencyGraph.RankedIsAcyclic | store/memory/memory.go:20 | a ranked graph has no closed walk |
| DependencyGraph.NoDeadlock | store/memory/memory.go:46-314 | in every state reached by tame updates the graph is acyclic, blockers are pending, and if anything is pending something pending is unblocked |
| DependencyGraph.PollMakesProgress | store/memory/memory.go:222-247 | a late enough poll for the right tubes then returns a ticket |
| DependencyGraph.StrandingUpdateDeadlocks | store/memory/memory.go:181-196 | an Update to Done of a blocker, expiry and resubmission leave two tickets waiting for each other |
| DependencyGraph.ExpiredFinalizerStaysBlocked | store/memory/memory.go:309-310 | a cancelled, expired and resubmitted finalizer of an empty group is still blocked |
| Finalizers.WaitsStep | store/memory/memory.go:72-110 | one call changes what a finalizer waits for exactly by capturing at submission and by releasing on a delete or a terminal batch update |
| Finalizers.WaitsIffHeld | store/memory/memory.go:72-179 | over every run a finalizer waits for a ticket exactly while some submission captured it and nothing released it since |
| Finalizers.UnblockedIffAllReleased | store/memory/memory.go:72-179 | a finalizer is unblocked exactly when everything it ever captured has been released since |
| Finalizers.FinalizerBlockers | store/memory/memory.go:88-107 | a new finalizer waits for the pending members of its group and for what an expired ticket of its id still waited for; a poll can return it at once exactly when it is due, in a requested tube, and both are empty |
| Finalizers.EligibleIffReleased | store/memory/memory.go:223-243 | over every run a poll can return a stored ticket exactly when it is pending, due, in a requested tube, and everything captured for it has been released |
| Finalizers.FinalizerEligibleAtOnceIff | store/memory/memory.go:80-110 | over every run a finalizer just submitted is eligible exactly when it is due, in a requested tube, no group member is pending and earlier captures for its id have been released |
| Finalizers.NeverReleasedEarly | store/memory/memory.go:237-240 | a poll returns a finalizer only after every ticket it captured has been released |
| Polling.LeaseExclusion | store/memory/memory.go:229-268 | two polls return the same ticket at least TTR plus backoff apart when nothing in between reschedules it |
| Polling.NoStarvation | store/memory/memory.go:222-268 | a due unblocked ticket with k pending tickets at or before it is returned once the limits of the polls serving it exceed k, whatever harmless calls come between |
| Polling.BystanderIsHarmless | store/memory/memory.go:46-314 | a call whose arguments show that it names other tickets and puts none at or before t, an expiry, or a poll that does not serve t, leaves t waiting with nothing new ahead |
| Polling.NoStarvationAmongBystanders | store/memory/memory.go:222-268 | so among such calls the polls serving a due unblocked ticket must return it, with no assumption on the states between |
| Polling.ReturnedWithinBound | store/memory/memory.go:249-268 | with one limit that takes floor(k / limit) + 1 polls |
| Polling.AttemptsCountPolls | store/memory/memory.go:260-267 | over every run a ticket's attempts are its first count plus the polls that returned it |
| Polling.RemovedExactlyBy | store/memory/memory.go:291-311 | a ticket disappears exactly by a delete naming it or an expiry picking it, and expiry picks no pending ticket and none that is not due |
| Flush.Split | kharon.go:502-511 | a batch is split into its deletes and its updates, both in order |
| Flush.SplitAppend | kharon.go:505-511 | splitting goes message by message, so both parts keep the order of the batch |
| Flush.TicketAfterAll | store/memory/memory.go:112-179 | applying a message list removes the ids it deletes and folds, into each other ticket, its own updates |
| Flush.DepSetAfterAll | store/memory/memory.go:112-179 | and takes out of the dep sets exactly the deleted tickets and those some update left terminal |
| Flush.SamePerTicketSameState | kharon.go:502-548 | lists with the same deletes and, for each live ticket, the same updates in order leave the same store |
| Flush.FlushSkippingIsSequential | kharon.go:488-548 | where missing ids are passed over (store/postgres/postgres.go:421-438), a flush equals its messages one by one, for every batch |
| StoppingFlush.PrefixEndsAtMissing | store/memory/memory.go:160-164 | the updates applied are exactly those before the first missing id |
| StoppingFlush.StoppingFlushIsSequential | kharon.go:518-547 | the memory store's flush is sequential when no live update stands behind an update of a missing or deleted id |
| StoppingFlush.StoppingFlushIsSequentialIff | kharon.go:518-547 | for all tickets and update contents, exactly then |
| Pusher.Pusher.constructor | kharon.go:485 | the batch capacity is twice the number of workers |
| Pusher.Pusher.Flush | kharon.go:488-555 | a flush starts with exactly the batch's deletes and updates and empties the batch; an empty batch starts none |
| Pusher.Pusher.Run | kharon.go:557-573 | the select loop and the final flush produce the batches of the event sequence and leave none behind |
| Pusher.EveryMessageFlushedOnce | kharon.go:557-573 | each received message is in exactly one batch, in order, and no batch exceeds the capacity |
| Pusher.TickFlushesAll | kharon.go:570-571 | once the ticker has fired everything received so far has been flushed |
| Pusher.BatchEnds | kharon.go:565-571 | before the final flush a batch ends only when it is full or at a tick, with everything received until then |
| Pusher.LastBatchEnds | kharon.go:559-564 | the final flush takes what is left, if anything |
| Pusher.InterleavedFlushesAreSequential | kharon.go:513-554 | over a store that passes over missing ids, any interleaving of the store calls of all flushes that keeps the order of flushes updating the same live ticket ends like the messages one by one |
| Pusher.PusherRefinesSequential | kharon.go:475-574 | so the pusher over such a store refines the unbatched queue, each backoff counting from its own clock reading |
| Pusher.DisjointOverlapsAreOrdered | kharon.go:553 | flushes that are in flight together only on disjoint updates satisfy that condition |
| FlushOrder.InterleavingIsSequentialIff | kharon.go:513-554 | for all tickets, update contents and clock readings, a given interleaving over a store that passes over missing ids (store/postgres/postgres.go:421-438) is harmless exactly when its calls are ordered |
| FlushOrder.EveryScheduleOrderedIff | kharon.go:513-554 | every schedule that deletes before it updates is ordered exactly when no live ticket is updated by two batches |
| FlushOrder.AsyncFlushesAreSequentialIff | kharon.go:513-554 | so over such a store asynchronous flushes are harmless, whatever the schedule, tickets and contents, exactly then |
| FlushOrder.InvertedFlushesDiffer | kharon.go:553 | two flushes inverted on a live ticket have contents that end wrong |
| StoppingOrder.UnhinderedStopsLikeSkips | store/memory/memory.go:155-179 | interleaved flushes to the memory store end as if missing ids were passed over when, in each update call, only updates that find their tickets stand in front of an update of a surviving one |
| StoppingOrder.PusherRefinesStopping | kharon.go:475-574 | then, with the calls ordered, the pusher over the memory store refines the unbatched queue |
| StoppingOrder.HinderedFlushLoses | store/memory/memory.go:160-164 | a surviving ticket's update behind a missing one has contents that the memory store loses |
| StoppingOrder.StoppingInterleavingIsSequentialIff | kharon.go:513-554 | for all tickets, contents and clock readings, a given interleaving over the memory store is harmless exactly when its calls are ordered and unhindered |
| StoppingOrder.AsyncStoppingFlushesAreSequentialIff | kharon.go:513-554 | asynchronous flushes to the memory store are harmless, whatever the schedule, tickets and contents, exactly when no live ticket is updated by two batches and each batch has live updates in front |
| Dispatch.FilterInPlace | kharon.go:711-736 | filtering over the backing array leaves the subscribed tickets in order in front and builds put-backs with the original ready times |
| Dispatch.NothingDropped | kharon.go:722-736 | every polled ticket is dispatched or put back, once |
| Dispatch.FilterAppend | kharon.go:717-736 | filtering goes ticket by ticket, so dispatch and put-back keep the order of the poll |
| Dispatch.PutBackAt | kharon.go:732-738 | a put-back changes the run time of its tickets and nothing else |
| Dispatch.PutBackRestores | kharon.go:673-742 | after a poll and its put-back an unsubscribed ticket has its old run time and only attempts and ready time changed; the others are leased or untouched |
| Dispatch.PutBackLater | kharon.go:736-740 | at any later store the put-backs in front of the first missing ticket take effect and no other ticket changes |
| Dispatch.AllReturnedIff | kharon.go:736-740 | every stored ticket put back runs at its ready time again exactly when those behind a missing one already do |
| Dispatch.PutBackAfterDeletesIff | kharon.go:736-740 | with tickets deleted between poll and put-back, none of the others stays leased exactly when none stands behind a deleted one |
| SavePaths.BeforeUpdate | kharon.go:107-149 | the options are applied field by field before the caller's edit, the delay from the attempts before a reset |
| SavePaths.DelayBeforeReset | kharon.go:111-137 | a backoff counts the attempts made so far even when the same call resets them |
| SavePaths.SaveSetServesSql | kharon.go:177-188 | from the set that save builds, its cap included, the SQL update computes the run time of the memory store, under the exact condition |
| SavePaths.SameTicketIff | kharon.go:161-192 | the two save paths, each at its own clock readings, store the same ticket exactly when no reset is at stake and the delays count from the same instant, jitter included |
| SavePaths.SameDepsIff | store/memory/memory.go:170-196 | they leave the same dep sets exactly when the ticket ends pending or nobody waits for it |
| SavePaths.RestartKeepsAttempts | kharon.go:264-271 | Restart resets attempts on one path and keeps them on the other |
| Backoff.ClampExact | store/postgres/postgres.go:456-464 | capping the exponent never changes the delay |
| Backoff.BackoffDelayCapped | store/memory/memory.go:262-263 | a delay is the power in whole nanoseconds below the maximum, and the maximum from there |
| Backoff.BackoffDelayGrows | store/memory/memory.go:262-263 | more attempts never shorten the delay |
| Backoff.ClampedPowerBoundedIff | store/postgres/template.go:123 | a limit that holds 1 and base * maxDelay holds the size of every clamped power exactly when the base is at least -1 or the limit holds the power with the largest int32 as its exponent |
| Backoff.ClampIsLeast | kharon.go:151-159 | any smaller cap shortens the delay of some attempt |
| Backoff.CeilLog | kharon.go:158 | the cap is the least integer exponent that reaches the delay |
| Backoff.SqlDelayMatchesMemoryIff | store/postgres/template.go:112-123 | for every base and maximum delay, SQL and Go delays are the same nanoseconds exactly when the extra delay is not negative and carries no negative fraction across zero |
| Backoff.SqlPollDelayMatchesMemory | store/postgres/template.go:131-157 | with whole seconds the poll query leases as long as the memory store |
| Histogram.MapToIndex | stats/hist.go:76-79 | the bucket index is the exact floor of log2(seconds) * 2^scale |
| Histogram.IndexHalves | stats/hist.go:76-79 | one scale up each bucket is cut in two: halving an index gives the index of the scale below |
| Histogram.IndexAtZero | stats/hist.go:76-79 | at scale 0 an index is the floor of log2(seconds) |
| Histogram.Recorder.RecordDuration | stats/hist.go:52-74 | negatives are ignored, zeros counted apart, the rest put in their bucket; sum and extremes follow |
| Histogram.SumAndExtremes | stats/hist.go:58-65 | after any recordings the sum is that of the durations recorded, the extremes are the least and the greatest of them, and the mean lies between |
| Histogram.Recorder.Increment | stats/hist.go:81-106 | the window grows at either end by exactly what the new index needs |
| Histogram.WindowCountsObservations | stats/hist.go:52-106 | after any recordings each bucket holds the number of durations mapped to it, the window is tight and the counts add up |
| Histogram.IndexBounded | stats/hist.go:76-79 | at scale 2 every positive int64 duration maps to [-120, 132] |
| Histogram.WindowBounded | stats/stats.go:63-64 | so the window never exceeds 253 buckets in any run |
| Histogram.WindowBoundReached | stats/hist.go:91-102 | and two durations reach 253 |
| NativeHistogram.NonEmptyIff | stats/hist.go:170-179 | the collected buckets are exactly the non-empty ones at offset + i + 1 |
| NativeHistogram.ToPromNative | stats/hist.go:143-223 | reading spans and deltas back gives the non-empty buckets, lengths match deltas, runs are maximal, count and sum are kept, and only a scale outside [-4, 8] fails |
| NativeHistogram.EncodeRuns | stats/hist.go:186-220 | the same for the run-length loops, for all uint64 counts |
| NativeHistogram.DeltaReaches | stats/hist.go:212-216 | an int64 delta takes the reader from one uint64 count to the next, and is the plain difference below 2^63 |
| NativeHistogram.MaximalUnique | stats/hist.go:191-210 | only one maximal span list covers given buckets, so the export is canonical |
| NativeHistogram.ReadBackTotal | stats/hist.go:148-155 | the buckets read back and the zero bucket add up to the count |
| NativeHistogram.ReadBackObservations | stats/hist.go:170-220 | a bucket is read back exactly with the number of durations mapped below its upper bound index |
| ClassicHistogram.EmitHistogram | prometheus/prometheus.go:119-137 | one cumulative bucket per window position, none for an empty histogram |
| ClassicHistogram.ClassicIsNativePrefix | prometheus/prometheus.go:127-132 | a classic bucket is the sum of the native ones up to its bound |
| ClassicHistogram.ExportsAgree | prometheus/prometheus.go:119-137 | for any recordings both exports agree, never decrease, and end at the count without zeros |
| RunStop.SafeStep | kharon.go:376-454 | every step of the protocol keeps its invariant |
| RunStop.RegisterIff | kharon.go:380-388 | a first call of Run takes the instance exactly when no run is registered and is rejected otherwise, leaving the fields as they are |
| RunStop.FreeInstanceStarts | kharon.go:376-426 | whenever no call owns the instance, at the beginning or after any runs, a fresh call can register, start all goroutines and poll in goroutines + 2 steps of its own |
| RunStop.GoroutinesAccounted | kharon.go:399-429 | over every run, the goroutines started and exited and the poller's return are what the stage of the call says |
| RunStop.ClosedMeansAllReturned | kharon.go:390-429 | a closed done channel means the poller and every goroutine was started and has returned |
| RunStop.CancelledIff | kharon.go:376-446 | a run's context is cancelled exactly when its parent was, a Stop that read it cancelled it, it was rejected or it ended |
| RunStop.ReturnsOnlyCancelled | kharon.go:399-426 | a goroutine or the poller returns only once the run is cancelled |
| RunStop.ReturnsOnceCancelled | kharon.go:376-426 | the parent can cancel at any time; from then on, and not before, each live goroutine and the poller can return, at any stage |
| RunStop.StopCanReturn | kharon.go:436-454 | a Stop is never stuck; it returns nil exactly when it saw no run or the run it saw has closed, and an error only if it saw one |
| RunStop.OneRunAlive | kharon.go:380-397 | at most one call of Run is starting, polling or draining, both shared fields are its own, and no other has live goroutines |
| RunStop.ClosedOnceAfterExit | kharon.go:390-397 | a done channel is closed at most once and only when its poller and its goroutines are gone |
| RunStop.StopNilMeansEnded | kharon.go:436-454 | a Stop that returned nil saw no run, with nothing polling or alive, or a run that has ended |
| RunStop.CancelledRunCanStep | kharon.go:422-429 | a cancelled run always has a next step of its own |
| RunStop.CancelledRunEnds | kharon.go:422-429 | each such step brings it closer to closing and nobody else's step takes it back |
| RunStop.StopReleasedWithin | kharon.go:448-450 | a run awaited by a Stop is closed within 2 * goroutines + 6 of its own steps |

## Left out

- MemoryStore.SortReady: `sort.Slice` is a library call, so the method is any selection sort with free choice among ties; `TubeSet` likewise stands for `slices.Sort`, `Compact` and `BinarySearch`.
- MemoryStore.Overwrite: tickets are values, so `updateOne` and `beforeUpdate` writing through a pointer to a local copy become updates of a local variable.
- MemoryStore.Store.Update: an edit function is a total pure function of the ticket; one that fails half way or has side effects elsewhere is not captured.
- Histogram.MapToIndex: rounding in `math.Log2`, `math.Pow` and `math.Log` is not modelled; reals are exact. Indices are unbounded integers, which `IndexBounded` shows harmless at the scale in use.
- Backoff.ClampMaxAttempts: a base so close to 1 that the exponent overflows int32 is not modelled, nor the truncation of seconds to int32.
- Backoff.SqlDelay: Postgres intervals hold microseconds, so its delay is rounded to them; the model keeps the exact number of seconds.
- Pusher.Pusher.Run: messages still in the channel when the context ends are not flushed by the source and are not counted as received here.
- RunStop.CancelledRunEnds: goroutines are assumed to notice a cancelled context; handlers that never return are not modelled.
- The zero value of the status type, which is none of the four named ones, and negative attempts.
- The histogram's timestamps, rounding in its sum and uint64 overflow of its counters.
- Statistics counters, the attribution of intents on flush, observers, routers, settings, marshalling and HTTP code.
- Postgres itself: queries, transactions and row scanning. Only its delay arithmetic and its passing over missing ids are used.
- Poll pacing, rate limiting, timers, contexts with deadlines and logging.
- Kharon's thin calls around the store (Put options, Ack, Done, Fail, Cancel, subscriptions).
