# smppd: a verified model of its state machines

smppd is an SMPP proxy. ESMEs bind and submit messages; an event pipeline
filters, routes and forwards them to upstream clusters and answers each submit;
stores, a scheduler, load balancers, a firewall, call detail records, a rate
limiter and circuit breakers stand around it. This project models the parts
whose guarantees only hold over whole runs, and proves those guarantees for all
inputs, all interleavings and all runs. `dafny verify dfyconfig.toml` checks
everything.

How it is laid out, one module per file:

- `Events`, `Pipeline`, `PipelineInvariant`, `PipelineLiveness`,
  `PipelineTraffic`, `PipelineAnswers`, `Forwarder`, `Processors`: the broadcast
  bus as a sequence with one cursor per processor, forwarding tasks as automata,
  every publish a step of its own. The runs contain every interleaving of
  processors, tasks and sessions.
- `Session`, `SessionService`, `SessionObject`: one SMPP session;
  `initiate_close` may run between any two reads or writes of the shared
  connection.
- `PersistentStore`, `PersistentRuns`, `PersistentCrashes`, `PersistentEffects`,
  `PersistentStorage`: partitions as maps with their string keys, every partition
  write a step, so that a crash is a prefix of writes.
- `MemoryStore`, `MemoryStorage`, `Feedback`: the in-memory backend and the
  latency statistics of both backends.
- `Scheduler`, `SchedulerDelivery`, `SchedulerObject`: the drained and refilled
  queue.
- `HashRing`, `LeastConn`, `WeightedSplit`, `Routing`, `Router`: selection.
- `Firewall`, `FirewallLeaves`, `FirewallEngine`, `FirewallRates`,
  `FirewallRateRuns`, `FirewallRateConfigs`: conditions, chains, and the shared
  rate counters over whole runs and for whole configurations.
- `Csv`, `TokenBucket`, `Breaker`, and `Decimal`, `Arithmetic`, `StableSort`,
  `Messages`, `Wrappers` below them.

Most parts come twice: as values and steps, over which runs are stated, and as
classes whose methods change fields in place like the source and are proved to
take exactly those steps. Regular expressions, hashes, clocks, random draws,
address parsing and upstream replies are parameters. Iteration orders that the
source leaves open (hash maps, draining a heap, partition scans) are arbitrary
enumerations passed in. Machine integers are unbounded except where a property
is about their width (the split counter, 64-bit ids, the byte counter).

Where the code and its own words disagree, the model follows the code:

- The envelope and the stored message draw different ids, so the branch of the
  forwarder that schedules a retry and still answers success can never be taken
  (`PipelineInvariant.RetryAnswerUnreachable`).
- A firewall `Modify` action is announced as changing message fields, but its
  result is passed over like `Continue` (`FirewallEngine.DecisionIsTerminal`).
- CSV quoting leaves a carriage return bare, which a strict reader of section 2
  of RFC 4180 refuses (`Csv.StrictRoundTripIff`, `Csv.ReturnIsLost`).
- A per-ESME schedule limit of zero still admits an ESME's first schedule
  (`Scheduler.ZeroLimitAdmits`); every run keeps the configured limit if and only
  if it is at least one or the whole queue's limit is zero
  (`Scheduler.EsmeLimitHoldsIff`).
- Splits drift at the turnover of the 32-bit counter: all splits of a total are
  fair over a cycle if and only if the cycle does not cross a multiple of 2^32 or
  the total divides 2^32 (`WeightedSplit.AllFairIffAligned`,
  `WeightedSplit.TurnoverIsUnfair`); one split is fair if and only if each of its
  shares gains there as many points as it loses
  (`WeightedSplit.FairIffSharesBreakEven`).
- All rate conditions on one rate key share a counter per value, whatever their
  windows, so a condition with a shorter window starts the others' windows anew.
  With one rule per condition, a limit of two per hundred ticks behind one of two
  per tick admits all of a hundred messages sent a tick apart
  (`FirewallRateConfigs.SharedKeyBreaks`), and no number bounds what such a limit
  admits within its window (`FirewallRateConfigs.PairHasNoBound`). Call a
  condition protected if its threshold is at most one or no condition on its key
  has a shorter window, except that with a threshold of two a nonempty window one
  tick shorter does no harm. Over all orders of checks that the conditions on a
  key can make, a condition keeps below twice its threshold in every stretch
  shorter than its window if and only if it is protected
  (`FirewallRates.BoundedIffProtected`). For a configuration, protection is always
  enough (`FirewallRateConfigs.ProtectedIsBounded`), and it is exact for any
  conditions whose check the message selects
  (`FirewallRateConfigs.SelectedIsBoundedIffProtected`); other rules may make
  fewer orders of checks, and then an unprotected condition can be bounded too, as
  one is behind a guard of about its own threshold
  (`FirewallRateConfigs.GuardedIsBounded`).
- A crash between the writes for one message leaves that message out of the state
  index (`PersistentCrashes.CrashLosesEntryIff`).

## Model

| member | source | states |
|---|---|---|
| `PipelineInvariant.StepKeepsInv` | src/pipeline/forwarder.rs:43-244 | every step of every processor, task and session keeps the whole pipeline invariant |
| `PipelineInvariant.Conservation` | src/pipeline/filter.rs:46-108 | from a start over any reopened store, in every interleaving, each (session, sequence) pair was submitted as often as it was answered plus as it is still inside a stage, and every answer read was sent or dropped |
| `PipelineInvariant.RetryAnswerUnreachable` | src/pipeline/forwarder.rs:190-244 | whatever the reopened store held, no envelope id is ever a stored id, so the retry answer is never enabled |
| `PipelineInvariant.SuccessFollowsDelivery` | src/pipeline/forwarder.rs:125-165 | every success answer comes after a delivery event for the same session, sequence and upstream id |
| `PipelineInvariant.RunKeepsChannels` | src/listener/registry.rs:80-115 | no session's channel ever exceeds its capacity or holds another session's response |
| `PipelineLiveness.StepDecreases` | src/pipeline/forwarder.rs:43-244 | every step of a processor or task strictly decreases a lexicographic measure |
| `PipelineLiveness.NeverStuck` | src/pipeline/forwarder.rs:43-90 | with a forwarding permit, some step is enabled until all is read and published |
| `PipelineLiveness.RestIsComplete` | src/pipeline/response.rs:27-59 | at rest each pair has been answered exactly as often as it was submitted |
| `PipelineLiveness.EverySubmitIsAnswered` | src/pipeline/router.rs:47-123 | after any run, while sessions come, go and read and other messages are stored, every behaviour without further publishes from outside comes to rest for good, with each submit answered exactly once |
| `PipelineTraffic.SubmitsAreAnsweredUnderTraffic` | src/pipeline/forwarder.rs:43-244 | while sessions go on submitting and others publishing: if each busy processor and the oldest task keep getting turns, for every moment and pair there is a later moment by which the pair's answers handed to the registry are as many as its submits had been, and never more than its submits |
| `PipelineTraffic.FlowsLater` | src/pipeline/filter.rs:46-108 | over any run the answers of the filter, of the router and of finished tasks only grow |
| `PipelineTraffic.ForwarderCatchesUp` | src/pipeline/forwarder.rs:43-90 | a forwarder that waits for a permit gets past any published event, since the tasks in its way finish |
| `PipelineTraffic.TasksFinish` | src/pipeline/forwarder.rs:92-244 | the running tasks finish however many new ones are started behind them |
| `PipelineAnswers.EveryEventIsGrounded` | src/pipeline/forwarder.rs:92-244 | in every run: only submits with both addresses are accepted and only others rejected, with that check's status; a message is routed as the table said; its n-th attempt goes to the n-th of primary and fallbacks; a success carries the id an upstream gave, and an error the status of the failed check, of the missing route, or of the last cluster's refusal, 0x58 if that had none |
| `Forwarder.ForwardMessage` | src/pipeline/forwarder.rs:92-244 | one attempt per cluster, primary first, up to the first acceptance, whose id the success answer carries; if all refuse, the failure and the answer carry the last refusal's status, or 0x58 if it had none, unless a retry is scheduled |
| `Forwarder.AutomatonMatchesLoop` | src/pipeline/forwarder.rs:92-244 | the interleaved task automaton publishes exactly what the loop publishes |
| `Processors.Bus.Publish` | src/bootstrap/events.rs:471-487 | the event reaches every subscriber, or is dropped and counted when there is none; totals, drops and per-category counts stay exact |
| `Processors.FilteredSubscription.TryRecv` | src/bootstrap/events.rs:581-588 | returns the next wanted event, skipping none, and nothing only when none is left |
| `Processors.ProcessMessage` | src/pipeline/filter.rs:46-85 | publishes exactly the filter's reaction: rejection and error answer, or acceptance |
| `Processors.RejectMessage` | src/pipeline/filter.rs:87-108 | publishes the rejection and then the error answer for the same envelope |
| `Processors.RouteMessage` | src/pipeline/router.rs:67-123 | publishes the routed event, or the failure and the error answer |
| `Processors.SessionRegistry.Register` | src/listener/registry.rs:43-61 | is the registration step of the pipeline: an empty channel with its receiver, no other channel touched |
| `Processors.SessionRegistry.Unregister` | src/listener/registry.rs:72-77 | is the unregistration step of the pipeline |
| `Processors.SessionRegistry.SendResponse` | src/listener/registry.rs:80-115 | the response goes to its own session's channel if that is registered, still has its receiver and is not full, and nowhere else |
| `Processors.Respond` | src/pipeline/response.rs:27-59 | one event through the registry is the responder step of the pipeline |
| `Session.StepKeepsInv` | src/listener/session.rs:288-369 | every step of a session, and a close at any point, keeps the session invariant |
| `Session.PublishesOnlyWhileBound` | src/listener/session.rs:762-801 | in every run each publish follows the one successful, authorized bind in a sending role, carries its system id and this session's id, and precedes any unbind |
| `Session.SessionBounds` | src/listener/session.rs:187-258 | at most one bind, at most one publish after a close request, and no pending sequence number reused |
| `SessionService.ConnectionIsInRole` | src/listener/session.rs:470-470 | in every run, until a close or unbind, the connection is open before the bind and then in the state of its role |
| `SessionService.SubmitIsPublishedIff` | src/listener/session.rs:342-349 | in every run, a submit frame handled without interference on a session nobody closed or unbound is published, with the bound system id, if and only if the session is bound as transmitter or transceiver |
| `SessionService.BindIsAcceptedIff` | src/listener/session.rs:372-484 | in every run, such a bind frame binds if and only if the session is unbound and the credentials are valid, enabled and allow kind and peer |
| `SessionService.UnbindCloses` | src/listener/session.rs:717-737 | in every run, such an unbind frame closes a bound session and leaves an unbound one open |
| `SessionService.IdleIsProbedIff` | src/listener/session.rs:226-236 | in every run, an idle session asks its peer under a fresh sequence number if it is bound, and stops if it is not |
| `SessionService.CloseIsHonoured` | src/listener/session.rs:194-199 | in every run in which a close was requested, the session stops at the top of its loop and publishes nothing more |
| `SessionObject.SmppSession.HandleBind` | src/listener/session.rs:372-484 | binds, under the given system id and into the state of its role, if and only if the credentials are valid, enabled and allow the bind type and peer |
| `SessionObject.SmppSession.HandleUnbind` | src/listener/session.rs:717-737 | passes through Unbinding and closes unless the response cannot be sent |
| `SessionObject.SmppSession.HandleSubmitSm` | src/listener/session.rs:762-801 | publishes one envelope with this session, sequence and bound system id |
| `SessionObject.SmppSession.HandlePdu` | src/listener/session.rs:288-369 | a frame handled without interference ends where the step automaton ends; a submit is published if and only if the state is BoundTx or BoundTrx, and a bind sets BoundTx, BoundRx or BoundTrx by its kind |
| `SessionObject.SmppSession.InitiateClose` | src/listener/connection.rs:244-247 | sets the flag and closes, which are the two steps of a close in the automaton |
| `SessionObject.SubmitAfterBind` | src/listener/session.rs:288-369 | binding an open session and then submitting publishes the message if and only if the bind is admitted and not for receiving only |
| `SessionObject.SmppSession.RunLoop` | src/listener/session.rs:187-258 | the loop over any inputs is a run of the step automaton |
| `PersistentStore.MessageKeyInjective` | src/store/persistent.rs:216-258 | message keys name one id |
| `PersistentStore.StateKeyExact` | src/store/persistent.rs:316-340 | a state's prefix scan sees that state's entries only; a key names one state and one id |
| `PersistentStore.SafePrefix` | src/store/persistent.rs:216-258 | safe writes leave no wrong index entry after any prefix |
| `PersistentStore.ExpireExact` | src/store/persistent.rs:473-497 | expiry rewrites exactly the due messages it scans |
| `PersistentStore.PruneExact` | src/store/persistent.rs:499-530 | pruning removes exactly the terminal messages it scans that were last updated more than the age ago, and touches no other |
| `PersistentRuns.IndexNeverWrong` | src/store/persistent.rs:383-423 | over every run with crashes and reopenings, and after every single write, each index entry names a stored message in exactly that state |
| `PersistentRuns.IndexIsRebuilt` | src/store/persistent.rs:383-423 | between operations of a crash-free run the index equals the one rebuilt from the messages |
| `PersistentCrashes.UpdateCrash` | src/store/persistent.rs:395-413 | a crashed update leaves the index incomplete if and only if the state changed and some but not all writes happened |
| `PersistentCrashes.CrashLosesEntryIff` | src/store/persistent.rs:383-530 | for every operation: a crash leaves some message out of the index if and only if it falls between the writes for one message (never in an update that keeps the state) |
| `PersistentRuns.RecoveredCounterIsFresh` | src/store/persistent.rs:171-203 | the recovered counter exceeds every stored id |
| `PersistentEffects.StoredIsLoaded` | src/store/persistent.rs:216-314 | in every run, a stored message is loaded as it was stored, but for its event count, retry time and update time, and no other changes |
| `PersistentEffects.UpdatedIsLoaded` | src/store/persistent.rs:395-413 | in every run, what an update makes of a known message is what is loaded afterwards, and no other changes |
| `PersistentEffects.ExpiryIsExact` | src/store/persistent.rs:473-497 | in every run, expiry turns exactly the Pending messages created more than the time to live ago into Expired ones |
| `PersistentEffects.PruningIsExact` | src/store/persistent.rs:499-530 | in every run, pruning removes exactly the Delivered, Failed and Expired messages last updated more than the given age ago |
| `PersistentEffects.DeletionIsExact` | src/store/persistent.rs:415-423 | in every run, deletion removes that message and no other |
| `PersistentEffects.LiveLeavesOnlyByDelete` | src/store/persistent.rs:415-530 | in every run with crashes, a message in use leaves the store only while it is being deleted |
| `PersistentStorage.RecoveryAfterCrashes` | src/store/persistent.rs:697-702 | after any run with crashes, each indexed non-terminal message is recovered exactly once, no terminal one and nothing else is, and the next id is new |
| `PersistentStorage.RecoveryIsExact` | src/store/persistent.rs:697-702 | after a run without crashes, that is every non-terminal message, each exactly once |
| `PersistentStorage.Storage.PersistMessage` | src/store/persistent.rs:216-258 | writes the primary record, then the index entry, and nothing else |
| `PersistentStorage.Storage.Update` | src/store/persistent.rs:395-413 | the journal grows by the drop of a changed state's entry, the record and the new entry, in that order, whatever the closure changes |
| `PersistentStorage.Storage.Delete` | src/store/persistent.rs:415-423 | removes the index entry, then the record, or nothing when the id is unknown |
| `PersistentStorage.Storage.ExpireOld` | src/store/persistent.rs:473-497 | makes exactly the expiry writes of the snapshot and counts the due ones |
| `PersistentStorage.Storage.PruneTerminal` | src/store/persistent.rs:499-530 | makes exactly the pruning writes and counts them; on a sound store, what goes is what is terminal and older than the age |
| `PersistentStorage.Storage.GetByState` | src/store/persistent.rs:316-335 | returns what the index entries name, up to the limit |
| `PersistentStorage.Storage.RecoverCounters` | src/store/persistent.rs:171-203 | one more than the greatest id that parses from a key |
| `Decimal.ParsePrint` | src/store/persistent.rs:171-203 | printing then parsing a number gives it back, below any bound |
| `Decimal.ParsesIff` | src/store/persistent.rs:171-203 | a text parses as a number exactly if it is that number printed, after any zeros and at most one plus |
| `MemoryStore.LiveLeavesOnlyByDelete` | src/store/memory.rs:241-292 | in every run a non-terminal message leaves the store only by `delete` |
| `MemoryStore.SizeIsBounded` | src/store/memory.rs:158-198 | the size never exceeds the larger of the limit and the high-water mark of non-terminal messages |
| `MemoryStore.RetryingIsQueuedOnce` | src/store/memory.rs:256-277 | every message waiting for a retry is in the retry queue exactly once, and no other stored message but expired ones |
| `MemoryStorage.RemovingOldestEvicts` | src/store/memory.rs:180-193 | removing the first of the terminal messages by update time leaves none older behind |
| `MemoryStorage.Storage.CollectTerminal` | src/store/memory.rs:180-184 | lists each terminal message once, whatever the iteration order |
| `MemoryStorage.Storage.PruneIfNeeded` | src/store/memory.rs:158-198 | at capacity evicts the configured share, at least one, of the least recently updated terminal messages; otherwise nothing |
| `MemoryStorage.Storage.Store` | src/store/memory.rs:241-250 | prunes first, then adds the message and changes no other; the wrapping byte counter loses what was pruned and gains the new message |
| `MemoryStore.SizeWithout` | src/store/memory.rs:188-197 | the bytes taken off do not depend on the order of removal |
| `MemoryStore.ExpiryIsExact` | src/store/memory.rs:365-378 | in every run, expiry turns exactly the Pending, InFlight and Retrying messages created before the cutoff into Expired ones |
| `MemoryStore.PruningIsExact` | src/store/memory.rs:380-402 | in every run, pruning removes exactly the messages not in use last updated before the cutoff |
| `MemoryStore.EvictionIsExact` | src/store/memory.rs:158-198 | in every run, storing evicts nothing below both limits, and at one of them the configured share, at least one, of the oldest messages not in use |
| `MemoryStore.SizeIsCounted` | src/store/memory.rs:140-156 | a message is counted with 512 bytes, 64 per event, and the length of its content and texts |
| `MemoryStorage.Storage.Update` | src/store/memory.rs:256-277 | changes that message and keeps the retry queue in step with its state |
| `MemoryStorage.Storage.Delete` | src/store/memory.rs:279-292 | removes that message, its queue entry and its bytes |
| `MemoryStorage.Storage.ExpireOld` | src/store/memory.rs:365-378 | expires exactly the old non-terminal messages and counts them |
| `MemoryStorage.Storage.PruneTerminal` | src/store/memory.rs:380-402 | removes exactly the old terminal messages with their bytes, and counts them |
| `Feedback.BackendsAgree` | src/store/persistent.rs:604-622 | fed the same outcomes, both backends hold the same counts and moving average, and averages at most (n−1)/2 apart |
| `Feedback.EmaStaysInRange` | src/store/memory.rs:505-510 | the moving average stays between the least and the greatest sample |
| `Feedback.SampleWeighsOneFifth` | src/store/memory.rs:505-510 | each sample pulls the moving average a fifth of the way, rounded down, and all the way from zero |
| `Feedback.AverageLosesLittle` | src/store/persistent.rs:619-620 | n·a ≤ S ≤ n·a + n(n−1)/2 after n samples of sum S |
| `Feedback.AverageGap` | src/store/memory.rs:545-567 | the average on disk is at most the exact one and behind by at most (n−1)/2 |
| `Feedback.AverageBoundIsReached` | src/store/persistent.rs:619-620 | for every n some samples reach that bound exactly |
| `Scheduler.StepKeepsInv` | src/store/scheduler.rs:303-421 | every call keeps the invariant, whatever order the queue drains in |
| `Scheduler.HandOutsAreCounted` | src/store/scheduler.rs:373-421 | a queued schedule was handed out delivery_count times, plus once if Delivering |
| `Scheduler.HandOutsAreLimited` | src/store/scheduler.rs:81-105 | a one-shot is handed out at most once, a recurring one with limit m > 0 at most m times, an unknown id never |
| `Scheduler.HandOutsAreDue` | src/store/scheduler.rs:373-393 | what is handed out for the (n+1)-th time is the accepted message in its n-th slot, and that slot has come |
| `Scheduler.SlotIs` | src/store/scheduler.rs:214-237 | slots are evenly spaced by interval and period, and clamped to the end date |
| `Scheduler.SchedulesAreConserved` | src/store/scheduler.rs:303-421 | total scheduled = queued + delivered + cancelled |
| `Scheduler.IndexIsExact` | src/store/scheduler.rs:320-332 | an ESME's index lists its queued and its cancelled ids, each once, and nothing else |
| `Scheduler.LimitsHold` | src/store/scheduler.rs:303-318 | the queue stays within its limit and each ESME's share within its own, or within one where that is zero |
| `Scheduler.ZeroLimitAdmits` | src/store/scheduler.rs:312-319 | with a per-ESME limit of zero and room in the queue, a first schedule is admitted |
| `Scheduler.EsmeLimitHoldsIff` | src/store/scheduler.rs:303-319 | every run keeps every ESME within the configured limit if and only if that is at least one or the queue's is zero |
| `Scheduler.TakeExact` | src/store/scheduler.rs:373-393 | as many are handed out as are due, up to the limit |
| `SchedulerDelivery.DueIsHandedOut` | src/store/scheduler.rs:373-393 | a waiting message whose time has come is handed out unless the limit is reached |
| `SchedulerDelivery.MarkingReturnsOrRetires` | src/store/scheduler.rs:396-421 | in every run, marking the n-th delivery puts a schedule back waiting for its n-th slot if and only if it recurs and its limit is not used up; otherwise it leaves the queue and counts as delivered; no other changes |
| `SchedulerDelivery.RetiredOnlyWhenUsedUp` | src/store/scheduler.rs:81-105 | in every run, a schedule that is gone and was not cancelled was handed out exactly once, or exactly its limit of times; one without limit stays |
| `SchedulerDelivery.ServedToTheEnd` | src/store/scheduler.rs:373-421 | from every reachable state, handing out and marking alone serve a queued schedule exactly as often as it may be |
| `SchedulerDelivery.PeriodsAre` | src/store/scheduler.rs:214-237 | sixty minutes to the hour, twenty-four hours to the day, seven days to the week, thirty to the month |
| `SchedulerObject.MessageScheduler.Schedule` | src/store/scheduler.rs:303-343 | refuses at a limit and otherwise queues, indexes and counts |
| `SchedulerObject.MessageScheduler.Cancel` | src/store/scheduler.rs:346-370 | refills all but the cancelled id; succeeds if and only if it was queued |
| `SchedulerObject.MessageScheduler.GetDue` | src/store/scheduler.rs:373-393 | marks and returns min(limit, due) due schedules, leaving out none that is due unless the limit is reached, and refills all |
| `SchedulerObject.MessageScheduler.MarkDelivered` | src/store/scheduler.rs:396-421 | re-queues a recurring schedule, retires a finished one from queue and index |
| `StableSort.FirstIsLeast` | src/router/router.rs:115-116 | the first wanted element of a stable sort has the least key, then the least position |
| `HashRing.BuildRing` | src/cluster/lb.rs:246-267 | the ring is sorted and holds every virtual node of every endpoint and nothing else: as many per endpoint as configured, or a hundred |
| `HashRing.BinarySearch` | src/cluster/lb.rs:291-292 | binary search finds some node with the hash, or else where it would stand |
| `HashRing.SelectByKey` | src/cluster/lb.rs:283-299 | answers an endpoint whose node is nearest clockwise of the key, and nothing only for an empty ring |
| `HashRing.OneOwner` | src/cluster/lb.rs:283-299 | with distinct node hashes a key has one owner |
| `HashRing.OnlyTheirKeysMove` | src/cluster/lb.rs:246-299 | after taking away any endpoints, a key's owner by address is unchanged if and only if it is still there |
| `HashRing.RemovalMovesOnlyItsKeys` | src/cluster/lb.rs:246-299 | removing one endpoint moves a key if and only if that endpoint owned it |
| `LeastConn.CrossProductsCompareRatios` | src/cluster/lb.rs:366-377 | comparing cross products is comparing the exact ratios |
| `LeastConn.SelectWeightedLeastConn` | src/cluster/lb.rs:341-379 | the first endpoint minimising connections / weight over the whole list, a missing or zero weight being one |
| `LeastConn.SecondIsAnyOther` | src/cluster/lb.rs:426-429 | the second draw reaches every position except the first, and never that one |
| `LeastConn.SelectTwoChoices` | src/cluster/lb.rs:422-441 | the less loaded of two different endpoints |
| `WeightedSplit.Splitter.constructor` | src/router/router.rs:45-59 | the cumulative weights of the entries |
| `WeightedSplit.Splitter.Select` | src/router/router.rs:62-79 | the cluster whose share holds the counter's point; the trailing fallback is unreachable |
| `WeightedSplit.Splitter.SelectMany` | src/router/router.rs:62-79 | consecutive selections choose by consecutive counter values, also where the 64-bit counter wraps |
| `WeightedSplit.ChosenInCycle` | src/router/router.rs:62-79 | over any cycle an entry is chosen its weight plus the points it gains at the turnover less those it loses |
| `WeightedSplit.SplitIsFair` | src/router/router.rs:62-79 | over an aligned cycle each entry is chosen exactly its weight times, so a zero weight never |
| `WeightedSplit.FairIffSharesBreakEven` | src/router/router.rs:62-79 | a split is fair over a cycle if and only if each share gains as many points at the turnover as it loses |
| `WeightedSplit.AllFairIffAligned` | src/router/router.rs:69-70 | every split of a total is fair over a cycle if and only if the cycle does not cross a multiple of 2^32 or the total divides 2^32 |
| `WeightedSplit.TurnoverIsUnfair` | src/router/router.rs:69-70 | three equal shares across the turnover: one is chosen twice and one not at all |
| `WeightedSplit.TurnoverMayBeFair` | src/router/router.rs:69-70 | the same cycle is fair to a single share of three |
| `Routing.Validate` | src/config/loader.rs:89-177 | accepts exactly the valid configurations and reports a fault that is really there |
| `Routing.ValidateRoute` | src/config/loader.rs:113-166 | accepts exactly the routes with one target and only configured clusters |
| `Routing.RouteIsFaithful` | src/router/matcher.rs:196-278 | a compiled route matches exactly the contexts its configuration describes |
| `Router.NewRouter` | src/router/router.rs:107-138 | succeeds if and only if every route compiles, sorts by priority, stably, with a splitter of its own for each split; otherwise the first route's error |
| `Router.BestIsFirst` | src/router/router.rs:115-116 | the first match in sorted order is the one matching route of least (priority, position) |
| `Router.MessageRouter.RouteContext` | src/router/router.rs:158-186 | answers with that route, its target and fallbacks, or nothing if its split has no weight; only its counter moves |
| `Router.RouteValidated` | src/router/router.rs:158-186 | under a validated configuration the cluster and every fallback are configured and have an endpoint or a mock |
| `Firewall.CompilesIffWellFormed` | src/firewall/engine.rs:150-234 | a condition compiles if and only if it is well-formed |
| `Firewall.CompileIsFaithful` | src/firewall/engine.rs:458-533 | evaluating a compiled condition gives the same answer, rate table and clock reads as the configured condition left to right |
| `Firewall.DeMorgan` | src/firewall/engine.rs:510-531 | negation moves through And and Or with the same answer and the same effects |
| `Firewall.TableKeyInjective` | src/firewall/engine.rs:640-640 | different rate keys or values never share a counter |
| `Firewall.TimeWindowIsCyclic` | src/firewall/engine.rs:659-678 | the time window is the cyclic interval from start to end |
| `Firewall.TimeRoundTrip` | src/firewall/engine.rs:353-368 | a printed hour and minute parse back |
| `FirewallLeaves.ContainsIff` | src/firewall/engine.rs:535-565 | a text is contained exactly if something before and after it makes the whole |
| `FirewallLeaves.EndsIff` | src/firewall/engine.rs:545-548 | a text ends in another exactly if it is something followed by it |
| `FirewallLeaves.ListedIff` | src/firewall/engine.rs:557-564 | a list condition holds exactly for the entries of a loaded list, and an unknown list has none |
| `FirewallLeaves.EsmClassIff` | src/firewall/engine.rs:480-490 | an ESM class condition holds exactly if no bit of its mask differs, or no bit at all without a mask |
| `FirewallLeaves.LengthIff` | src/firewall/engine.rs:470-480 | a content length condition holds within its bounds, an absent one being none, or outside if negated |
| `FirewallLeaves.ParsesAsTimeIff` | src/firewall/engine.rs:353-368 | a time is exactly two numbers with one colon between |
| `FirewallLeaves.TimeConditionIff` | src/firewall/engine.rs:659-678 | a time condition holds on the cyclic interval from its start to its end and looks at the clock once |
| `FirewallLeaves.DayOfWeekIff` | src/firewall/engine.rs:508-512 | a weekday condition holds on the listed days and looks at the clock once |
| `FirewallLeaves.SharesCounterIff` | src/firewall/engine.rs:633-640 | messages share a rate counter exactly if they agree in the field its key names |
| `FirewallEngine.FromConfig` | src/firewall/engine.rs:105-147 | compiles exactly the well-formed configurations, lower priorities first and equal ones as configured, or reports the first error |
| `FirewallEngine.FirstTerminalDecides` | src/firewall/engine.rs:378-411 | the first Input chain with a terminal ruling decides; the default policy if and only if there is none |
| `FirewallEngine.DecisionIsTerminal` | src/firewall/engine.rs:378-411 | only a terminal verdict ever leaves the firewall |
| `FirewallEngine.PolicyAlwaysDecides` | src/firewall/engine.rs:413-443 | a chain lets a message on only through an enabled rule that matched |
| `FirewallEngine.RulingIsByFirst` | src/firewall/engine.rs:413-443 | a chain rules by the first enabled rule whose conditions hold, those of the enabled rules before it not having held, or else by its policy |
| `FirewallEngine.VerdictIff` | src/firewall/engine.rs:680-720 | a verdict is given if and only if the one thing that decides the message orders it: Accept, Drop, Quarantine or Reject with status and reason by a rule's action under its logging, or a policy, which rejects with 8 and no reason |
| `FirewallEngine.OneSource` | src/firewall/engine.rs:378-411 | one thing decides a message: a rule, the policy of a chain without a rule that holds, or the default policy |
| `FirewallEngine.CompiledFirewall.CheckRateLimit` | src/firewall/engine.rs:633-657 | counts once against the key's window and says whether the threshold is exceeded |
| `FirewallEngine.CompiledFirewall.EvaluateCondition` | src/firewall/engine.rs:458-533 | the loops give the short-circuit answer and effects |
| `FirewallEngine.CompiledFirewall.EvaluateChain` | src/firewall/engine.rs:413-443 | the verdict of the first enabled rule whose conditions hold, by its action under its logging, or else of the chain's policy, with that rule's hit counted |
| `FirewallEngine.CompiledFirewall.Evaluate` | src/firewall/engine.rs:378-411 | exactly the verdict that what decides the message orders, and the rate table and hits that the configuration gives |
| `FirewallRates.RateIsBounded` | src/firewall/engine.rs:633-657 | whatever conditions share a table entry, one that they leave alone keeps below twice its threshold in any stretch shorter than its window |
| `FirewallRates.BoundedIffProtected` | src/firewall/engine.rs:633-657 | over every order of checks on one entry, that bound holds if and only if the windows and thresholds of the conditions on the rate key say so |
| `FirewallRates.RateBoundIsReached` | src/firewall/engine.rs:633-657 | for every threshold some checks reach that bound |
| `FirewallRateRuns.TableHoldsEntries` | src/firewall/engine.rs:640-647 | each entry of the rate table is the one that the checks against it leave |
| `FirewallRateRuns.AnswerIsWithin` | src/firewall/engine.rs:655-656 | a rate condition holds exactly when its check exceeds the threshold of that entry |
| `FirewallRateRuns.MessagesPlay` | src/firewall/engine.rs:378-411 | the trace of checks that deciding any messages makes, played from an empty table, leaves the firewall's rate table and clock |
| `FirewallRateRuns.MessagesConfigured` | src/firewall/engine.rs:378-411 | every check of that trace is by a rate condition of the configuration |
| `FirewallRateRuns.FirewallRunIsBounded` | src/firewall/engine.rs:378-411 | over any messages and at every point of their trace, a protected rate condition has admitted fewer than twice its threshold for each value of its key in any stretch shorter than its window |
| `FirewallRateConfigs.ProtectedIsBounded` | src/firewall/engine.rs:633-657 | in any configuration, a protected condition is bounded over all messages and times |
| `FirewallRateConfigs.SelectedIsBoundedIffProtected` | src/firewall/engine.rs:413-443 | for any rate conditions whose check the message's source selects, one is bounded over all messages if and only if it is protected |
| `FirewallRateConfigs.PairAdmitsAll` | src/firewall/engine.rs:633-657 | two rules on one key: messages one short window apart are all admitted by the second, however long its window |
| `FirewallRateConfigs.SharedKeyBreaks` | src/firewall/engine.rs:640-653 | windows of one and a hundred and thresholds of two: the second admits all of a hundred messages within its window |
| `FirewallRateConfigs.PairHasNoBound` | src/firewall/engine.rs:640-653 | for every number, a threshold of two admits more than that within its window |
| `FirewallRateConfigs.GuardedIsBounded` | src/firewall/engine.rs:516-523 | in one rule behind a condition whose threshold is at least its own less one, a condition is bounded whatever the windows |
| `Csv.LenientRoundTrip` | src/cdr/types.rs:312-323 | decoding a printed line gives every list of fields back |
| `Csv.StrictRoundTripIff` | src/cdr/types.rs:312-323 | strict decoding gives them back if and only if no field has a bare carriage return |
| `Csv.ReturnIsLost` | src/cdr/types.rs:312-323 | a field that strict decoding refuses |
| `Csv.LineInjective` | src/cdr/types.rs:312-323 | lines are equal if and only if the fields are |
| `Csv.RecordsPrintAlikeIff` | src/cdr/types.rs:289-324 | two records print alike if and only if they agree in every printed field, absent text counting as empty |
| `Csv.FieldsStandUnderTheirNames` | src/cdr/types.rs:289-331 | the header line reads back as the column names and a printed record as one field under each, showing what the record has under it |
| `TokenBucket.Bucket.TryAcquire` | src/filter/ratelimit.rs:74-105 | refills whole tokens up to the capacity, then takes one if there is one |
| `TokenBucket.AdmittedFromStart` | src/filter/ratelimit.rs:65-105 | at most capacity + rate·t calls are admitted in the first t seconds |
| `TokenBucket.AdmittedInWindow` | src/filter/ratelimit.rs:65-105 | fewer than capacity + rate·(b−a) + 1 in any window from a to b |
| `TokenBucket.RefusedOnlyWhenEmpty` | src/filter/ratelimit.rs:74-105 | a refusal means no token is left and less than one was due since the last refill |
| `TokenBucket.PauseRefills` | src/filter/ratelimit.rs:74-105 | after a pause that earns the capacity, that many calls at once are all admitted |
| `Breaker.CircuitBreaker.AllowRequest` | src/cluster/circuit_breaker.rs:107-123 | allows unless open and before the timeout; a probe moves to half-open |
| `Breaker.CircuitBreaker.RecordSuccess` | src/cluster/circuit_breaker.rs:126-144 | resets failures when closed; closes at the threshold when half-open |
| `Breaker.CircuitBreaker.RecordFailure` | src/cluster/circuit_breaker.rs:147-165 | opens at the threshold when closed, at once when half-open |
| `Breaker.NothingAllowedWhileOpen` | src/cluster/circuit_breaker.rs:107-123 | no request is allowed within the timeout of an opening |
| `Breaker.ClosedCountsFailures` | src/cluster/circuit_breaker.rs:147-165 | while closed the failure count is the current run of failures, below the threshold |
| `Breaker.OpensIff` | src/cluster/circuit_breaker.rs:147-165 | a call opens the circuit if and only if it is the failure that completes the run, or any failure on trial |
| `Breaker.ClosingNeedsSuccesses` | src/cluster/circuit_breaker.rs:126-144 | closing takes success_threshold successes since the trial began, with no failure between |
| `Breaker.OpenCountIsExact` | src/cluster/circuit_breaker.rs:189-198 | open_count is the number of openings |
| `Breaker.OpenAllowsIff` | src/cluster/circuit_breaker.rs:168-174 | an open circuit lets a request through if and only if the timeout since its last opening is over |
| `Breaker.TimeoutPutsOnTrial` | src/cluster/circuit_breaker.rs:107-123 | a request puts an open circuit on trial if and only if the timeout since the last opening is over |
| `Breaker.TrialCloses` | src/cluster/circuit_breaker.rs:126-144 | without a failure, a trial goes on until the threshold of successes and the circuit is closed from then on |

## Left out

- Sockets, TLS, the SMPP codec and client, partition internals, the admin API, Lua and webhook plugins, telemetry: I/O and foreign code.
- `Lagged` drops of a slow bus subscriber: the bus is assumed to keep every event until all have read it.
- Events of the pipeline's own stages are published by the pipeline alone; no other part of the gateway has any.
- Latencies on events and the reconnect delays of clusters: they carry no behaviour here.
- The state of a stored message following the pipeline: later updates use the envelope's id, which is never stored.
- The `run` receive loops as loops: each is one step per event, so that all four interleave; `handle_retry` of the forwarder has no effect on answers and is not modelled.
- Update closures that change a message's id, in runs of the persistent store: no caller has one.
- The SMPP fields of a submit other than addresses and text.
- `query`, `get_pending` and statistics of both stores, and full equivalence of the two backends, which differ in filters, order and retry times.
- The scheduler's runner task and schedule lookups; recurrence stopping at its end date, which the code does not do: `next_from` clamps to that date and goes on.
- Concurrent callers of the scheduler, token bucket, breaker and persistent update: these check and then act across locks, so their properties are about sequential calls.
- Round robin, plain least connections, random and weighted balancers: simple counters, or weights looked up by position in a filtered list.
- Loading lists into the firewall during an evaluation, time zones of its time condition (ignored by the code), and `get_stats`.
- The overflow of 32-bit sums of split weights and of hour times sixty in a time condition.
- The time window of a route is an input, the same for all routes of one call.
- The `with_*` builders, JSON form and header line of call detail records; text outside the ASCII range of section 2 of RFC 4180 counts as text.
- src/filter/firewall.rs, src/router/pricing.rs, src/bootstrap/shutdown.rs, src/plugins/hooks.rs: simpler first-match, scoring or small counters that would add only easy members.
