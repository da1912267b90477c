# Verification model of the browser-synchronisation and betting automation core

This Dafny project models the parts of the repository in which order, conservation and
money matter, and proves what they promise over all inputs and all runs.

* **Global event sequence.** `TemporalSequencer.dfy` models the hybrid logical clock, the
  binary min-heap and the sequencer that numbers captured events 1, 2, 3, ...
  `ExecutionQueue.dfy` models a slave's four command queues with coalescing, overwriting and
  NOOP stand-ins, and `SchedulingPolicy.dfy` says what these do to a series of commands.
  `Lockstep.dfy` is the protocol of one slave: arrivals, backpressure, scroll
  purges, navigation purges, the sequence gate, the command in flight, the watchdog.
  `SlaveRuns.dfy` tells from a run's events which numbers are done and which skipped.
  `ExecutionScheduler.dfy` holds the imperative objects (queue manager, registry entry, drain
  loop) proved against that protocol. `GapRecovery.dfy` proves that draining and watchdog
  firings empty the queues whatever they hold and whichever deadlines pass, and says which
  numbers are lost. `Pipeline.dfy` joins sequencer and slave end to end.
* **Byte framing and the ring buffer.** `Framing.dfy` and `RingBuffer.dfy`.
* **Betting runs.** `RunOrchestrator.dfy` (ownership and cycle leases over histories) and
  `Betting.dfy` (one cycle, and the retry/rebet loop around it). What the page and the
  simulator answer is an input record (`World`, `Scenario`).
* **Stake arithmetic.** `Pricing.dfy` (integer solver and behaviour waterfall) and
  `ConstraintEngine.dfy` (real-valued stake sizing).
* **Policy store.** `JsonValues.dfy` (values, and what copying one through JSON text makes of
  it), `PolicyMerge.dfy` (deep merging of own fields), `PolicyInheritance.dfy` (what a merge does
  beyond own fields, and what property access reads), `PolicyCopies.dfy` (a reference store in
  which every entry owns its copy; aliases), `PolicySharing.dfy` (policies with the identity of
  every object and array, merged in place, compared with the reference over whole histories) and
  `MemoryPolicyProvider.dfy` (the provider object over a heap, proved to realise `PolicySharing`).
* **Circuit breaker.** `CircuitBreaker.dfy` (capped log against full history).

Conventions. A sequence number is a "GES" or simply a number. Physical clock readings are
integer microseconds; odds and scroll deltas are reals; stakes of the solver are integer
cents; a stake computed with a number that the policy lacks is no number. Clocks, fresh ids and answers
of pages are parameters. A class method is proved equal to
a function on values, and the properties are lemmas about those functions.

Results where the code does less than one would expect, each with a concrete case and the
exact condition:

* A navigation purge appends its stand-ins without sorting, so the gate can wait for a number
  that is already in the queue (`Lockstep.UnsafePurgeBlocks`), and it can sweep away the very
  navigation it is for. The slave stays in step exactly under `PurgeIsSafe`, a condition on the
  four queues before the turn (`Lockstep.TakeStaysInStepIff`).
* A deadline that passes while a command is more than one number ahead takes the command out and
  counts one number (`GapRecovery.ExpiredFrontIsLost`). A number that is never reached was lost so,
  each time it was held (`GapRecovery.EveryScheduleSettles`); one lost so can still be reached.
* An arrival turned into a stand-in by backpressure never starts the drain loop
  (`Lockstep.EveryRunStaysAwakeIff`); without a page the loop turns for ever
  (`Lockstep.TurnIsFutileIff`).
* The rebet increment is added after the limit check, so a stake can pass `MaxStake`
  (`BetCycles.ThirdBetPassesTheLimit`), exactly when the largest stake the policy can authorise
  does (`BetCycles.IncrementEscapesLimitIff`).
* `ROUND_NUMBERS` can overdraw the balance (`ConstraintEngine.RoundingOverdraws`,
  `ConstraintEngine.StakeOverdrawsIff`); so can a negative increment
  (`ConstraintEngine.NegativeIncrementOverdrawsIff`). A missing base stake or target, and a zero or
  missing increment, authorise a stake that is no number (`ConstraintEngine.StakeIsNotANumberIff`);
  without a `MaxStake` a profit target authorises any stake (`ConstraintEngine.NoTopWithoutLimit`).
* The minimum acceptable profit is checked only for clamped stakes and before rounding
  (`ConstraintEngine.UnclampedProfitMissesTheMinimum`, `ConstraintEngine.ProfitFloorIsGuaranteedIff`).
* An update of everyone assigns one array to all policies, and a later update of one account that
  merges into it shows in all (`PolicySharing.SharedArrayLeaks`). Policies behave as separate
  copies exactly as long as every update is harmless (`PolicySharing.CopiesPredictIff`): no object
  of it brings something new into what another entry holds too, and it disturbs nothing.
* An account's first own update copies the default through JSON text, which drops the named members
  of an array and turns its holes into null. What an earlier update of everyone put there can then
  be missing for the account (`PolicyCopies.CopyLosesMember`, `PolicyCopies.CopyFillsHole`). It
  reads what a policy of its own would have come to exactly when that first update overrides all
  that the copy loses (`PolicyCopies.LazyCopyEqualsReplayIff`, `PolicySharing.InPlaceReadsReplayIff`).
* Under `__proto__`, an object with a field in it is merged into what every object inherits
  (`PolicyInheritance.FieldIsInherited`), and a primitive is ignored
  (`PolicyInheritance.PrimitiveIsSwallowed`). A merge shows nowhere but in its target exactly when
  it does not disturb (`PolicyInheritance.MergeIsUnnoticedIff`), and then all it says is heard
  exactly when no primitive is swallowed (`PolicyInheritance.EverythingIsHeardIff`).
* Two names aliased to each other split into two policies once an entry was opened under both
  (`PolicyCopies.MutualAliasesShareIff`, `PolicyCopies.MutualAliasesCanSplit`).
* A breaker threshold above ten can never trip (`CircuitBreaking.CapIsHarmlessIff`,
  `CircuitBreaking.OverlongThresholdNeverTrips`).
* A repeated interaction id can leave an entry unacknowledged (`RingBuffer.RepeatedIdsCanStick`);
  acknowledgements always work exactly as long as no operation strands an entry
  (`RingBuffer.AcksAlwaysWorkIff`).

## Model

| member | source | states |
|---|---|---|
| HybridClock.StampsIncrease | src/browser/execution/ActionDispatcher.mjs:102-110 | stamps of one page strictly increase for every series of clock readings, also when the clock stalls or goes back |
| HybridClock.NextStampIsLatest | src/common/models/HybridLogicalClock.mjs:17-37 | the next stamp is after all earlier ones |
| HybridClock.StampTracksClock | src/common/models/HybridLogicalClock.mjs:17-35 | a stamp's physical part is the greatest reading so far, and its logical part counts the readings since it was first seen |
| TemporalSequencing.RootIsMinimum | src/master/TemporalSequencer.mjs:30-45 | the root of an ordered heap is a minimum for clock and then frame depth |
| TemporalSequencing.MinimumLeavesFirst | src/master/TemporalSequencer.mjs:38-45 | between equal clocks, the event of the frame with fewer dots in its path leaves first; never one with a later clock |
| TemporalSequencing.SiftUpStep | src/master/TemporalSequencer.mjs:47-58 | one swap upwards moves the only order violation to the parent |
| TemporalSequencing.SiftDownStep | src/master/TemporalSequencer.mjs:60-80 | one swap with the least child moves the only order violation to that child |
| TemporalSequencing.EventMinHeap.Push | src/master/TemporalSequencer.mjs:16-19 | keeps heap order and adds exactly the pushed event |
| TemporalSequencing.EventMinHeap.Pop | src/master/TemporalSequencer.mjs:21-28 | keeps heap order, returns a minimum and removes exactly it; nothing from an empty heap |
| TemporalSequencing.EventMinHeap.HeapifyUp | src/master/TemporalSequencer.mjs:47-58 | terminates and restores heap order as a permutation |
| TemporalSequencing.EventMinHeap.HeapifyDown | src/master/TemporalSequencer.mjs:60-80 | terminates and restores heap order as a permutation |
| TemporalSequencing.EveryRunKeepsInvariant | src/master/TemporalSequencer.mjs:122-177 | over every interleaving of arrivals and flushes: numbers 1,2,3,... without gap, clock order of the output, nothing waiting that belongs before it, accepted = emitted + buffered |
| TemporalSequencing.LateMeansOvertaken | src/master/TemporalSequencer.mjs:131-150 | an arrival is turned away exactly when some later-stamped event has been emitted |
| TemporalSequencing.OrderedFrontIsPrefix | src/master/TemporalSequencer.mjs:156-177 | an ordered output drawn from strictly stamped events is a prefix of them |
| TemporalSequencing.SingleSourceKeepsCaptureOrder | src/master/TemporalSequencer.mjs:122-177 | events of one page received in capture order are numbered in capture order |
| TemporalSequencing.SingleSourceIsNeverLate | src/master/TemporalSequencer.mjs:131-150 | over every interleaving of one page's arrivals in capture order with departures, whatever its clock reads, every event is accepted |
| TemporalSequencing.SingleSourceIsNumberedInOrder | src/master/TemporalSequencer.mjs:122-177 | and the i-th event emitted is the i-th captured |
| TemporalSequencing.TemporalSequencer.Receive | src/master/TemporalSequencer.mjs:122-154 | ignores a missing stamp, rejects a malformed or late one without effect, buffers every other event with the time it came |
| TemporalSequencing.TemporalSequencer.EmitNext | src/master/TemporalSequencer.mjs:164-172 | the buffered minimum leaves under the next number |
| TemporalSequencing.TemporalSequencer.Flush | src/master/TemporalSequencer.mjs:156-177 | unforced, emits only events that waited `deltaMs` or longer, and stops at an empty buffer or a least event that has waited less; forced, empties the buffer |
| TemporalSequencing.LateOnlyAfterWindow | src/master/TemporalSequencer.mjs:131-177 | over every run with a clock that never goes back and unforced flushes, an event is turned away as late only if some later-stamped event had arrived at least `deltaMs` before it |
| TemporalSequencing.TemporalSequencer.Stop | src/master/TemporalSequencer.mjs:106-111 | after a stop the output is a clock-ordered permutation of everything accepted |
| ExecutionQueue.SortSorts | src/browser/execution/ExecutionScheduler.mjs:165-167 | the discrete queue is sorted by number, unnumbered entries first |
| ExecutionQueue.SortIsStable | src/browser/execution/ExecutionScheduler.mjs:165-167 | entries with the same key keep their order |
| ExecutionQueue.InsertConserves | src/browser/execution/ExecutionScheduler.mjs:136-167 | inserting adds the command's number and keeps every other one, stand-ins included, unless the command vanishes |
| ExecutionQueue.ConservationIsExact | src/browser/execution/ExecutionScheduler.mjs:74-116 | numbers are conserved if and only if the command carries none or is not a delta scroll meeting a pending one with a payload missing |
| ExecutionQueue.PayloadsConserve | src/browser/execution/ActionDispatcher.mjs:985-1002 | commands with payloads, as every sequenced one is, never vanish: all their insertions conserve the numbers |
| ExecutionQueue.SelectedIsFirst | src/browser/execution/ExecutionScheduler.mjs:177-200 | the selected head is first by number, unnumbered first, ties to the earlier queue; nothing only when all queues are empty |
| ExecutionQueue.DequeueTakesOne | src/browser/execution/ExecutionScheduler.mjs:202-234 | taking out removes exactly the peeked entry's number and one entry |
| ExecutionQueue.PurgesConserve | src/browser/execution/ExecutionScheduler.mjs:240-306 | backpressure, scroll purge and navigation purge lose, add and repeat no number |
| ExecutionQueue.InsertKeepsCapacity | src/browser/execution/ExecutionScheduler.mjs:136-140 | an accepted insert keeps at most one hover, one scroll and a hundred real discrete commands |
| ExecutionQueue.NavigationKeepsCapacity | src/browser/execution/ExecutionScheduler.mjs:240-274 | so does a navigation purge |
| ExecutionQueue.StandInKeepsCapacity | src/browser/execution/ExecutionScheduler.mjs:382-409 | so does an arrival turned into a stand-in |
| ExecutionQueue.ShrinkingKeepsCapacity | src/browser/execution/ExecutionScheduler.mjs:276-306 | so do dequeue, backpressure and scroll purge |
| ExecutionQueue.BurstIsSummed | src/browser/execution/ExecutionScheduler.mjs:79-109 | a burst of delta scrolls leaves one entry with the first number and the sum of all deltas |
| ExecutionQueue.BurstConserves | src/browser/execution/ExecutionScheduler.mjs:143-167 | and every number of the burst still waits |
| SchedulingPolicy.LatestStateWins | src/browser/execution/ExecutionScheduler.mjs:67-73 | of any series of hovers, or of scrolls to a position, the queue holds exactly the last command, whole; every earlier numbered one waits as a no-operation of its number, and nothing else changes |
| SchedulingPolicy.OthersQueueUp | src/browser/execution/ExecutionScheduler.mjs:64-66 | critical and discrete commands wait in the order they came |
| SchedulingPolicy.BurstScrollsBySums | src/browser/execution/ExecutionScheduler.mjs:79-109 | a burst of delta scrolls becomes one command that scrolls by the sum of what its payloads say along each axis, in either notation |
| SchedulingPolicy.RefusesAtAHundred | src/browser/execution/ExecutionScheduler.mjs:136-140 | exactly a hundred real commands fill the discrete queue; stand-ins take no room and no other queue refuses |
| SchedulingPolicy.NextIsFirst | src/browser/execution/ExecutionScheduler.mjs:177-200 | an unnumbered head goes first, else the least number of all heads; ties go to critical, discrete, scroll, hover |
| SchedulingPolicy.SortedMeans | src/browser/execution/ExecutionScheduler.mjs:165-167 | in a sorted queue unnumbered commands precede positive numbers and numbers ascend |
| SchedulingPolicy.PressureSweeps | src/browser/execution/ExecutionScheduler.mjs:276-306 | backpressure empties the hover and scroll queues, and leaves a no-operation for each numbered command |
| SchedulingPolicy.NavigationSweeps | src/browser/execution/ExecutionScheduler.mjs:240-274 | a navigation purge keeps exactly navigations and clicks, in order, then no-operations for the numbered hover, scroll and discrete commands, in that order |
| SchedulingPolicy.ClassMeans | src/browser/execution/ExecutionScheduler.mjs:24-58 | which queue a command goes to, by priority, then category, then type in any case |
| Lockstep.BrokenAtElevenInARow | src/browser/synchronization/BrowserStateRegistry.mjs:32-52 | the slave is reported broken exactly when eleven gap skips came in a row |
| Lockstep.CounterIsTrailing | src/browser/synchronization/BrowserStateRegistry.mjs:32-52 | the gap counter is the number of trailing skips modulo eleven, and each count raises the slave's number by one |
| SlaveRuns.EveryRunCountsSkips | src/browser/execution/ExecutionScheduler.mjs:506-821 | over every run, with skips told from events alone (false, a throw, a failed barrier, an overdue turn and a watchdog are skips; true, a no-operation and a pressure drop are not): the gap counter is the skips since the last number done, modulo eleven, and the slave is reported broken if and only if eleven came in a row or a command found the discrete queue full |
| SlaveRuns.AheadWaits | src/browser/synchronization/SequenceGate.mjs:18-38 | a command ahead of its turn stays queued, stops the loop and sets a watchdog for its number |
| SlaveRuns.BehindIsRejected | src/browser/execution/ExecutionScheduler.mjs:655-668 | a command behind its turn is thrown out and counts for nothing |
| SlaveRuns.InTurnRuns | src/browser/execution/ExecutionScheduler.mjs:705-732 | a command in its turn leaves the queue and cancels the watchdog; a no-operation is counted at once, any other is sent off |
| SlaveRuns.WatchdogResumes | src/browser/execution/ExecutionScheduler.mjs:678-699 | a watchdog that fires skips one number and drains on |
| SlaveRuns.PressureFollowsEvents | src/browser/execution/ExecutionScheduler.mjs:340-361 | over every run a slave is under pressure if and only if the last word on global pressure or on its own says so |
| Lockstep.BackpressureStaysInStep | src/browser/execution/ExecutionScheduler.mjs:340-357 | switching backpressure on or off keeps the slave in step |
| Lockstep.PurgeStaysInStep | src/browser/execution/ExecutionScheduler.mjs:834-868 | a scroll purge keeps the slave in step |
| Lockstep.NavigationOrderIsExact | src/browser/execution/ExecutionScheduler.mjs:240-274 | a navigation purge leaves the queue in order if and only if survivors precede everything purged and the purged hover, scroll and commands are in that order |
| Lockstep.PurgeWorksIffSafe | src/browser/execution/ExecutionScheduler.mjs:177-274 | whichever queue the leading navigation waits in, its purge keeps the order and the number that leaves next if and only if `PurgeIsSafe`, a condition on the queues before it |
| Lockstep.FrontIsNext | src/browser/execution/ExecutionScheduler.mjs:507-510 | in step, the front carries the slave's next number or none, and an empty queue means all sent is done |
| Lockstep.TakeStaysInStepIff | src/browser/execution/ExecutionScheduler.mjs:506-732 | a turn of the drain loop keeps the slave in step if and only if it reaches no unsafe purge; it then is never stale or blocked and raises its number by exactly what it consumed |
| Lockstep.FinishStaysInStepIff | src/browser/execution/ExecutionScheduler.mjs:745-821 | the end of a command keeps the slave in step if and only if the simulator answered true, false or a throw, the barrier failed, or the command has no number; which of these are gap skips `SlaveRuns.EveryRunCountsSkips` says |
| Lockstep.SendStaysInStepIff | src/browser/execution/ExecutionScheduler.mjs:373-473 | a command sent in order keeps the slave in step if and only if it is not lost to overflow or a vanishing scroll, or has no number |
| Lockstep.EveryRunStaysInStepIff | src/browser/execution/ExecutionScheduler.mjs:373-826 | over every interleaving with arrivals in order, waiting plus in-flight numbers are throughout exactly those after the slave's own up to the last one sent, each once, if and only if no command is lost, the simulator answers and no purge is unsafe |
| Lockstep.EveryRunStaysInStep | src/browser/execution/ExecutionScheduler.mjs:373-826 | the state such a run ends in |
| Lockstep.EveryRunKeepsCapacity | src/browser/execution/ExecutionScheduler.mjs:136-306 | whatever happens, never more than one hover, one scroll and a hundred real discrete commands wait |
| Lockstep.TurnIsFutileIff | src/browser/execution/ExecutionScheduler.mjs:612-619 | a turn changes nothing if and only if the page is gone and the front is neither dropped nor expired |
| Lockstep.IdleMeansCaughtUp | src/browser/execution/ExecutionScheduler.mjs:507-510 | a drain that finds nothing has done every number sent |
| Lockstep.EveryRunStaysAwakeIff | src/browser/execution/ExecutionScheduler.mjs:382-409 | over every run in step, work never waits with the drain loop asleep if and only if no command is silenced while it sleeps |
| Lockstep.StepStaysAwakeIff | src/browser/execution/ExecutionScheduler.mjs:373-826 | no event but such an arrival leaves work waiting with the drain loop asleep |
| Lockstep.UnsafePurgeMisplaces | src/browser/execution/ExecutionScheduler.mjs:251-273 | concrete purge that puts number 2 behind number 3 |
| Lockstep.UnsafePurgeBlocks | src/browser/synchronization/SequenceGate.mjs:26-37 | the gate then waits for number 2 although it is queued |
| GapRecovery.TurnsAreFair | src/browser/execution/ExecutionScheduler.mjs:582-714 | in one turn a number above the slave's leaves exactly when it is a blocked front that is overdue |
| GapRecovery.TurnStaysAtRest | src/browser/execution/ExecutionScheduler.mjs:678-703 | each turn shrinks the queues or brings a blocked front one closer |
| GapRecovery.EveryScheduleSettles | src/browser/execution/ExecutionScheduler.mjs:506-732 | from any queue contents in any order, under every schedule of deadlines and under pressure, the queues empty, and a number not reached in the end was lost exactly as often as it was held |
| GapRecovery.EveryGapIsRecovered | src/browser/execution/ExecutionScheduler.mjs:670-703 | when no deadline passes and nothing is dropped, the slave ends at the highest number held |
| GapRecovery.ExpiredFrontIsLost | src/browser/execution/ExecutionScheduler.mjs:582-610 | a concrete expired command, gone with the slave four numbers short of it |
| ExecutionScheduler.QueueManager.Insert | src/browser/execution/ExecutionScheduler.mjs:136-175 | refuses exactly a full discrete queue, otherwise applies the insertion that `SchedulingPolicy` describes and that conserves the numbers |
| ExecutionScheduler.QueueManager.PeekNext | src/browser/execution/ExecutionScheduler.mjs:177-200 | returns the selected head |
| ExecutionScheduler.QueueManager.DequeueNext | src/browser/execution/ExecutionScheduler.mjs:202-234 | returns the selected head and removes exactly it |
| ExecutionScheduler.QueueManager.ApplyBackpressure | src/browser/execution/ExecutionScheduler.mjs:276-306 | hover and scroll become sorted stand-ins |
| ExecutionScheduler.QueueManager.HandleNavigation | src/browser/execution/ExecutionScheduler.mjs:240-274 | survivors stay, everything else becomes appended stand-ins |
| ExecutionScheduler.BrowserState.IncrementSlaveGes | src/browser/synchronization/BrowserStateRegistry.mjs:32-52 | raises the number by one and reports broken exactly on the eleventh consecutive skip |
| ExecutionScheduler.SlaveScheduler.Enqueue | src/browser/execution/ExecutionScheduler.mjs:373-473 | realises the arrival step, including silent stand-ins and overflow |
| ExecutionScheduler.SlaveScheduler.DrainTurn | src/browser/execution/ExecutionScheduler.mjs:506-732 | realises one turn of the loop up to its first wait |
| ExecutionScheduler.SlaveScheduler.PassGate | src/browser/execution/ExecutionScheduler.mjs:651-732 | realises purge, gate verdict, dequeue and NOOP fast path |
| ExecutionScheduler.SlaveScheduler.Finish | src/browser/execution/ExecutionScheduler.mjs:745-821 | realises the end of the command in flight for every outcome, counted as `SlaveRuns` says |
| ExecutionScheduler.SlaveScheduler.Drain | src/browser/execution/ExecutionScheduler.mjs:496-826 | the whole loop terminates; if the outside respected the protocol it is in step and, when done, has emptied the queues and done all that was sent meanwhile |
| ExecutionScheduler.DrainedInStep | src/browser/execution/ExecutionScheduler.mjs:496-826 | a respected run has no watchdog pending, and with nothing queued or in flight has done all that was sent |
| Pipeline.FedSlaveRespectsIff | src/browser/execution/ActionDispatcher.mjs:973-1002 | fed by the sequencer in order, a slave respects the protocol if and only if the discrete queue has room, the simulator answers and no purge is unsafe; no scroll vanishes |
| Pipeline.FedSlaveStaysInStepIff | src/browser/execution/ActionDispatcher.mjs:922-1030 | so it is in step with the sequencer throughout if and only if that is so |
| Pipeline.IdleSlaveHasDoneEverything | src/browser/execution/ActionDispatcher.mjs:922-1030 | and once sent everything and idle, it has done every emitted event |
| Pipeline.SequencedClassMeans | src/browser/execution/ActionDispatcher.mjs:973-1002 | a sequenced event becomes a hover, a scroll or a discrete command by its type, in any case, and a navigation only by the type `navigate` |
| Framing.WriteUInt32BE | src/worker/SecureIpcClient.mjs:153-154 | a four-byte header that reads back as the length |
| Framing.HeaderIsBigEndian | src/worker/SecureIpcClient.mjs:153-154 | the header bytes, most significant first |
| Framing.WriteReadsBack | src/worker/SecureIpcClient.mjs:198 | reading a header and writing it back gives the same bytes |
| Framing.DecodeSplits | src/worker/SecureIpcClient.mjs:194-220 | decoding a concatenation is decoding the front and then its leftover with the back |
| Framing.FeedEqualsDecode | src/worker/SecureIpcClient.mjs:194-220 | chunk-by-chunk feeding equals one-shot decoding for every chunking |
| Framing.DecodeInvertsEncode | src/worker/SecureIpcClient.mjs:146-157 | decoding encoded payloads and an unfinished tail gives back exactly both |
| Framing.EncodeInvertsDecode | src/worker/SecureIpcClient.mjs:197-204 | no byte of any stream is lost, added or moved |
| Framing.AnyChunkingDelivers | src/worker/SecureIpcClient.mjs:146-220 | any payload list under 2^32 bytes each, cut anywhere, arrives complete, in order, with nothing left over |
| Framing.SecureIpcClient.Send | src/worker/SecureIpcClient.mjs:146-157 | writes exactly one frame, or nothing when disconnected or too long |
| Framing.SecureIpcClient.HandleData | src/worker/SecureIpcClient.mjs:194-220 | the receive loop delivers and keeps exactly what decoding says |
| RingBuffer.AckRemovesFirstMatch | src/browser/execution/ActionDispatcher.mjs:160-174 | an ack removes from the open entries at most its first match and reorders nothing |
| RingBuffer.CompactDropsAckedFront | src/browser/execution/ActionDispatcher.mjs:165-170 | the release drops exactly the maximal acknowledged front |
| RingBuffer.AllAckedMeansEmpty | src/browser/execution/ActionDispatcher.mjs:160-174 | with distinct ids the buffer is empty if and only if every open id was acknowledged, in any order |
| RingBuffer.EveryRunKeepsOutstanding | src/browser/execution/ActionDispatcher.mjs:150-174 | over every run with fresh ids the open entries are exactly those let in and not acknowledged since, in order; the front is never acknowledged |
| RingBuffer.RepeatedIdsCanStick | src/browser/execution/ActionDispatcher.mjs:160-174 | concrete run in which a repeated id stays open after as many acks as entries |
| RingBuffer.EveryAckClosesIff | src/browser/execution/ActionDispatcher.mjs:160-174 | every ack of an open id closes an entry if and only if the first entry with an open entry's id is open itself |
| RingBuffer.AcksAlwaysWorkIff | src/browser/execution/ActionDispatcher.mjs:150-174 | over every run, whatever its ids, acks always close an entry if and only if no operation strands one: puts an id again while it waits acknowledged, or acks one of several that is not at the front |
| RingBuffer.ClientRingBuffer.Enqueue | src/browser/execution/ActionDispatcher.mjs:150-158 | the circular array appends to the window and fails exactly when full |
| RingBuffer.ClientRingBuffer.Ack | src/browser/execution/ActionDispatcher.mjs:160-174 | finds the first match in the window or reports none, and releases the acknowledged front |
| RunOrchestration.TableInvariant | src/browser/coordination/RunOrchestrator.mjs:63-100 | with fresh run ids no two accounts ever share a run |
| RunOrchestration.LeaseIsOpenCycle | src/browser/coordination/RunOrchestrator.mjs:105-126 | a run's lease is exactly the cycle its history has open |
| RunOrchestration.LeaseWindow | src/browser/coordination/RunOrchestrator.mjs:139-145 | over any interleaving of runs a cycle id is honoured exactly from its opening until its run's next opening, clearing or release |
| RunOrchestration.FinishedCycleIsRejected | src/browser/execution/ActionSimulator.mjs:447-459 | a command with the id of a closed cycle is always rejected |
| RunOrchestration.RunOrchestrator.AcquireOwnership | src/browser/coordination/RunOrchestrator.mjs:63-100 | grants exactly one run per authorised, unowned account |
| RunOrchestration.RunOrchestrator.SetLease | src/browser/coordination/RunOrchestrator.mjs:105-126 | the table walk changes the lease of exactly the given run and reports whether it exists |
| RunOrchestration.RunOrchestrator.ValidateActiveCycle | src/browser/coordination/RunOrchestrator.mjs:139-145 | true exactly for a non-empty id some run holds |
| RunOrchestration.RunOrchestrator.ReleaseOwnership | src/browser/coordination/RunOrchestrator.mjs:161-176 | the account alone leaves the table |
| RunOrchestration.RunOrchestrator.MarkUncertain | src/browser/coordination/RunOrchestrator.mjs:181-187 | the account is frozen and stays owned |
| BetCycles.CycleTellsTheTruth | src/browser/workflows/BetCycle.mjs:91-248 | a cycle issues at most one command that must not be repeated, as its last, with the prepared stake; once it was honoured, the report is failed if and only if the page aborted it or returned and showed failure, success if and only if it returned and showed success, and uncertain in every other case |
| BetCycles.BetGoesOutIff | src/browser/workflows/BetCycle.mjs:60-205 | a bet goes out if and only if the account is authorised and logged in, the betslip opened or restored, a stake authorised, shown or typed without fault, no banner up and the command translated |
| BetCycles.OpensBetslipIff | src/browser/workflows/BetCycle.mjs:101-109 | the betslip is opened at most once, first, and never by a rebet |
| BetCycles.FaultEndsTyping | src/browser/workflows/BetCycle.mjs:161-173 | a keystroke that fails is the last command of the cycle |
| BetCycles.BannerIsAcceptedIff | src/browser/workflows/BetCycle.mjs:182-194 | changed odds are accepted if and only if a banner shows after the stake is entered and the policy says so |
| BetCycles.IncrementEscapesLimitIff | src/browser/workflows/BetCycle.mjs:133-151 | all stakes a cycle can prepare at its place stay within MaxStake if and only if there is no limit, the policy can authorise none or its largest one does with the increments due |
| BetCycles.ThirdBetPassesTheLimit | src/browser/workflows/BetCycle.mjs:141-151 | a concrete third bet of 110 under a limit of 100 |
| BetCycles.StakeBound | src/browser/workflows/BetCycle.mjs:141-151 | every stake that is a number is positive and at most MaxStake plus the increments due; it is no number only if the policy lacks a number |
| BetCycles.LeaseIsHeld | src/browser/workflows/BetCycle.mjs:198-201 | while set, the lease is honoured if and only if the run owns an account |
| BetCycles.BetCycle.Prepare | src/browser/workflows/BetCycle.mjs:91-194 | realises the checks before submission, error paths included |
| BetCycles.BetCycle.Issue | src/browser/execution/ActionSimulator.mjs:447-459 | each command is recorded with its mark and whether the guard let it through: a non-idempotent one only under the lease |
| BetCycles.BetCycle.Attempt | src/browser/workflows/BetCycle.mjs:70-240 | every fault surfaces in a phase that classifies it as the world's outcome demands |
| BetCycles.BetCycle.Execute | src/browser/workflows/BetCycle.mjs:53-260 | catches a fault, judges it by its phase, reports as specified for every world and always gives the lease back |
| AutomationRuns.EveryRunIsSafe | src/browser/workflows/AutomationRun.mjs:40-150 | over every run each cycle issues at most one non-idempotent command, none after one whose outcome the world did not show; reports are true; completion means 1 to 1+rebets successes; every stake is within the limit plus increments due |
| AutomationRuns.UnresolvedBetEndsRun | src/browser/workflows/BetCycle.mjs:213-247 | over every run, a cycle whose bet went out under the lease and faulted, or returned with nothing or something else to be seen, is the last one |
| AutomationRuns.EveryRunFollowsReports | src/browser/workflows/AutomationRun.mjs:57-150 | over every run, the counts, the status and the next cycle are what the reports so far and the rebet and dismissal clicks say |
| AutomationRuns.EveryRunIsBounded | src/browser/workflows/AutomationRun.mjs:73-97 | within (1+rebets)(1+retries) cycles |
| AutomationRuns.BoundIsMet | src/browser/workflows/AutomationRun.mjs:73-150 | the cycle bound is reached exactly by failing as often as allowed before each success |
| AutomationRuns.ReadyWorldSucceeds | src/browser/workflows/BetCycle.mjs:91-233 | a concrete policy and world with which every cycle succeeds, so the bound is met |
| AutomationRuns.SuccessesFollowSeries | src/browser/workflows/BetCycle.mjs:143-151 | successful stakes are the series of intended stakes, bet by bet |
| AutomationRuns.RunTotal | src/browser/workflows/BetCycle.mjs:143-151 | T successes at calculated stake X and increment n place T*X + n*(T-1)*(T-2)/2 in all |
| AutomationRuns.AutomationRun.RunCycle | src/browser/workflows/AutomationRun.mjs:40-149 | realises one turn of the run loop |
| AutomationRuns.AutomationRun.Start | src/browser/workflows/AutomationRun.mjs:33-160 | the loop terminates in the specified final state with all run properties |
| PricingSolver.RequiredStakeIsLeast | src/browser/pricing/PricingSolver.mjs:42-45 | the required stake is the least integer stake whose profit reaches the target |
| PricingSolver.Multiples | src/browser/pricing/PricingSolver.mjs:83-89 | all multiples of the increment in the range, increasing |
| PricingSolver.Solve | src/browser/pricing/PricingSolver.mjs:22-92 | sound and complete: exactly the in-bounds stakes reaching the target when it fits; otherwise none reaches it and the bound stands in exactly when allowed |
| PricingSolver.BoundsMean | src/browser/pricing/PricingSolver.mjs:28-32 | the bounds limit by limit: policy, balance, platform, largest safe integer, increment |
| BehavioralEngine.SingletonIsSettled | src/browser/pricing/BehavioralEngine.mjs:50-52 | stopping at one candidate loses nothing |
| BehavioralEngine.ChoiceIsExtreme | src/browser/pricing/BehavioralEngine.mjs:7-66 | the first minimum or maximum preference decides between the candidates that the round-number preferences before it leave (the multiples of 1000, if there are any); without one, the least is taken; unknown behaviours change nothing |
| BehavioralEngine.ApplyBehavior | src/browser/pricing/BehavioralEngine.mjs:37-66 | terminates with the stake `ChoiceIsExtreme` describes |
| PricingDecision.SelectStake | src/browser/pricing/EdgeStateMachine.mjs:137-160 | a chosen stake meets all limits, and nothing is chosen only when nothing qualifies |
| ConstraintEngine.Evaluate | src/browser/execution/ConstraintEngine.mjs:8-91 | realises the decision for every policy, balance and odds |
| ConstraintEngine.AuthorizedIff | src/browser/execution/ConstraintEngine.mjs:21-90 | a stake is authorised if and only if it is the amount asked for, as far as the balance pays for it, snapped down or to the nearest increment, and is positive, no less than the minimum and no more than the limit; bounds included |
| ConstraintEngine.AuthorizedStakeIsSound | src/browser/execution/ConstraintEngine.mjs:59-90 | an authorised stake that is a number is a whole number of increments within the limits, at most the balance under flooring and half an increment more under rounding; with a negative increment within one increment of the balance |
| ConstraintEngine.StakeIsNotANumberIff | src/browser/execution/ConstraintEngine.mjs:59-90 | the authorised stake is no number if and only if the policy lacks its base stake or target, or the increment is zero or missing and an amount is funded; no limit then matters |
| ConstraintEngine.StakeOverdrawsIff | src/browser/execution/ConstraintEngine.mjs:41-67 | an authorised stake, clamped or not, exceeds the balance if and only if rounding is on and the next increment above the balance is within half an increment of what is paid |
| ConstraintEngine.NegativeIncrementOverdrawsIff | src/browser/execution/ConstraintEngine.mjs:59-67 | the same for negative increments |
| ConstraintEngine.RoundingOverdraws | src/browser/execution/ConstraintEngine.mjs:64-67 | 9.6 on a balance of 9.7 is authorised as 10 |
| ConstraintEngine.ProfitIsOnTarget | src/browser/execution/ConstraintEngine.mjs:26-67 | unclamped profit misses the target by less than one increment's profit, half under rounding, on the side the increment's sign says |
| ConstraintEngine.FixedStakeIsClose | src/browser/execution/ConstraintEngine.mjs:23-25 | a fixed stake is honoured to within one increment |
| ConstraintEngine.ProfitFloorIsGuaranteedIff | src/browser/execution/ConstraintEngine.mjs:41-67 | the minimum acceptable profit is guaranteed, whatever it is, if and only if nothing can be authorised, or the stake is clamped and the balance is a whole number of increments or rounds up |
| ConstraintEngine.UnclampedProfitMissesTheMinimum | src/browser/execution/ConstraintEngine.mjs:41-55 | a target of 10 authorised under a minimum of 50 |
| ConstraintEngine.NothingAboveTop | src/browser/execution/ConstraintEngine.mjs:21-90 | no balance and odds authorise more than the policy's `TopStake`, for either sign of the increment |
| ConstraintEngine.TopIsReached | src/browser/execution/ConstraintEngine.mjs:21-90 | and some balance and odds authorise exactly that |
| ConstraintEngine.NoTopWithoutLimit | src/browser/execution/ConstraintEngine.mjs:26-85 | without a limit a profit target authorises stakes above any bound |
| ConstraintEngine.StakeIsAntitoneInOdds | src/browser/execution/ConstraintEngine.mjs:26-90 | at a fixed balance better odds never need a larger stake |
| JsonValues.CopyKeepsIff | src/worker/MemoryPolicyProvider.mjs:175 | copying through JSON text changes nothing if and only if every array has elements only, without holes |
| JsonValues.CopyIsDense | src/worker/MemoryPolicyProvider.mjs:22 | every copy is like that |
| JsonValues.CopyOwnsIff | src/worker/MemoryPolicyProvider.mjs:175 | a field of the original is in the copy, itself copied, if and only if its path goes through arrays by index only |
| PolicyMerge.AssignedIsOwnIff | src/worker/MemoryPolicyProvider.mjs:116-130 | a value the source assigns ends up at its path among the own fields if and only if the path nowhere goes through a `__proto__` (or an array's `length`) the target does not own |
| PolicyMerge.ObjectsAreOwnIff | src/worker/MemoryPolicyProvider.mjs:120-124 | where the source has an object there is an own container, under the same condition |
| PolicyMerge.AssignedIsOwnBelow | src/worker/MemoryPolicyProvider.mjs:116-130 | below an assigned value the own fields are the source's |
| PolicyMerge.DivergentFieldsAreKept | src/worker/MemoryPolicyProvider.mjs:116-130 | own fields the source does not speak about are as before |
| PolicyMerge.PathsAreClassified | src/worker/MemoryPolicyProvider.mjs:116-130 | these cases cover every path |
| PolicyMerge.EverythingLandsIff | src/worker/MemoryPolicyProvider.mjs:116-130 | all a source says lands among the own fields if and only if none of its objects carries such a name |
| PolicyMerge.MergeIsIdempotent | src/worker/MemoryPolicyProvider.mjs:116-130 | merging twice is merging once |
| PolicyMerge.MergeIsIdleIff | src/worker/MemoryPolicyProvider.mjs:116-130 | a merge changes no own field if and only if the target already holds all the source assigns |
| PolicyMerge.MergesAgreeIff | src/worker/MemoryPolicyProvider.mjs:116-130 | two targets take a source to the same fields if and only if they differ only where it overrides |
| PolicyInheritance.MergeHereIff | src/worker/MemoryPolicyProvider.mjs:116-130 | with the inherited objects merged into as the code does, in any key order: nothing but own fields is touched if and only if `Disturbs` is false of target and source, and the fields are then the merged ones |
| PolicyInheritance.MergeIsUnnoticedIff | src/worker/MemoryPolicyProvider.mjs:119-127 | no object or array but the target reads anything else than before if and only if the merge does not disturb |
| PolicyInheritance.PlainPathsReadOwnFields | src/worker/MemoryPolicyProvider.mjs:83-95 | while nothing was disturbed, property access without `__proto__` reads the own fields |
| PolicyInheritance.AssignedReadsBackIff | src/worker/MemoryPolicyProvider.mjs:116-130 | after a merge that disturbs nothing, property access gives an assigned value back if and only if its path does not leave the target's own fields, which it can only at its last name, `__proto__` |
| PolicyInheritance.ObjectsReadAsContainers | src/worker/MemoryPolicyProvider.mjs:120-124 | and reads a container wherever the source has an object |
| PolicyInheritance.EverythingIsHeardIff | src/worker/MemoryPolicyProvider.mjs:116-130 | so all the source says is heard if and only if none of its primitives sits under a `__proto__` the target does not own |
| PolicyInheritance.PrimitiveIsSwallowed | src/worker/MemoryPolicyProvider.mjs:125-127 | a concrete primitive that is ignored |
| PolicyInheritance.FieldIsInherited | src/worker/MemoryPolicyProvider.mjs:119-124 | a concrete field below `__proto__` that reads back under its path, directly on the target and on every other object |
| PolicyCopies.LazyCopyEqualsReplayIff | src/worker/MemoryPolicyProvider.mjs:160-180 | in the store of copies, an account reads at every point of a history what a policy of its own, had from the start, would, if and only if its first copy of the default loses nothing that the copying update does not override |
| PolicyCopies.WholeListsLoseNothing | src/worker/MemoryPolicyProvider.mjs:160-180 | so it does over every history whose updates of everyone assign lists as a whole |
| PolicyCopies.CopyLosesMember | src/worker/MemoryPolicyProvider.mjs:174-177 | concrete history after which an account lacks what everyone was told before |
| PolicyCopies.CopyFillsHole | src/worker/MemoryPolicyProvider.mjs:174-177 | concrete history after which an account has null where the default has nothing |
| PolicyCopies.OthersAreInvisible | src/worker/MemoryPolicyProvider.mjs:171-179 | in the store of copies, changes that concern other entries never show |
| PolicyCopies.TargetsMean | src/worker/MemoryPolicyProvider.mjs:160-180 | no target, an empty one, ALL and * mean everyone; any other leaves the default alone |
| PolicyCopies.SectionsAreSeparate | src/worker/MemoryPolicyProvider.mjs:139-150 | an update of one category merges into that section and touches no other |
| PolicyCopies.SetPolicyIsParsed | src/worker/MemoryPolicyProvider.mjs:102-107 | a policy that is set becomes the entry, as its JSON text reads |
| PolicyCopies.AliasReadsCanonical | src/worker/MemoryPolicyProvider.mjs:71-95 | a name with an alias reads the entry of what it stands for, then its own, then the default |
| PolicyCopies.EntryExistsIffOpened | src/worker/MemoryPolicyProvider.mjs:102-107 | a key has an entry if and only if some change of the history opened it |
| PolicyCopies.MutualAliasesShareIff | src/worker/MemoryPolicyProvider.mjs:83-95 | after any history two names aliased to each other read one entry if and only if the history did not open one under each |
| PolicyCopies.MutualAliasesCanSplit | src/worker/MemoryPolicyProvider.mjs:71-95 | concrete updates after which each name misses the other's |
| PolicySharing.LeakIsInvisibleIff | src/worker/MemoryPolicyProvider.mjs:116-130 | a merge in place leaves another policy reading as before if and only if its objects go into nothing the other holds, or bring it nothing new |
| PolicySharing.MergeAfterLeak | src/worker/MemoryPolicyProvider.mjs:165-170 | a policy's own merge overrides whatever part of it has leaked in before |
| PolicySharing.EveryoneGetsTheMerge | src/worker/MemoryPolicyProvider.mjs:165-170 | merging into the default and all accounts, one after the other and in place, gives each its own merge whatever they share |
| PolicySharing.ClusterUpdateReachesEveryone | src/worker/MemoryPolicyProvider.mjs:165-170 | after an ALL update the default and every entry own all it says if and only if nothing of it escapes them; if nothing was disturbed, property access shows all it says if and only if no primitive was swallowed |
| PolicySharing.TargetedUpdateIsIsolatedIff | src/worker/MemoryPolicyProvider.mjs:171-179 | a targeted update leaves the default and all other entries reading as before, and disturbs nothing, if and only if it is harmless |
| PolicySharing.FirstUpdateNeverLeaks | src/worker/MemoryPolicyProvider.mjs:174-178 | the first update of an account goes into a fresh copy and shows nowhere else |
| PolicySharing.CopiesPredictIff | src/worker/MemoryPolicyProvider.mjs:102-180 | over any history the policies behave as separate copies, made through JSON text, if and only if every update is harmless |
| PolicySharing.InPlaceReadsReplayIff | src/worker/MemoryPolicyProvider.mjs:102-180 | then an account reads at every point what a policy of its own, had from the start, would, if and only if its first copy loses nothing |
| PolicySharing.OnlyArraysAreShared | src/worker/MemoryPolicyProvider.mjs:116-180 | over every history two policies hold nothing in common but arrays, and nothing at all if no ALL update assigns an array |
| PolicySharing.PlainHistoriesAreCopies | src/worker/MemoryPolicyProvider.mjs:102-180 | so histories whose ALL updates assign no arrays and whose updates avoid `__proto__` and `length` are histories of separate copies, and each account reads like a policy of its own if and only if its first copy loses nothing |
| PolicySharing.SharedArrayLeaks | src/worker/MemoryPolicyProvider.mjs:116-180 | concrete run in which an update of one account changes the default |
| MemoryPolicyProvider.OthersShowTheLeak | src/worker/MemoryPolicyProvider.mjs:116-130 | in the heap, after a merge into one policy every other shows exactly its leak |
| MemoryPolicyProvider.NewProviderSharesNothing | src/worker/MemoryPolicyProvider.mjs:17-41 | the policies of a new provider hold nothing in common |
| MemoryPolicyProvider.MemoryPolicyProvider.DeepMerge | src/worker/MemoryPolicyProvider.mjs:116-130 | the key walk merges in place, in any key order, touching only the containers on its way |
| MemoryPolicyProvider.MemoryPolicyProvider.Stringify | src/worker/MemoryPolicyProvider.mjs:175 | a policy in the heap is copied as its JSON text says |
| MemoryPolicyProvider.MemoryPolicyProvider.MergeEntry | src/worker/MemoryPolicyProvider.mjs:139-150 | one policy takes the source, the others show what they share |
| MemoryPolicyProvider.MemoryPolicyProvider.GetPolicy | src/worker/MemoryPolicyProvider.mjs:83-95 | resolved name first, then the raw name, then the default; the object itself is returned |
| MemoryPolicyProvider.MemoryPolicyProvider.SetPolicy | src/worker/MemoryPolicyProvider.mjs:102-107 | replaces the resolved entry by a copy; an empty id changes nothing |
| MemoryPolicyProvider.MemoryPolicyProvider.UpdatePolicy | src/worker/MemoryPolicyProvider.mjs:160-180 | realises the update in place, copying the default first where the account has no entry |
| CircuitBreaking.LogFilters | src/browser/coordination/HealthMonitor.mjs:27-31 | moving the window on the capped log equals moving it on the full history |
| CircuitBreaking.LogAppends | src/browser/coordination/HealthMonitor.mjs:14-20 | recording on the capped log equals recording in the full history |
| CircuitBreaking.CircuitBreaker.RecordFailure | src/browser/coordination/HealthMonitor.mjs:14-25 | keeps the log a faithful summary of the history |
| CircuitBreaking.CircuitBreaker.IsTripped | src/browser/coordination/HealthMonitor.mjs:27-35 | true exactly when the threshold is at most ten and the full history has that many failures in the window |
| CircuitBreaking.TrippedMeans | src/browser/coordination/HealthMonitor.mjs:27-35 | tripped means that the threshold-last failure lies in the window, its edge included |
| CircuitBreaking.CapIsHarmlessIff | src/browser/coordination/HealthMonitor.mjs:18-35 | the log answers the trip question like the full history, for all histories and moments, if and only if the threshold is at most ten |
| CircuitBreaking.OverlongThresholdNeverTrips | src/browser/coordination/HealthMonitor.mjs:14-35 | a breaker with a higher threshold, after that many failures at once, has not tripped while its history has |

## Left out

- Several slaves at once: the protocol is stated for one slave; slaves share only the global backpressure flag, which is an event here.
- Failover, page reload, queue clearing and rebasing of a slave's number: they end the regime the lockstep theorem is about; reporting a slave broken is modelled as a flag.
- GapRecovery.EveryScheduleSettles: nothing arrives meanwhile, and navigations wait in the critical or discrete queue, as the dispatcher sends them.
- A missing page: the drain loop then repeats the same turn (`Lockstep.TurnIsFutileIff`), so runs and drains assume a registered page.
- Exceptions while building or timing a queued command, before it is taken out: not part of the model.
- The deadline of a queued command is an input of each turn; queue statistics, telemetry, logging, tracing and forensic records are erased.
- Lower-casing of command types covers ASCII letters only.
- JSON parsing and envelope validation of a received frame, the handshake and heartbeats: a delivered frame is its bytes.
- A ring buffer of capacity zero: the only one the page creates holds 128 entries.
- Recovery of runs from the write-ahead log, and the transition to PROCESSING in the table, which nothing in the repository calls.
- AutomationRuns.AutomationRun.Start: nothing is said about an account across workflows, because an existing run of any state is reused there; other runs do not touch the table during a run.
- Translating commands for rebet and dismissal is taken not to throw; clicking them may.
- Intended sums and stakes are exact reals, not IEEE doubles; so are odds, deltas and profits.
- ConstraintEngine.Evaluate: balances and odds are numbers, and what the policy has is too; null or text in place of a number is not modelled.
- MemoryPolicyProvider.MemoryPolicyProvider.DeepMerge: an array is a table from names to values; its length is one more than its last index, and an update that assigns `length` counts as disturbing.
- MemoryPolicyProvider.MemoryPolicyProvider.UpdatePolicy: from the first disturbance on (something merged into what others inherit, an object given another prototype, an array resized, the engine throwing) the model only records that there was one.
- PolicyInheritance.AssignedReadsBackIff: reading a property of a primitive gives nothing here, nor do the built-in members of objects and arrays.
- JsonValues.CopyKeepsIff: numbers outside the range of doubles, and arrays too long to be written as text, are not modelled.
- MemoryPolicyProvider.MemoryPolicyProvider.GetPolicy: callers that change the object they are given are not modelled.
- MemoryPolicyProvider.MemoryPolicyProvider.SetPolicy: takes an object, as documented; primitive policies are not modelled.
- Behaviour names are the three known ones or unknown; inherited property names of JavaScript objects are not.
- EdgeStateMachine beyond chaining solver and selection, AuthorizationGateway, ReconciliationDaemon, cashout cycles, page scripts, locators, overlays, sessions and proxies.
