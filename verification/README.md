# Concurrency Kit, the ring logger and the WebSocket reader in Dafny

This project models three parts of the repository and proves what they are meant to guarantee:

- the vendored Concurrency Kit under `test_example1/ck`: epoch reclamation, the dissemination
  barrier, the multi-producer multi-consumer ring, the hash sets `ck_hs` and `ck_rhs`, the
  hazard-pointer stack, the event count and the phase-fair lock;
- the logger of `test_example1/eg_cklog.c`, which circulates message cells through two such rings;
- the frame reader of `test_ws/src/ws.c`.

`dafny verify dfyconfig.toml` checks everything.

## How the code is modelled

**Concurrent protocols** (`Epoch*.dfy`, `Dissemination*.dfy`, `Ring.dfy`, `RingProgress.dfy`, `LogPool.dfy`,
`LogSteps.dfy`, `LogOverrun.dfy`, `LogProgress.dfy`, `LogAlone.dfy`, `HsReaders.dfy`, `HsProgress.dfy`,
`HazardStack.dfy`, `HazardLimits.dfy`, `HazardProgress.dfy`, `Event*.dfy`, `PhaseFair*.dfy`) are state
machines. A step is one shared load, store, exchange,
fetch-and-add or compare-and-swap of one thread; any number of threads interleave, memory is
sequentially consistent, and counters do not wrap (the word of the event count is the exception: it
has 32 bits and carries into its flag). Each file has one predicate
per step, named after the statement it stands for, a predicate `IsRun` for the sequences of states
that such steps make, an invariant with a lemma for every step, and then the main results about all
runs. State components called history in the comments are not in the code: they remember what
happened, and no step reads them. One epoch record, one ring client, one hash-set reader is one
thread.

Operations that did nothing, or went round in circles, would be safe as well. A second group of results
(`EpochTicks.dfy`, `EpochReclaims.dfy`, `EpochBarrier.dfy`, `LogAlone.dfy`, `EventAdds.dfy` and the
`*Progress.dfy` files) says that they do their work: what a call that returns has done, in every run, and
what a call comes to from every reachable state when only its own steps follow.

**Code that one thread executes on its own data** is imperative: classes with the fields of the C
structures, arrays for its buffers, and methods with the source's loops. `HashSet.dfy`, `HsMap.dfy`
(ck_hs, with `HsTable.dfy`, `HsStores.dfy`, `HsCollect.dfy`, `HsPlaces.dfy` and `HsRoom.dfy` for the tables
that they work on), `RobinHood.dfy`, `RhsMap.dfy`, `RhsProbe.dfy` (ck_rhs), `RingObject.dfy`, `LogObject.dfy`
(the ring and the logger used by one thread), `HazardRecord.dfy` (ck_hp), the wiring loops in
`Dissemination.dfy` and `WebSocket.dfy` are of this kind. Their contracts speak about values: the set
of stored objects, the queue of messages, the stream of bytes.

**The two views of ck_hs meet in its writer.** A published `HsMap.Map` can be changed only through
methods for single shared stores, and their preconditions demand that the store is legal for
concurrent readers (`HsTable.Legal`): every entry can still be reached, and an entry is buried only
when it has no equivalent left or after readers have been signalled. The map logs its states, every
operation extends the log of legal states, and `HsReaders` proves lookups right beside any writer
that makes legal stores. `HsRuns` puts the two together: readers and the stores of a whole log in any
interleaving.

Files that several models share: `Wrappers.dfy` (an optional value), `Bits.dfy` (masks, exclusive or),
`Internal.dfy` (the bit tricks of `ck_internal.h`), `LogMemory.dfy` (C strings in one block of
memory), `MapSizes.dfy` (capacities and limits), `HashKeys.dfy` (the hash
and compare callbacks). The comparison callback is required to be an equivalence that respects the
hash, callers pass the hash of the key, and keys are neither EMPTY nor TOMBSTONE.

I/O and the environment are parameters. Malloc answers from a list of grants and then with NULL; the
socket delivers a finite stream in chunks of any size and takes a given number of sends; the hash
function and the comparison are callbacks.

## Where code and documentation disagree

Where the code does not do what is promised, the model does what the code does. A lemma gives inputs
or runs that fail, and another the exact condition under which the promise is kept.

- `ck_ec.h` says that a wait returns 0 if the counter has changed. The second spin of the slow path
  also returns 0 when a producer has merely cleared the flag (`test_example1/ck/src/ck_ec.c:345-364`).
  `EventCount.WaitMayReturnWithoutChange` gives such a run. `EventReturn.ReturnMeansChange` and
  `SecondSpinReturns` say when it happens: a producer lowers the flag between the waiter's upgrade and
  its second spin. `EventReturn.CanReturnUnchanged` says it for the time of the call: exactly if some
  producer has yet to clear the flag.
- `ck_hp_member_cache` checks `hazards > CK_HP_CACHE` before it stores, so one hazard more than the
  cache has entries is stored, over the field `global` of the record (`test_example1/ck/src/ck_hp.c:206-213`).
  Further hazards are never seen: the marker that should start a second, slower scan in `ck_hp_reclaim`
  is NULL whenever the scan of the subscribers ends. `HazardLimits.SafeExactlyWithinCache`: for a cache
  of any size n, nothing is overwritten and no protected node is destroyed with at most m registered
  threads if and only if m <= n. `OverflowWritesPast` and `OverflowIsUnsafe` give the runs with n + 1 and
  n + 2 threads.
- `eg_cklog_enqueue` copies with strncpy, which leaves a message of `msg_size` characters or more without
  a NUL, and `eg_cklog_consume` prints up to a NUL (`test_example1/eg_cklog.c:33-64`). The print runs on
  into the next cell, which may be another thread's, or past the memory.
  `LogOverrun.LongMessageIsSpliced` gives such runs, `IntactExactlyBelowCellSize` the condition: a message
  is printed intact in every run if and only if it is shorter than a cell.
- `eg_cklog_enqueue` has no return statement on success (`test_example1/eg_cklog.c:26-42`): the value is
  undefined there, and arbitrary in the model.
- `eg_cklog_create` enqueues N indices into a ring of N slots, which holds N - 1: index N - 1 never
  circulates.
- `read_frame` adds up lengths in 64 bits before it compares the total with MAX_FRAME_LENGTH, and asks
  realloc for the wrapped sum (`test_ws/src/ws.c:908-982`). A length that wraps the total passes the
  check, and its payload is written outside the block. `FrameLimits.WrappedLengthOverruns` gives the
  streams; `LimitIsEnforced`, `DataOverruns` and `OverrunsExactlyWhenWrapped` say that this happens if and
  only if size + length >= 2^64. Such a length has its top bit set.
- `read_frame` ends a control payload with a NUL, and msg_ctrl has 125 bytes (`test_ws/src/ws.c:133`,
  `test_ws/src/ws.c:986-1004`). A payload of exactly 125 bytes, which RFC 6455 allows, puts it one byte behind
  the array, where common ABIs have padding. `FrameLimits.FullPingsOverflow` says for which messages.
- `ck_internal_power_2` wraps to 0 for more than 2^31, and a dissemination barrier for that many threads
  would have no rounds (`Dissemination.SizeIsRounds`).
- `ck_hs_map_create` and `ck_rhs_map_create` pass an `unsigned long`, of 64 bits here, to
  `ck_internal_power_2`, which takes 32 (`test_example1/ck/src/ck_hs.c:204`, `test_example1/ck/src/ck_rhs.c:342`).
  `ck_hs_grow` for 2^32 slots on a small set returns true and publishes 8.
  `MapSizes.CapacityReachesExactly`: a new map has the slots asked for if and only if these are at most
  2^31. `Grow` says the same of whole growths, whose restarts double the capacity: after a first attempt, for
  powers of two, and while the doubled capacity is at most 2^31. Of others a restart may leave few low bits
  (`RestartMayShrink`). A capacity that is doubled until it wraps to 0 lets put and set fail although malloc
  never answered NULL; `HashSet.Enlarge` says that at least 32 maps had no room by then.
- RFC 6455, section 5.1, tells a server to close the connection on a frame that is not masked. `next_frame` drops
  the MASK bit and reads four mask bytes in any case (`test_ws/src/ws.c:1132-1133`,
  `test_ws/src/ws.c:928-932`): `Frames.MaskBitIsIgnored`.

## Model

| member | source | states |
|---|---|---|
| EpochSafety.NoCallbackUnderAReader | test_example1/ck/src/ck_epoch.c:565-616 | In every run, once the callback of an unlinked object may run (dispatched by a poll at epoch - 2, at epoch - 1 or because nobody was active, or by a barrier), no section that was open when the object was unlinked is still open |
| EpochSafety.SynchronizeWaitsForReaders | test_example1/ck/src/ck_epoch.c:424-526 | Whichever way the loop of synchronize is left (two completed scans, no active record, or the global epoch past the goal), every section open at the call has ended |
| EpochSafety.ReadersLagByAtMostOne | test_example1/ck/include/ck_epoch.h:125-167 | In every reachable state a record that has finished its begin announces the global epoch or the one before, although begin takes three steps and pollers advance the epoch meanwhile |
| EpochSafety.NestedSectionsStayCovered | test_example1/ck/src/ck_epoch.c:150-226 | The sections of one bucket all loaded one epoch, and the epoch announced by the record is never newer than that of any section still open, in whatever order sections end |
| EpochSteps.NextKeeps | test_example1/ck/src/ck_epoch.c:61-111 | The safety argument of the file's comment as an invariant that every step keeps |
| EpochProgress.PollReclaimsEverything | test_example1/ck/src/ck_epoch.c:565-616 | From every reachable state in which nobody is active, a poll that nobody interferes with empties all four lists of its record and makes every callback on them runnable |
| EpochTicks.PollTicks | test_example1/ck/src/ck_epoch.c:565-616 | An undisturbed poll that begins while somebody is active and every active record announces the global epoch g leaves the epoch g + 1, has run the callbacks in the lists of g - 1 and g - 2, and has changed nothing else |
| EpochTicks.PollCanTick | test_example1/ck/src/ck_epoch.c:565-616 | From every such reachable state a poll can be made to its end |
| EpochTicks.PollGivesUp | test_example1/ck/src/ck_epoch.c:565-595 | From every reachable state in which some active record announces an older epoch, an undisturbed poll runs the callbacks in the list of epoch - 2, gives up and changes nothing else |
| EpochReclaims.TwoPollsRun | test_example1/ck/src/ck_epoch.c:565-616 | Two such polls in the epochs g and g + 1, with the active readers renewed in between and anything but another tick happening: every callback that waited on the record at the first has run, unless it waited in the list of epoch g + 1 |
| EpochReclaims.RecentRunsAfterTwo | test_example1/ck/src/ck_epoch.c:565-616 | In particular what was deferred in epoch g or in one of the two before |
| EpochReclaims.ThreePollsRunAll | test_example1/ck/src/ck_epoch.c:565-616 | A third such poll has run the rest |
| EpochReclaims.DeferredRuns | test_example1/ck/include/ck_epoch.h:195-208 | So a callback passed to ck_epoch_call before the first of three such polls, however the steps of the call interleave with others, has run after the third |
| EpochBarrier.BarrierRunsAll | test_example1/ck/src/ck_epoch.c:536-543 | In every run a barrier that returns has run every callback that waited on its record at the call |
| EpochBarrier.RoundTicks | test_example1/ck/src/ck_epoch.c:446-515 | An undisturbed round of a synchronize in which every active record is in the global epoch moves that epoch on and is followed by the second round or the end; with nobody active the call is over at once |
| EpochBarrier.HeldUpGoesOn | test_example1/ck/src/ck_epoch.c:455-497 | After a scan that was held up, the only step of a synchronize resumes it in the same epoch, starts over in a new one, and ends the call once the epoch has moved by three |
| EpochBarrier.EndAnnouncesNewer | test_example1/ck/src/ck_epoch.c:150-182 | When the last section of a bucket ends and all those still open on the record are newer, the record announces their epoch |
| EpochProgress.CallbacksRunOnce | test_example1/ck/src/ck_epoch.c:359-394 | A callback that may run is in no list of any record any more, so no dispatch finds it again |
| EpochProgress.QueuedOnce | test_example1/ck/src/ck_epoch.c:359-394 | No callback is queued twice, neither in one list nor in two; so a dispatch runs each of its callbacks once |
| EpochSteps.DropsRefKeeps | test_example1/ck/src/ck_epoch.c:150-182 | Ending a section that moves the record's epoch forward keeps the invariant |
| EpochSteps.AddsRefKeeps | test_example1/ck/src/ck_epoch.c:185-226 | Taking a reference on the bucket of the current epoch keeps the invariant |
| EpochSteps.BeginStoresKeeps | test_example1/ck/include/ck_epoch.h:133-160 | Publishing an epoch that may be one behind the global epoch by now keeps the invariant |
| EpochSteps.CallPushesKeeps | test_example1/ck/include/ck_epoch.h:195-208 | A callback deferred under the epoch loaded by the call goes to a list whose pending callbacks all carry epochs congruent to it, and is not yet due |
| EpochSteps.DispatchKeeps | test_example1/ck/src/ck_epoch.c:359-394 | Emptying a list whose callbacks are due makes exactly those callbacks runnable and keeps the invariant |
| EpochSteps.ScanEpochKeeps | test_example1/ck/src/ck_epoch.c:320-357 | A scan that walks on has seen every record behind its cursor inactive or in the epoch it compares with |
| EpochSteps.AdvancesKeeps | test_example1/ck/src/ck_epoch.c:499-515 | The compare-and-swap of the global epoch, by a poll or by a synchronize, never leaves a reader two epochs behind; after the last round of a synchronize the sections it found are over |
| EpochSteps.ScanHeadKeeps | test_example1/ck/src/ck_epoch.c:320-336 | A scan that has loaded the head of the stack of records has no record above its cursor to answer for, whatever is registered meanwhile |
| EpochSteps.OldSectionsEnded | test_example1/ck/src/ck_epoch.c:75-104 | Sections that loaded at most epoch e have ended once the global epoch is e + 2 |
| EpochSteps.PassedSectionsEnded | test_example1/ck/src/ck_epoch.c:75-104 | They have also ended once a scan at a later epoch has passed every record |
| Dissemination.NobodyLeavesEarly | test_example1/ck/src/ck_barrier_dissemination.c:96-130 | For every number of threads and every episode, no thread has left an episode that another has not entered; so threads are at most one episode apart |
| Dissemination.KnowledgeDoubles | test_example1/ck/src/ck_barrier_dissemination.c:104-120 | A thread that starts round r has heard from its 2^r predecessors on the ring, itself included, or from all threads if there are fewer |
| Dissemination.ParitySetsAreNotConfused | test_example1/ck/src/ck_barrier_dissemination.c:107-127 | While a thread waits for a flag, the last store into it belongs to this episode or to the previous use of the same parity set, never to another one |
| Dissemination.FlagTellsEpisode | test_example1/ck/src/ck_barrier_dissemination.c:110-117 | The awaited flag shows the thread's sense if and only if its writer has stored it in this episode |
| Dissemination.SomeoneCanMove | test_example1/ck/src/ck_barrier_dissemination.c:96-130 | The barrier does not deadlock: while a thread is inside and those outside are ahead of it, some thread has a step to take that is not a spin |
| DisseminationProgress.StepGoesOn | test_example1/ck/src/ck_barrier_dissemination.c:96-130 | Every step is a spin or takes its thread exactly one of the 2 size + 2 places of an episode further: no round is made twice or left out |
| DisseminationProgress.EverybodyLeaves | test_example1/ck/src/ck_barrier_dissemination.c:96-130 | Every run can go on until every thread has left any given number of episodes |
| Dissemination.InitBarrier | test_example1/ck/src/ck_barrier_dissemination.c:35-76 | Returns the right number of rounds for up to 2^31 threads, and gives thread i, in both parity sets and every round k, the flag of thread (i + 2^k) mod n, with every flag cleared, also on the shortcut for powers of two |
| Dissemination.SizeIsRounds | test_example1/ck/src/ck_barrier_dissemination.c:44-44 | The computed number of rounds is the least k with 2^k >= n if and only if n is at most 2^31 |
| Dissemination.PartnerByMask | test_example1/ck/src/ck_barrier_dissemination.c:55-66 | Where the number of threads passes the power-of-two test, the mask finds the same partner as the remainder |
| Internal.Power2IsCeiling | test_example1/ck/src/ck_internal.h:50-61 | ck_internal_power_2 is the least power of two that is not below its argument, up to 2^31, and 0 beyond |
| Internal.LogIsExponent | test_example1/ck/src/ck_internal.h:38-48 | ck_internal_log of a power of two is its exponent |
| Internal.SmearDoubles | test_example1/ck/src/ck_internal.h:54-58 | Or-ing a word with itself shifted by the number of its leading ones doubles that number |
| Ring.RefinesBoundedQueue | test_example1/ck/include/ck_ring.h:311-395 | Every step of an enqueue or dequeue is a step of a bounded first-in first-out queue: the commit of a ticket appends its value, a successful compare-and-swap takes the front although the slot was read before it, anything else changes nothing |
| Ring.DequeuesInTicketOrder | test_example1/ck/include/ck_ring.h:437-474 | In every run c_head <= p_tail <= p_head <= c_head + size - 1, and the values dequeued so far are those of the first tickets, in order |
| Ring.FullMeansFull | test_example1/ck/include/ck_ring.h:343-371 | An enqueue returns false only if at some instant of the call size - 1 tickets were reserved and not consumed |
| Ring.EmptyMeansEmpty | test_example1/ck/include/ck_ring.h:448-460 | A dequeue that reports empty found no committed entry at that instant |
| Ring.TryFailsByContention | test_example1/ck/include/ck_ring.h:412-435 | A try-dequeue fails at its compare-and-swap only if somebody else has taken that entry |
| Ring.OldestTicketCanCommit | test_example1/ck/include/ck_ring.h:299-309 | While p_tail < p_head exactly one producer holds ticket p_tail, and it is never the one that waits |
| RingProgress.EnqueueFails | test_example1/ck/include/ck_ring.h:343-371 | In every reachable state: on a full ring an undisturbed enqueue returns false and leaves everything as it is |
| RingProgress.EnqueueSucceeds | test_example1/ck/include/ck_ring.h:311-395 | With room its value gets the next ticket and, if no earlier ticket has still to be committed, is last in the queue when it returns true |
| RingProgress.DequeueAlone | test_example1/ck/include/ck_ring.h:437-474 | An undisturbed dequeue reports empty exactly on the empty ring, and otherwise takes the oldest value |
| RingProgress.EnqueueStopsTrying | test_example1/ck/include/ck_ring.h:320-371 | With whatever stale counters it stands in its loop, an undisturbed enqueue fails or gets the next ticket within four more steps |
| RingProgress.DequeueEnds | test_example1/ck/include/ck_ring.h:412-474 | An undisturbed dequeue is over within six more steps, and has taken the front if it has taken anything |
| RingObject.Ring.Enqueue | test_example1/ck/include/ck_ring.h:311-395 | One thread alone: succeeds exactly if fewer than size - 1 values are queued, and then appends the value |
| RingObject.Ring.Dequeue | test_example1/ck/include/ck_ring.h:437-474 | One thread alone: fails exactly on the empty queue, and otherwise returns and removes the oldest value |
| RingObject.CreateFreeRing | test_example1/eg_cklog.c:9-22 | The creation loop leaves the indices 0 .. N - 2 in the free ring; its last enqueue fails |
| LogPool.IndicesAreConserved | test_example1/eg_cklog.c:9-76 | In every run each of the indices 0 .. N - 2 is in exactly one of the free ring, the used ring and one thread's hands |
| LogPool.NothingElseCirculates | test_example1/eg_cklog.c:9-76 | No other index is ever in a ring or in a hand |
| LogPool.RetriesAreImpossible | test_example1/eg_cklog.c:67-75 | The question in the source's comment answered: neither retry branch behind the two enqueues can be taken |
| LogPool.CellsHaveOneOwner | test_example1/eg_cklog.c:26-42 | A message cell that is being filled or printed belongs to one thread |
| LogOverrun.PrintLeavesCellExactly | test_example1/eg_cklog.c:61-64 | A print loads bytes outside its own cell if and only if the message is not shorter than a cell |
| LogPool.MessagesArriveIntact | test_example1/eg_cklog.c:45-66 | What is printed for a ticket is the message published under it, if that is shorter than a cell, and no ticket is printed twice |
| LogOverrun.LongMessageIsSpliced | test_example1/eg_cklog.c:33-64 | The failing runs, for every message as long as a cell or longer: after the bytes of the message a byte of a cell is printed that another thread holds, or the print runs past the memory |
| LogOverrun.IntactExactlyBelowCellSize | test_example1/eg_cklog.c:33-64 | A message is printed intact in every run if and only if it is shorter than a cell |
| LogProgress.LogHasSent | test_example1/eg_cklog.c:26-42 | In every run an enqueue call that returns has published its message, or no cell was free at some instant of the call |
| LogProgress.ConsumeHasPrinted | test_example1/eg_cklog.c:45-76 | A consume call that returns has printed a ticket that had not been printed before |
| LogAlone.LogSucceeds | test_example1/eg_cklog.c:26-42 | From every reachable state with a free cell and nobody about to commit a message: an undisturbed enqueue copies its message into the first free cell and publishes it behind all others |
| LogAlone.LogFails | test_example1/eg_cklog.c:31-32 | Without a free cell it returns false and leaves everything as it is |
| LogAlone.ConsumeSucceeds | test_example1/eg_cklog.c:45-76 | From every reachable state with a message published and nobody about to commit a freed cell: an undisturbed consume prints the oldest message under its ticket and frees the cell behind all others |
| LogPool.UsedTakeKeeps | test_example1/eg_cklog.c:45-62 | Taking an index out of the used ring keeps every index in one place and every message in its cell |
| LogPool.FillKeeps | test_example1/eg_cklog.c:33-33 | Each byte that strncpy stores lands in the cell of its thread and leaves all others alone |
| LogObject.Log.Enqueue | test_example1/eg_cklog.c:26-42 | One thread alone: the log accepts a message exactly while fewer than N - 1 wait, and appends the bytes that strncpy leaves; it returns false when full and an undefined value otherwise |
| LogObject.Log.Consume | test_example1/eg_cklog.c:45-76 | One thread alone: prints the C string that starts in the oldest waiting cell, which is the message if that is shorter than a cell, and frees the cell at the first attempt |
| LogMemory.CellPrints | test_example1/eg_cklog.c:33-64 | What printf finds where strncpy has stored: the message if it is shorter than the cell, otherwise its first bytes and more |
| HsReaders.GetNeverMisses | test_example1/ck/src/ck_hs.c:875-900 | In every interleaving of readers with the writer's stores, a lookup whose key stays in the set for the whole call returns an equivalent object |
| HsReaders.GetIsAtomic | test_example1/ck/src/ck_hs.c:875-900 | The answer of every lookup, an object or none, is right for the current map at some instant of the call |
| HsProgress.GetAlone | test_example1/ck/src/ck_hs.c:875-900 | A lookup called in any reachable state returns if only its own steps follow, answers for the current map, and makes no more probes than the home bound allows, or the maximum where that is saturated or absent |
| HsReaders.StoreKeepsAhead | test_example1/ck/src/ck_hs.c:97-106 | A store leaves a reader's key ahead of it in the probe sequence, or has raised the generation the reader will compare |
| HsReaders.LegalStoreIsWriterStep | test_example1/ck/src/ck_hs.c:97-106 | The stores that the writer's methods log are writer steps of the concurrent model |
| HsRuns.LogIsRun | test_example1/ck/src/ck_hs.c:759-813 | Any interleaving of readers with the stores of a whole log is a run of the concurrent model, in which the current map goes through the logged states in order |
| HsRuns.LookupsAnswerForTheLog | test_example1/ck/src/ck_hs.c:875-900 | Every lookup beside such a writer gives the answer of one of the states logged during the call |
| HashSet.HashSet.Put | test_example1/ck/src/ck_hs.c:815-863 | Adds an object exactly if no equivalent one is in the set, and touches nothing if one is. It fails only without room within the probe limit and without memory to grow: malloc has answered NULL during the call, or at least 32 maps had no room. With room, and no need to grow, it does not call malloc and the object is at the first free position of its probe sequence. Afterwards the map is no more than half full, unless there is no memory |
| HashSet.HashSet.PutUnique | test_example1/ck/src/ck_hs.c:866-872 | The same for an object that has no equivalent in the set |
| HashSet.HashSet.Set | test_example1/ck/src/ck_hs.c:759-813 | Adds an object as put does, or replaces the equivalent one, which it returns, without calling malloc; no tombstone precedes the new object |
| HashSet.HashSet.FetchAndStore | test_example1/ck/src/ck_hs.c:644-674 | Replaces and returns the equivalent object exactly if there is one; no tombstone precedes the new object |
| HashSet.HashSet.Remove | test_example1/ck/src/ck_hs.c:902-920 | Removes and returns the equivalent object if there is one, and changes nothing otherwise; it never calls malloc |
| HashSet.HashSet.Get | test_example1/ck/src/ck_hs.c:875-900 | With no writer beside it, returns an equivalent object of the set exactly if there is one |
| HashSet.HashSet.Grow | test_example1/ck/src/ck_hs.c:332-403 | Publishes a map with exactly the same objects and the capacity of the attempt that succeeded, or keeps the old one because malloc answered NULL or the capacity asked for is below the old one. After the first attempt, for a power of two, and as long as the doubled capacity is at most 2^31, the new map has the wanted slots if and only if these are at most 2^31. With at most eight objects the first attempt succeeds |
| HashSet.HashSet.Enlarge | test_example1/ck/src/ck_hs.c:412-413 | Asking for twice the slots, as insertions do, gives them exactly to a map below 2^31 slots; it fails without memory only after at least 32 maps had no room, when the capacity has been shifted out of its word |
| MapSizes.MapCapacityIs | test_example1/ck/src/ck_hs.c:204-206 | A map has the least power of two that is not below the low 32 bits of the slots asked for, at least 8; and 8 if these bits are past 2^31 |
| MapSizes.CapacityReachesExactly | test_example1/ck/src/ck_hs.c:204-206 | A new map has at least the slots asked for if and only if these are at most 2^31; asked for 2^32 it has 8 |
| MapSizes.RegularReaches | test_example1/ck/src/ck_hs.c:394-395 | The same for an attempt that follows any number of doublings of a power of two, unless it gives 8 slots, or of a capacity that stays within 2^31 |
| MapSizes.RestartMayShrink | test_example1/ck/src/ck_hs.c:394-395 | Of other capacities doubling may leave few low bits: 2^30 + 1, doubled six times, gives 64 slots |
| MapSizes.WrapsLate | test_example1/ck/src/ck_hs.c:340-342 | Twice a capacity in use, doubled on, falls below that capacity only after 32 doublings |
| HashSet.HashSet.Collect | test_example1/ck/src/ck_hs.c:555-642 | Fails exactly if a full collection gets no memory for its bounds, and then changes nothing. Otherwise the set stays, no key comes later on its probe sequence, no bound rises, and every store on the way keeps concurrent lookups right. If a tombstone precedes some entry, among the first `cycles` entries from `seed` on in a partial collection, the places of the keys fall in total; if not, they stay, and after a full collection the maximum and every bound are exactly what the keys need. On an empty set they are 0 |
| HashSet.HashSet.Scan | test_example1/ck/src/ck_hs.c:587-628 | A full scan gathers bounds that reach every entry, including those that moved during the scan, and are no higher than some key needed before |
| HashSet.HashSet.VisitEntry | test_example1/ck/src/ck_hs.c:590-627 | One round on an entry keeps that: entries have come forward only if one was due |
| HsPlaces.AdvanceTellsPlaces | test_example1/ck/src/ck_hs.c:601-613 | An entry with a tombstone before it takes the place of the first one; nobody else moves |
| HsPlaces.TotalFalls | test_example1/ck/src/ck_hs.c:587-628 | If no key comes later and some key earlier, the places fall in total |
| HsPlaces.BothAreExact | test_example1/ck/src/ck_hs.c:614-640 | Bounds that reach every key and are no higher than some key needs are exact |
| HsPlaces.LookupsAreShort | test_example1/ck/src/ck_hs.c:875-900 | With exact bounds, where they are not saturated, a lookup makes as many probes at most as some key of the same home needs, and none if there is no such key |
| HashSet.HashSet.Lower | test_example1/ck/src/ck_hs.c:634-640 | Lowering first the maximum and then the bounds one by one keeps every entry reachable in between |
| HashSet.HashSet.PostInsert | test_example1/ck/src/ck_hs.c:405-414 | Keeps the set; the map is no more than half full afterwards, or there is no memory, and up to that load nothing is touched |
| HashSet.HashSet.Store | test_example1/ck/src/ck_hs.c:779-806 | Bound, store, signal and bury, in this order, add the key or replace its equivalent |
| HsRoom.NothingMeansNoRoom | test_example1/ck/src/ck_hs.c:424-530 | A probe comes back with nothing only if every position within the probe limit holds an object that is not equivalent |
| HsRoom.FindsFirstFree | test_example1/ck/src/ck_hs.c:424-530 | For an absent key a probe leads to the first position without an object |
| HsRoom.InstalledIsFirst | test_example1/ck/src/ck_hs.c:785-803 | An object that replaces its equivalent takes an earlier tombstone if there is one |
| HsMap.Map.Probe | test_example1/ck/src/ck_hs.c:423-531 | The probe ends at the limit, an empty slot, a match or the requested tombstone; it has skipped nothing but tombstones and other keys, and reports the first tombstone and its position |
| HsMap.Map.Move | test_example1/ck/src/ck_hs.c:608-612 | Store, signal, tombstone: at each of the three stores every key can still be found by a reader that will not start over |
| HsMap.Map.Install | test_example1/ck/src/ck_hs.c:783-803 | Stores over an empty slot, a tombstone or an equivalent entry, whichever the probe found first |
| HsMap.Map.BoundSet | test_example1/ck/src/ck_hs.c:294-313 | Raises the maximum and the home bound, saturated at 255, so that the probe count is covered |
| HsMap.Map.BoundGet | test_example1/ck/src/ck_hs.c:315-330 | The home bound, or the maximum where the bound is saturated or absent |
| HsMap.Map.Signal | test_example1/ck/src/ck_hs.c:97-106 | Raises the generation selected by the hash and nothing else |
| HsMap.Map.Rehash | test_example1/ck/src/ck_hs.c:358-390 | Finds room within the probe limit and adds the key to the unpublished map, or reports that it does not fit, which takes eight keys |
| HsMap.PassedIsAbsent | test_example1/ck/src/ck_hs.c:452-509 | A probe that reaches the bound, or an empty slot, proves the key absent |
| HsMap.RaisedCovers | test_example1/ck/src/ck_hs.c:294-313 | After raising, every entry is still reached and the new position is covered whichever bound a lookup uses |
| HsTable.FindableTwin | test_example1/ck/src/ck_hs.c:592-613 | A key of the table can be found at a covered position with no empty slot before it, in a slot that is not about to be buried |
| HsStores.EntryKeepsGood | test_example1/ck/src/ck_hs.c:785-803 | Storing an entry at a covered position keeps every entry reachable |
| HsStores.FullLine | test_example1/ck/src/ck_hs.c:362-373 | Where no slot is empty at the first eight positions of a probe sequence, a map without tombstones holds eight different keys |
| HsStores.TombstoneKeepsGood | test_example1/ck/src/ck_hs.c:795-796 | Burying an entry makes no other entry unreachable |
| HsStores.MoveKeepsDistinct | test_example1/ck/src/ck_hs.c:608-612 | Moving or superseding an entry leaves one copy of each class and exchanges just that key |
| HsCollect.VisitSlot | test_example1/ck/src/ck_hs.c:587-628 | One round of the scan: every entry is still to be visited or reached by the gathered bounds |
| HsCollect.FullScan | test_example1/ck/src/ck_hs.c:630-640 | After a full scan the gathered bounds reach every entry |
| HsCollect.AllPending | test_example1/ck/src/ck_hs.c:587-591 | Starting from any seed, the scan visits every slot |
| RobinHood.RobinHood.Grow | test_example1/ck/src/ck_rhs.c:493-570 | The published map holds exactly the multiset of objects of the old one, each where its recorded number of probes leads, within its bound and with no empty slot before it. It is in Robin Hood order: each earlier position of an entry's probe sequence holds an entry with at least as many probes as that position. No bound is higher than its entries need. It has the capacity of the attempt that succeeded, and the wanted slots if and only if these are at most 2^31, under the conditions of HashSet.Grow |
| RobinHood.RobinHood.Get | test_example1/ck/src/ck_rhs.c:1388-1415 | Returns a stored equivalent object exactly if there is one |
| RhsMap.Map.Insert | test_example1/ck/src/ck_rhs.c:520-561 | The displacing insertion adds exactly the new object to the map or gives up, with every position of some object in hand or in the map taken up to the probe limit, which takes eight objects; it keeps the Robin Hood order and the bounds tight, and it terminates: recorded probes rise in total, or the probes in hand do |
| RhsMap.Map.Displace | test_example1/ck/src/ck_rhs.c:540-556 | Taking the slot of an entry with fewer probes leaves that entry in hand at its own place in its own probe sequence |
| RhsMap.Map.Probe | test_example1/ck/src/ck_rhs.c:691-803 | A lookup within the home bound finds an equivalent object exactly if the map holds one |
| RhsMap.StoreKeepsGood | test_example1/ck/src/ck_rhs.c:531-556 | Storing an object at its p-th position keeps every entry at its recorded position, covered and with no empty slot before it |
| RhsMap.StoreKeepsOrder | test_example1/ck/src/ck_rhs.c:531-556 | Storing over an empty slot or an entry with fewer probes keeps the Robin Hood order |
| RhsMap.BoundIsExact | test_example1/ck/src/ck_rhs.c:531-556 | In a published map the bound of a home slot is the capped largest number of probes of its entries, and 0 if there are none |
| RhsMap.DisplacedGoesOn | test_example1/ck/src/ck_rhs.c:540-556 | A displaced entry goes on from the same slot, and the total of recorded probes has grown but stays below capacity times limit |
| RhsProbe.PosClosed | test_example1/ck/src/ck_rhs.c:424-436 | Where the p-th probe is, in closed form: the group has moved by 1 + 2 + ... , the index has rotated |
| RhsProbe.FirstProbesDiffer | test_example1/ck/src/ck_rhs.c:424-436 | Within the first two groups of probes no slot is probed twice |
| RhsProbe.PrevUndoesNext | test_example1/ck/src/ck_rhs.c:438-450 | probe_prev undoes probe_next at every slot and probe count |
| RhsProbe.WalkBack | test_example1/ck/src/ck_rhs.c:868-888 | The backward walk from a slot and its probe count ends at the home slot |
| RhsProbe.GetFirstOffset | test_example1/ck/src/ck_rhs.c:890-901 | The closed form, whole groups at a time, ends at the home slot |
| RhsProbe.GroupBackFromPos | test_example1/ck/src/ck_rhs.c:893-899 | One round of that loop leads from the p-th position to the one a whole group of probes earlier |
| HazardStack.PopTakesTheTop | test_example1/ck/include/ck_hp_stack.h:54-84 | A pop whose compare-and-swap succeeds takes the top of the stack and installs its true successor (no ABA) |
| HazardStack.OtherStepsPushOrLeave | test_example1/ck/include/ck_stack.h:53-68 | Every other step pushes one node on top or leaves the stack alone, and the next pointers always spell out the stack |
| HazardStack.EmptyMeansEmpty | test_example1/ck/include/ck_hp_stack.h:59-82 | A pop that returns nothing found the stack empty |
| HazardStack.ReclaimSparesProtectedNodes | test_example1/ck/src/ck_hp.c:189-268 | As long as every hazard is cached, reclaim destroys no node that a popper has validated and still relies on |
| HazardStack.ReadsAreSafe | test_example1/ck/include/ck_hp_stack.h:66-66 | Under the same condition, a node that a popper reads has not been destroyed, let alone reused |
| HazardLimits.SafeExactlyWithinCache | test_example1/ck/src/ck_hp.c:189-268 | For a cache of n entries: in all runs with at most m registered threads nothing is written past the cache and no protected node is destroyed, if and only if m is at most n |
| HazardLimits.SparesExactlyWithOneMore | test_example1/ck/src/ck_hp.c:189-268 | Protected nodes alone are safe if and only if m is at most n + 1: the entry written past the cache is still searched |
| HazardLimits.OverflowWritesPast | test_example1/ck/src/ck_hp.c:206-213 | For every n, a run with n + 1 threads in which a hazard is stored at cache[n], over the field behind the cache |
| HazardLimits.OverflowIsUnsafe | test_example1/ck/src/ck_hp.c:189-218 | For every n, a run with n + 2 threads in which the full cache hides a published hazard, and the node is destroyed under the popper that validated it |
| HazardStack.ScanSlotKeeps | test_example1/ck/src/ck_hp.c:197-215 | Caching one subscriber's hazard keeps the invariant that a protected retired node is cached or still to be seen |
| HazardProgress.PopFinishes | test_example1/ck/include/ck_hp_stack.h:54-84 | In every reachable state with all hazards cached: an undisturbed pop, wherever in its loops it stands, is over within eight steps and takes the node on top, or nothing from the empty stack |
| HazardProgress.PushFinishes | test_example1/ck/include/ck_stack.h:53-68 | An undisturbed push is over within four steps, and its node is on top |
| HazardProgress.ReclaimAlone | test_example1/ck/src/ck_hp.c:220-268 | An undisturbed reclaim destroys exactly those of its thread's retired nodes that no hazard pointer shows |
| HazardProgress.KeptWasShown | test_example1/ck/src/ck_hp.c:220-268 | Whatever others do: a retired node that a reclaim leaves in its list was shown by a hazard pointer during the call |
| HazardProgress.RetiredIsPending | test_example1/ck/src/ck_hp.c:270-286 | In every run a retired node is in the list of the thread that retired it until it is destroyed |
| HazardRecord.Record.MemberCache | test_example1/ck/src/ck_hp.c:189-218 | The loops collect published hazards of used records only, in order, and as many as there are, up to one more than the cache has entries; the field behind the cache is overwritten exactly if there are that many |
| HazardRecord.Record.Reclaim | test_example1/ck/src/ck_hp.c:220-268 | With at most one published pointer more than the cache has entries, a retired entry is destroyed if and only if no used record publishes its pointer; one that nobody publishes is destroyed in any case. Every entry is destroyed or stays, in order, and the field behind the cache is overwritten exactly if more pointers are published than the cache has entries |
| HazardRecord.Record.Unlink | test_example1/ck/src/ck_hp.c:254-259 | Unlinking an entry behind `previous` or at the head closes the gap in the pending list |
| HazardRecord.Record.Retire | test_example1/ck/src/ck_hp.c:270-286 | Pushes the entry on the pending list |
| HazardRecord.ReclaimSparesPublished | test_example1/ck/src/ck_hp.c:232-249 | The same for one entry of the list |
| HazardRecord.AllHazardsAreThePublished | test_example1/ck/src/ck_hp.c:197-215 | What the scan collects are exactly the pointers that used records publish, one for every place of such a pointer |
| EventCount.NoLostWakeUp | test_example1/ck/include/ck_ec.h:686-711 | No lost wake-up: as soon as the word differs from the one a waiter is parked on, some producer that saw the flag has yet to wake everybody, across carries into the flag and clears of newer flags |
| EventCount.WakeUpArrives | test_example1/ck/src/ck_ec.c:34-41 | That producer cannot finish while the waiter stays parked |
| EventAdds.ValueIsSum | test_example1/ck/include/ck_ec.h:698-711 | Between any two instants of any run the value of the count moves by the sum of the deltas requested between them, modulo 2^31, across flags, clears and carries |
| EventAdds.NobodyWaitsNobodyWakes | test_example1/ck/include/ck_ec.h:677-690 | While no waiter has got as far as the flag, and the count has not run into it, no producer ever has to wake anybody |
| EventAdds.StaleWaitReturns | test_example1/ck/src/ck_ec.c:315-381 | If something, but less than 2^31 in total, has been added since the value was v, a wait for v returns 0 at its first load, and has no other step |
| EventAdds.WaiterReturns | test_example1/ck/src/ck_ec.c:315-381 | A waiter that is not parked, wherever in its slow path, returns 0 within three undisturbed steps once the value has changed |
| EventAdds.WaiterParks | test_example1/ck/src/ck_ec.c:345-370 | Behind its upgrade a waiter parks after two steps of its own while the word stays flagged with its value |
| EventAdds.ProducerWakes | test_example1/ck/src/ck_ec.c:34-41 | A producer that saw the flag clears just the flag with its next step and unparks everybody with the one after |
| EventReturn.ReturnMeansChange | test_example1/ck/src/ck_ec.c:315-381 | For a call that returns 0: the value differed at some instant of it, or a producer lowered a flag set for this value after the waiter saw it or set it and before the last load of its second spin |
| EventReturn.SecondSpinReturns | test_example1/ck/src/ck_ec.c:345-364 | With the value unchanged, the second spin returns if and only if a producer has lowered the flag since the waiter saw it and nobody has raised it again |
| EventReturn.CanReturnUnchanged | test_example1/ck/src/ck_ec.c:315-381 | In every reachable state: a wait for the present value, called now, can return 0 without anything being added if and only if some producer has yet to clear the flag |
| EventReturn.ReturnsOnlyAfterAdd | test_example1/ck/src/ck_ec.c:315-381 | A wait for the present value, called while no producer has yet to clear the flag, returns 0 only after an addition |
| EventCount.WaitMayReturnWithoutChange | test_example1/ck/src/ck_ec.c:345-359 | A run in which a wait returns 0 although the value was the awaited one all along |
| EventReturn.ParksOnlyAfterFlag | test_example1/ck/src/ck_ec.c:233-259 | In every run a waiter spins again, and parks, only after the word was flagged with its value at some instant of its call |
| EventCount.WaiterKeepsItself | test_example1/ck/src/ck_ec.c:233-259 | A waiter's step leaves it parked only on the word flagged with its value or with a wake-up pending, cancels no wake-up, and changes the word only while it has no flag |
| PhaseFair.MutualExclusion | test_example1/ck/include/ck_pflock.h:70-140 | A writer in the critical section is alone there |
| PhaseFair.ReadersBeforeLaterWriters | test_example1/ck/include/ck_pflock.h:84-108 | Phase fairness: a reader that arrives in a write phase has been in and out before any later writer gets in |
| PhaseFair.OnePhaseOnly | test_example1/ck/include/ck_pflock.h:119-140 | Once the phase it arrived in is over, a waiting reader is let in by its next load, whether or not another writer has announced itself |
| PhaseFair.WritersInTicketOrder | test_example1/ck/include/ck_pflock.h:84-96 | Writers enter in the order of their tickets |
| PhaseFair.SomebodyCanMove | test_example1/ck/include/ck_pflock.h:70-140 | No deadlock: if somebody waits and nobody is in the critical section, somebody's next step gets on |
| PhaseFairProgress.EverybodyIsServed | test_example1/ck/include/ck_pflock.h:70-140 | Every run can go on, without new arrivals, until every reader and writer that waits or is in has been in and out, within a bounded number of steps |
| PhaseFair.AllLeft | test_example1/ck/include/ck_pflock.h:98-106 | rout equals the announced ticket only when all readers counted by it have left |
| WebSocket.FrameData.NextFrame | test_ws/src/ws.c:1021-1266 | For every way in which recv cuts the stream into chunks, next_frame reports what the decoder says about the stream: a message that ends with a NUL or a close frame, with the bytes behind it untouched, an error, or a write outside its buffer; and the pongs sent |
| WebSocket.FrameData.Round | test_ws/src/ws.c:1055-1254 | One frame: the header checks in the source's order, then data or control handling |
| WebSocket.FrameData.ReadMasks | test_ws/src/ws.c:892-944 | Extended length, limit in 64-bit arithmetic and masks |
| WebSocket.FrameData.ReadData | test_ws/src/ws.c:908-1004 | A data frame goes into the block that realloc returns for the wrapped size: it is read, refused, or written outside that block |
| WebSocket.FrameData.ReadControl | test_ws/src/ws.c:928-1004 | A control frame goes into msg_ctrl; its NUL goes behind it exactly if the payload has 125 bytes |
| WebSocket.FrameData.ReadPayload | test_ws/src/ws.c:974-982 | The copying loop unmasks the payload into the buffer, and ends at the first byte that does not arrive or does not fit |
| WebSocket.FrameData.NextByte | test_ws/src/ws.c:812-830 | The next byte of the stream across buffer refills, or -1 and the error at its end |
| WebSocket.FrameData.SkipFrame | test_ws/src/ws.c:843-856 | Skips exactly that many bytes, or reports the end of the stream |
| WebSocket.FrameData.DoPong | test_ws/src/ws.c:789-799 | Sends the payload back, or sets the error if the socket takes no more |
| FrameLimits.LimitIsEnforced | test_ws/src/ws.c:908-926 | The check of the wrapped total is the intended one if and only if the sum does not wrap |
| FrameLimits.DataOverruns | test_ws/src/ws.c:908-982 | A byte of payload is written outside its block if and only if the announced length wraps the total and a byte of payload arrives; otherwise what is read is within the limit |
| FrameLimits.OverrunsExactlyWhenWrapped | test_ws/src/ws.c:1055-1266 | A stream makes next_frame write outside its block if and only if one of the frames it reads announces such a length |
| FrameLimits.WrappingIsForbidden | test_ws/src/ws.c:897-908 | Such a length has its top bit set, which RFC 6455 forbids |
| FrameLimits.WrappedLengthOverruns | test_ws/src/ws.c:908-982 | The failing streams: behind any first fragment of at least a byte, every length that wraps; with one byte and 2^64 - 1 the total becomes 0 |
| FrameLimits.MessagesAreWithinTheLimit | test_ws/src/ws.c:910-926 | A message that is reported is within the limit, and its size is its length |
| FrameLimits.FullPingsOverflow | test_ws/src/ws.c:986-1004 | In a client's message within the limit a NUL goes behind msg_ctrl if and only if a ping carries 125 bytes |
| Frames.MessageDecodes | test_ws/src/ws.c:1055-1266 | Every masked message in any number of fragments with pings and pongs between them decodes to the first fragment's opcode and the joined payload, answers the pings in order and stops right behind the message; it fails exactly if it is longer than MAX_FRAME_LENGTH |
| Frames.ClientMessageArrives | test_ws/src/ws.c:1021-1266 | The same for a fresh call of next_frame |
| FrameStreams.CloseDecodes | test_ws/src/ws.c:1238-1241 | Behind any fragments that are not the last, with pings and pongs between them, a close frame is reported with its payload, after the pings have been answered |
| FrameStreams.CloseFrameDecodes | test_ws/src/ws.c:1238-1241 | A close frame is reported with its payload in any state, whether or not the connection is closing |
| FrameStreams.OpeningDecodes | test_ws/src/ws.c:1055-1266 | What next_frame remembers behind any fragments that are not the last, with pings and pongs between them |
| FrameStreams.UnansweredPingFails | test_ws/src/ws.c:1055-1266 | A ping that the socket takes no answer for ends the call with an error, after the earlier pings have been answered |
| Frames.MalformedIsRefused | test_ws/src/ws.c:1066-1147 | A frame header is refused exactly if it breaks the rules of RFC 6455 on reserved bits, opcodes, fragmentation and control frames, or is no close frame while the connection is closing |
| Frames.MaskBitIsIgnored | test_ws/src/ws.c:1132-1133 | Decoding does not depend on the MASK bit, the top bit of the second header byte: an unmasked frame is read as a masked one |
| Frames.TruncatedIsRefused | test_ws/src/ws.c:1052-1063 | A message or close frame is reported only when it is complete: a stream that ends at any earlier byte is an error |
| Frames.BodyDecodes | test_ws/src/ws.c:889-973 | For every length form that fits, the frame body decodes to its payload and leaves the rest |
| Frames.UnmaskedTwice | test_ws/src/ws.c:972-972 | Unmasking undoes masking |
| Frames.NumberOfBytes | test_ws/src/ws.c:891-904 | A length is recovered from its bytes, most significant first |

## Left out

- Memory orderings weaker than sequential consistency, fences, inline assembly and the single-producer mode of `ck_ec`.
- Wrap-around of 32-bit counters, except in the word of the event count. The source makes the same assumption for epochs.
- EpochSafety.NoCallbackUnderAReader: covers `ck_epoch_call` on the caller's own record, and records whose begins either all pass a section object or none does; not `ck_epoch_call_strict` on shared records, and not records that mix the two.
- The order of callbacks within a dispatched list, the deferred list of `ck_epoch_poll_deferred` as a separate list, and the counters `n_pending`, `n_peak` and `n_dispatch`.
- HashSet.HashSet.Grow: the restarts with doubled capacity end because malloc grants a finite number of requests; that some capacity fits depends on the hash function and is not claimed. For a wanted capacity that is no power of two, after restarts past 2^31, the contract gives the published capacity and no comparison with the wanted one.
- RobinHood.RobinHood.Grow: as above. The fields `wanted` and `in_rh`, and put, remove and backward shift of `ck_rhs`, which need them, are not part of this model.
- Pointer packing in `ck_hs` and `ck_rhs`; `ck_hs_apply`, iteration, reset, move and the tombstone statistic, which `ck_hs_map_create` never initialises.
- Lookups of `ck_rhs` beside a concurrent writer.
- HazardRecord.Record.Reclaim: the library's qsort and bsearch are a membership test. What a thread does with its `global` field after it has been overwritten is undefined, and not part of this model: such a thread neither clears hazards nor reclaims again.
- Hazard records with more than one pointer and unregistering in `HazardStack`; the try variants of push and pop.
- Timeouts, back-off intervals and predicates of `ck_ec` waits, except that a waiter may give up before it parks.
- WebSocket.FrameData.NextFrame: realloc does not fail, not even for the wrapped size 0; the state CLOSING does not change during a call, and UTF-8 validation is not part of this model. Multi-byte lengths are read left to right. What happens after a payload byte has been written outside its block is undefined: the model stops there.
- HsTable.Stride: a shift by 64 or more, which C leaves undefined and which probe limits above 512 can reach, gives 0 here. No result depends on it: the proofs hold for any probe sequence.
- LogObject.Log.Consume: the time it spins while there is nothing to print.
- The WebSocket handshake, sending, close handling and the server's threads.
- Sockets, printing, the flecs glue, libuv and libwebsockets programs, `eg_mempool`, `circularbuf.h`, `ck_ht`, `ck_array`, `ck_bitmap`, `ck_sequence`, `ck_rwlock` and the other parts of the repository.
