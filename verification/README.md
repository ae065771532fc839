# A verified model of the race detectors

The repository watches a threaded program and reports data races. Its detectors share one machine
of vector clocks and differ in what they remember about each address: full clocks (Djit), epochs
(FastTrack, Loft), a sample of the accesses (LiteRace), locksets (Eraser), or mixtures of both
(Helgrind, MultiLock-HB, SimpleLock, SimpleLock+). With parallel detection, events reach the
detectors through ring buffers and queues. This project models that family and proves what each
optimisation keeps and where it loses something.

## How it is built

* `Clocks`, `History`: clocks as values, and access histories with the order that clocks induce.
* `Machine`: the clock machine as steps on a store of clocks. Every clock carries a *past*, a set of
  accesses, joined where the code joins and overwritten where the code assigns. `MachineProofs`
  shows that one invariant survives every step.
* `HappensBefore`: the same order defined without any clock, as reachability between events
  through mailboxes, and the proof that the two agree. `Verdicts` states the laws of the machine
  and what it means for a flag to be right: `DataRace`.
* `Djit`, `FastTrack`, `JoinPruning`, `Loft`, `RwSessions`, `LiteRace`, `Helgrind`, `MultiLockHb`,
  `SimpleLock`, `SimpleLockPlus`, `Eraser`, `Parallel`: one module per component, each with the step
  function of the component and the theorems about all histories or all runs of it.
  `HeldReads` and `PrunedReads` go with `JoinPruning`, `HelgrindLocks` with `Helgrind`, and
  `EraserVerdicts` with `Eraser`. `ParallelPruning` and `MultiLockRuns` relate two components. `Frames`
  counts frames, threads and waiters on the events of a run. `ClockSteps` says what an event does to
  clocks alone, `LockOrder` what locks order, and `Scenarios` builds the small runs that show where a
  law stops holding; those about Eraser are in `EraserExamples`.
* `VectorClocks`, `LockSets`, `Detectors`, `DjitDetectors`, `FastTrackDetectors`,
  `MultiLockHbDetectors`, `SimpleLockDetectors`, `HelgrindDetectors`, `EraserDetectors`,
  `LiteRaceDetectors`, `EventBuffers`, `ExecutionControls`, `RaceDbs`, and the class in `Loft`: the
  code in its own form, objects whose methods loop and update fields in place, each method proved
  equal to the step it implements. `DjitDetectors.Detect`, `FastTrackDetectors.Detect` and
  `ExecutionControls.ParallelDetect` take the events of a whole run through these objects and state
  the verdict in terms of its data races; so does `EraserDetectors.Detect` in terms of its locks, and
  the `Detect` methods of `MultiLockHbDetectors`, `SimpleLockDetectors`, `HelgrindDetectors` and
  `LiteRaceDetectors` do the same with a history.

## What the proofs found

* Djit is exact although it skips same-frame accesses and keeps one clock per thread; FastTrack
  without join pruning agrees with it on every run.
* FastTrack's join handler (`src/race/fast_track.cc:265-282`) makes it miss races, and a run on
  which it does is given. What it flags is exact all the same: on every run the flag is set iff some
  data race has a write as its first access, or a read whose epoch the read state still holds when a
  write comes that is not skipped as a repetition. Which reads those are is told from events alone.
  So pruning can lose no race but those of a read with a later write, and of these none unless a
  join in between takes a thread that read in the wake of the read, or leaves fewer than two threads
  that read apart.
* With parallel detection no data race is ever lost by Djit, nor by FastTrack without join pruning,
  on any run in which threads exit before they are joined. But a thread start flushes only the rings
  of the starting thread, and can overtake accesses that its parent makes after `pthread_create` has
  returned and before the child announces its start (`src/core/execution_control.cpp:654-686`).
  Nothing orders such an access before the child. Sequential detection orders it so; parallel
  detection records it in a later frame. The exact condition: the flag is set iff the run has a data
  race, or some access made at clock `c` and overtaken by `k` starts conflicts with one that knows
  its thread at a clock from `c` up to, but not including, `c + k`. Where parents have nothing
  waiting when their children start, the parallel and sequential verdicts are the same for every
  number of detectors.
* FastTrack as it stands, behind the rings, is exact for the order in which events are queued. Rings
  can swap two accesses on their way, so a race that starts with a write in the program may start
  with a read in the queue, and be lost to pruning: a run is given. Races between two writes are not
  lost.
* MultiLock-HB flags everything that Djit flags, with locksets and clocks computed from the same
  run, for two conflicting accesses under a common lock are ordered by its clock. It flags more: a
  run is given on which a lock orders two accesses without protecting both.
* LiteRace with an adaptive rate and its default parameter of 10 samples 99 of every 100000 accesses
  to an address from the fourth cycle on.
* The guard under which Loft would skip an assignment (`src/race/loft.cc:76-78`) is never true.
* Helgrind never alarms on ordered data. Without locks and concurrent reads it flags exactly the
  races among the accesses that its guard for the segment's own thread does not skip
  (`src/race/helgrind.cc:372-375`, `:410-413`, `:435-438`); that is every race if the skipped
  accesses are in the segment's own frame. A skipped access in a later frame can hide a race: a run
  is given. Once an address is shared, it keeps the locks common to all accesses since, and data
  that one lock protects is never flagged; but a read under no lock, where before there were reads
  and writes under one, ends the watch on the address without a flag: a run is given.
* SimpleLock flags exactly the unordered conflicts in which one side holds no lock and the first
  side is in one of the last `max_list_len` frames of its thread. It is exact where no thread reads
  or writes the address in more frames than that; a run on which a list of length 1 loses a race is
  given. With lists of length 1 it agrees with SimpleLock+, which keeps one bit and skips checks.
* Eraser's verdict is exact for its own notion of protection: a lock protects an address as long as
  whoever accessed it first, and whoever read it while it was shared, had it tabled. A write while
  shared is flagged iff its thread has no such lock tabled to write, and a read iff it leaves no
  such lock after a write while shared.
* Under Eraser a thread that gives up a rwlock while others hold it keeps the lock in its reader
  table until it uses the lock again, which can hide a race; and the first unlock of a mutex locked
  several times takes it out of the tables, which can raise an alarm on protected data. The exact
  contents of the tables are proved, and a run is given for each.

## Model

| member | source | states |
|---|---|---|
| VectorClocks.VectorClock.HappensBefore | src/core/vector_clock.cc:16-49 | the loop over two sorted iterators decides whether every entry of the receiver is in the other clock and no larger |
| VectorClocks.VectorClock.PreciseHappensBefore | src/core/vector_clock.cc:51-87 | the same and some entry strictly smaller |
| VectorClocks.VectorClock.HappensAfter | src/core/vector_clock.cc:89-121 | every entry of the receiver has a partner that is no larger; entries only the other has are not looked at |
| VectorClocks.VectorClock.Join | src/core/vector_clock.cc:124-135 | the loop leaves the entrywise maximum, also when a clock is joined with itself |
| VectorClocks.VectorClock.Increment | src/core/vector_clock.cc:137-144 | one entry grows by one, a missing one becomes 1 |
| VectorClocks.VectorClock.GetClock | src/core/vector_clock.cc:146-152 | a missing entry reads as 0 |
| VectorClocks.VectorClock.Equal | src/core/vector_clock.cc:159-171 | the pairwise walk decides equality of the maps |
| VectorClocks.AfterIsConverse | src/core/vector_clock.cc:89-121 | on clocks ordered by "before", "after" holds the other way round iff both have entries for the same threads |
| VectorClocks.AfterMissesNewThreads | src/core/vector_clock.cc:89-121 | there are ordered clocks of which the later is not "after" the earlier |
| VectorClocks.PreciselyBeforeIsStrict | src/core/vector_clock.cc:51-87 | the precise order is "before" without "after": it is asymmetric, and on clocks of the same threads it is "before" and different |
| Clocks.HappensBeforeIsLeq | src/core/vector_clock.cc:16-49 | on clocks without zero entries the key-wise comparison is the pointwise order |
| Clocks.JoinedIsLeastUpperBound | src/core/vector_clock.cc:124-135 | the join is the least clock above both |
| Verdicts.ClockExactness | src/race/detector.cc:220-237 | for every run, clock and access: the access is in the clock's past iff its epoch is covered, iff its event reaches the clock through the event graph |
| Verdicts.OwnClockDominates | src/race/detector.cc:940-1034 | no other clock has reached a live thread's own entry, except while the thread waits at a barrier and no child of it has started meanwhile |
| Verdicts.EpochTransitivity | src/race/detector.cc:220-237 | whoever knows the epoch of an access knows the whole clock it was made at |
| Verdicts.HBIsAnOrder | src/race/detector.cc:940-1034 | happens-before on accesses is transitive, contains program order and follows the run |
| Verdicts.OpenIsInBarrier | src/race/detector.cc:1002-1018 | a thread's published clock is unincremented exactly while it waits at a barrier and no child of it has started meanwhile |
| Frames.FramesAreCounted | src/race/detector.cc:940-1034 | on every run the own entry of a live thread is 1 and one more for each of its joins, unlocks, rwlock releases, notifies, waits begun, barriers left, semaphore posts and waits, and child starts; nothing else moves it |
| Frames.AccessesAreInFrames | src/race/detector.cc:220-237 | the clock of an access is the number of its thread's frame, counted on the events before it |
| Frames.BarriersAreCounted | src/race/detector.cc:1002-1018 | the count that decides when a barrier's clock is cleared is the number of threads inside |
| Frames.LiveThreadsAre | src/race/detector.cc:220-237 | the threads that have a clock are those that have started and not been joined |
| Frames.WaitersHaveBegun | src/race/detector.cc:956-1000 | a notification reaches exactly the threads that have begun a wait and not ended it |
| MachineProofs.StepKeepsInv | src/race/detector.cc:940-1034 | every fork, join, lock, wait, notify, barrier, semaphore and rwlock step keeps clocks faithful to pasts and own entries dominant |
| HappensBefore.StepFlow | src/race/detector.cc:940-1034 | one step moves pasts exactly as it moves events between mailboxes |
| HappensBefore.HBIsReachability | src/race/detector.cc:940-1034 | the order recorded with clocks is reachability between events, defined without clocks |
| Detectors.Detector.ThreadStart | src/race/detector.cc:220-237 | the handler leaves the tables of the forked machine state |
| Detectors.Detector.AfterPthreadJoin | src/race/detector.cc:384-397 | the parent takes over the child's clock, enters a new frame, and the child's clock is gone |
| Detectors.Detector.ProcessLock | src/race/detector.cc:940-946 | the thread's clock is joined with the mutex clock and nothing else changes |
| Detectors.Detector.ProcessUnlock | src/race/detector.cc:948-954 | the mutex clock is overwritten and the thread enters a new frame |
| Detectors.Detector.ProcessNotify | src/race/detector.cc:956-972 | the two loops join all waiters and then signal each of them the joined clock |
| Detectors.Detector.ProcessPreWait | src/race/detector.cc:974-980 | the waiter's clock is stored and it enters a new frame |
| Detectors.Detector.ProcessPostWait | src/race/detector.cc:982-1000 | the waiter joins its signal if it has one, and both its entries are erased |
| Detectors.Detector.ProcessPreBarrier | src/race/detector.cc:1002-1008 | the barrier gathers the clock and counts the waiter, without a new frame |
| Detectors.Detector.ProcessPostBarrier | src/race/detector.cc:1010-1018 | the thread joins the barrier clock and the last one out clears it |
| Detectors.Detector.ProcessBeforeSemPost | src/race/detector.cc:1020-1026 | the semaphore gathers the clock and the thread enters a new frame |
| Detectors.Detector.ProcessAfterSemWait | src/race/detector.cc:1028-1034 | the thread joins the semaphore clock and enters a new frame |
| Detectors.Detector.BeforePthreadCondWait | src/race/detector.cc:646-667 | an unlock followed by the start of a wait |
| Detectors.Detector.AfterPthreadCondWait | src/race/detector.cc:669-687 | the end of a wait followed by a lock |
| Detectors.Detector.AfterPthreadRwlockRdlock | src/race/fast_track.cc:54-67 | readers join the lock's clock, never the clocks released in an unfinished session |
| Detectors.Detector.AfterPthreadRwlockWrlock | src/race/fast_track.cc:69-82 | as for readers; the count asserted to be 0 is 0 |
| Detectors.Detector.BeforePthreadRwlockUnlock | src/race/fast_track.cc:84-102 | released clocks gather aside and replace the lock's clock when the count returns to 0 |
| Detectors.Detector.Handle | src/race/detector.cc:220-237 | after any sequence of events the tables are the clocks of that run |
| Djit.MetaIsExact | src/race/djit.cc:41-161 | after every consistent history the flag is set iff two accesses race, in spite of skipped accesses and one clock per thread |
| Djit.ReportsTheRacingThreads | src/race/djit.cc:67-78 | a check reports exactly the threads that made an access unordered with the current one |
| Verdicts.DjitVerdict | src/race/djit.cc:41-161 | at every reachable state the flag is set iff the run has two conflicting accesses with no path between them |
| DjitDetectors.DjitMeta.ProcessRead | src/race/djit.cc:41-88 | the handler makes the model's step and returns the writers it reports |
| DjitDetectors.DjitMeta.ProcessWrite | src/race/djit.cc:90-161 | the handler makes the model's step and returns the writers and readers it reports |
| DjitDetectors.DjitDetector.IsRacy | src/race/djit.cc:41-161 | the object's flag of an address is the verdict on the events it has handled |
| DjitDetectors.Detect | src/race/djit.cc:41-161 | a detector object fed a whole run returns exactly the addresses with a data race |
| FastTrack.MetaIsExact | src/race/fast_track.cc:104-262 | without join pruning, one write epoch, adaptive read state and discarded reads still give a flag that is set iff two accesses race |
| FastTrack.AgreesWithDjit | src/race/fast_track.cc:104-262 | without join pruning, the same flag as Djit on every address of every consistent history |
| Verdicts.FastTrackVerdict | src/race/fast_track.cc:104-262 | without join pruning, at every reachable state the flag is set iff the run has a data race, and equals Djit's |
| FastTrackDetectors.FtMeta.ProcessRead | src/race/fast_track.cc:104-168 | the handler makes the model's step, including the switch to a read clock |
| FastTrackDetectors.FtMeta.ProcessWrite | src/race/fast_track.cc:170-262 | the handler with its loop over the read clock makes the model's step |
| JoinPruning.PrunedAlarmsAreRaces | src/race/fast_track.cc:265-282 | with join pruning, on every run, a flag still means a data race |
| JoinPruning.PrunedVerdict | src/race/fast_track.cc:104-282 | on every run, with join pruning, the flag is set iff some data race has a write as its first access, or a read whose epoch is still held when a write that is not a repetition comes; `HeldReads` and `PrunedReads` say when, without epochs |
| HeldReads.EpochsStandForEvents | src/race/fast_track.cc:104-282 | the epochs and the read clock stand for the last write and for a set of reads that is told from events alone: a read replaces the last one if it is reachable from it and is kept apart otherwise, a write clears reads kept apart, a join takes its child's and, if fewer than two are left, all |
| HeldReads.EventVerdict | src/race/fast_track.cc:104-282 | the verdict told from events alone: a race that starts with a write, or with a read that is still kept when a write that opens its frame comes |
| PrunedReads.SparedRacesAreFlagged | src/race/fast_track.cc:271-280 | every race that starts with a read is flagged as well, unless a join in between takes a thread that read in its wake, or a reader when no other unjoined thread has read apart |
| PrunedReads.PruneKeepsReads | src/race/fast_track.cc:271-280 | a join leaves every held read of another thread held, unless it leaves fewer than two of the reads kept apart; then the last ordered read is held |
| JoinPruning.PruningLosesReadsOnly | src/race/fast_track.cc:265-282 | every data race whose first access is a write is flagged on every run, whatever joins prune |
| JoinPruning.ExactWhenNothingPruned | src/race/fast_track.cc:271-279 | on runs where no join finds its child in the read clock, every data race is among those flagged |
| JoinPruning.PruningMissesARace | src/race/fast_track.cc:271-279 | a concrete run with a data race that FastTrack as it stands does not flag |
| FastTrackDetectors.FastTrackDetector.PruneAll | src/race/fast_track.cc:271-280 | the loop over all metas prunes each of them once |
| FastTrackDetectors.Detect | src/race/fast_track.cc:104-282 | a detector object fed a whole run flags exactly the addresses with a race that starts with a write or with a read still kept, told from events; hence only data races, all that start with a write or with a read that joins spare, and all where no join pruned |
| RwSessions.SessionsConserveKnowledge | src/race/fast_track.cc:54-102 | whenever nobody holds the lock, its clock dominates the clock of every thread that ever released it, with readers that hold it several times at once |
| RwSessions.LockClockGrows | src/race/fast_track.cc:95-100 | overwriting the lock's clock at the end of a session never loses what it held |
| RwSessions.LiveHoldersKnow | src/race/fast_track.cc:54-102 | the reference count is the number of times the lock is held, and live holders know the lock's clock |
| RwSessions.RwClockKept | src/race/fast_track.cc:94-100 | the lock's clock changes only at the end of a session |
| Loft.LoftIsPlain | src/race/loft.cc:44-90 | on every run all clocks equal those of the plain rule |
| Loft.RedundantJoin | src/race/loft.cc:50-51 | the skipped join would have changed nothing |
| Loft.AssignmentNeverSkipped | src/race/loft.cc:73-84 | the guard for skipping the assignment is false whenever a live thread outside a barrier unlocks |
| Loft.LoftDetector.ProcessLock | src/race/loft.cc:44-53 | the object that skips joins keeps the clocks of the run |
| Loft.LoftDetector.ProcessUnlock | src/race/loft.cc:66-90 | the object keeps the clocks of the run and Loft's own tables |
| LiteRace.CycleSamples99 | src/race/literace.cc:44-81 | every cycle is 100000 / rate accesses long: it skips the first `ncount`, samples the next 99 and ends with one more; the next rate is the old one divided by the parameter, but at least 1, or the same if fixed |
| LiteRace.CycleBegins | src/race/literace.cc:44-54 | where cycle `k` begins the rate is 1000 divided by the `k`-th power of the parameter, but at least 1, or 1000 if fixed |
| LiteRace.SamplesByPosition | src/race/literace.cc:57-81 | an access is sampled iff its position among those to the address is one of the 99 before the last one of a cycle, with the cycles in closed form |
| LiteRace.AdaptiveSettles | src/race/literace.cc:44-54 | a fixed rate samples 99 of every 100 accesses; an adaptive one samples 99 of every 100000 from cycle 10 on with a parameter of 2 or more, and from cycle 3 on with one of 10 or more |
| LiteRace.ProcessKeepsCycle | src/race/literace.cc:57-81 | `scount` stays at least 1 between accesses and `ncount` never goes below 0 |
| LiteRace.ReportsSampledRaces | src/race/literace.cc:57-81 | the flag is set iff two accesses at sampled positions race, and then the full history has a race |
| LiteRace.AlarmsAreDataRaces | src/race/literace.cc:57-81 | on every run, what is flagged is a data race of the run |
| LiteRaceDetectors.LrMeta.ProcessAccess | src/race/literace.cc:57-81 | the counters in place make the model's step and stay in range |
| LiteRaceDetectors.Detect | src/race/literace.cc:57-81 | an object fed a whole history is flagged iff two accesses at sampled positions race |
| Helgrind.OrderedDataStaysExclusive | src/race/helgrind.cc:341-460 | an address whose accesses are pairwise ordered stays new or exclusive, with any locks and joins |
| Helgrind.OrderedRunRaisesNoAlarm | src/race/helgrind.cc:255-339 | on every run of the clock machine, data ordered by happens-before is never flagged |
| Helgrind.FirstConflictIsFlagged | src/race/helgrind.cc:255-339 | if the first two accesses to an address conflict, are unordered and the second holds no lock, it is flagged for good |
| Helgrind.ConflictWithSegmentIsFlagged | src/race/helgrind.cc:341-460 | while an address is exclusive, any lock-free access that conflicts with the access that set the segment, and does not know it, is flagged for good |
| Helgrind.KeptRacesAreFlagged | src/race/helgrind.cc:341-460 | without locks and concurrent reads the flag is set iff two of the accesses that the guard does not skip race |
| Helgrind.FreshHistoriesAreExact | src/race/helgrind.cc:372-375 | if moreover skipped accesses are in the segment's own frame, the flag is set iff two accesses race |
| Helgrind.LockFreeVerdict | src/race/helgrind.cc:255-339 | the same on every run of the clock machine, in terms of its data races |
| Helgrind.StaleSegmentMissesARace | src/race/helgrind.cc:372-375 | a reachable run with a data race that is not flagged, because a write of the segment's thread was skipped |
| HelgrindLocks.NoAlarmUnderConsistentLocking | src/race/helgrind.cc:341-575 | an address with one lock that protects all its accesses is never flagged, whatever the clocks are and whenever threads are joined |
| HelgrindLocks.SharedTells | src/race/helgrind.cc:341-537 | a shared address keeps the segment it had when sharing began, the locks common to all accesses since, and the threads that joined in and have not been joined themselves |
| HelgrindLocks.ExclusiveVerdict | src/race/helgrind.cc:341-460 | an access that does not know the segment begins sharing, under its locks if they conflict, and is flagged if it has none; one that knows it becomes the segment unless the guard skips it |
| HelgrindLocks.SharedVerdict | src/race/helgrind.cc:462-537 | while an address is shared, exactly those accesses are flagged that leave no common lock, do not know the segment, are by another thread, and conflict with it or write what was only read |
| HelgrindLocks.LastOpsAre | src/race/helgrind.cc:58-88 | the table of last operations holds the kind of the last watched access of each thread not joined since |
| HelgrindLocks.JoinEndsSharing | src/race/helgrind.cc:58-88 | a join returns a shared address to the exclusive state iff one thread is left that shares it and has accessed it, which then owns the segment |
| HelgrindLocks.ReadSilencesRaces | src/race/helgrind.cc:491-520 | a reachable run on which a read under no lock ends the watch on an address without a flag, so that the races that follow are not seen |
| HelgrindDetectors.HgMeta.ChangeStateExclusiveRead | src/race/helgrind.cc:341-399 | the in-place transition is the model's, in every branch |
| HelgrindDetectors.HgMeta.ChangeStateExclusiveWrite | src/race/helgrind.cc:401-460 | the in-place transition is the model's, in every branch |
| HelgrindDetectors.HgMeta.UpdateMemoryState | src/race/helgrind.cc:550-575 | the dispatch over all states is the model's |
| HelgrindDetectors.HgMeta.ProcessAccess | src/race/helgrind.cc:255-339 | the alarm condition of reads and writes |
| HelgrindDetectors.HgMeta.ForgetThread | src/race/helgrind.cc:58-88 | what a join does to one meta |
| HelgrindDetectors.Detect | src/race/helgrind.cc:255-339 | an object fed a whole history with its joins is quiet on ordered data and on data that one lock protects, and flags exactly the kept races without locks and concurrent reads |
| MultiLockHb.PruningIsLossless | src/race/multilock_hb.cc:142-242 | the flag is set iff among all accesses ever made some pair conflicts, is unordered and shares no lock |
| MultiLockHb.RunVerdict | src/race/multilock_hb.cc:142-242 | on every run, the flag is set iff two conflicting accesses have no path between them and share no lock |
| MultiLockHb.ListsDecide | src/race/multilock_hb.cc:288-323 | against each thread, the pruned lists give a race with an access iff the thread's complete history does |
| MultiLockHb.ListsAreAntichains | src/race/multilock_hb.cc:156-241 | every list is sorted by clock, no entry makes another superfluous, and no write entry a read entry |
| MultiLockHb.RunListsAreAntichains | src/race/multilock_hb.cc:156-241 | the same on every run, whose clocks never go back |
| LockOrder.LocksetsAre | src/race/multilock_hb.cc:38-138 | the locksets hold exactly the locks that were taken, to write or to read, and not unlocked since |
| LockOrder.CommonLockOrders | src/race/multilock_hb.cc:38-98 | on the whole run, of two conflicting accesses under a common mutex or rwlock, held to read or to write, the later one knows the earlier |
| LockOrder.ThinnedIsUnder | src/race/multilock_hb.cc:38-138 | the run without lock events, which the clocks of MultiLock-HB follow, makes the same accesses and knows no more than the whole run |
| MultiLockRuns.DjitFlagsAreFlagged | src/race/multilock_hb.cc:277-436 | with locksets and clocks computed from one run, MultiLock-HB flags every address that Djit flags |
| MultiLockRuns.FlagsMoreThanDjit | src/race/multilock_hb.cc:38-77 | a reachable run without a data race that is flagged, because its accesses are ordered by a lock that does not protect both |
| MultiLockHbDetectors.EraseSuperseded | src/race/multilock_hb.cc:180-190 | the loop that erases from the vector while iterating drops exactly the superseded entries |
| MultiLockHbDetectors.MlMeta.UpdateOnRead | src/race/multilock_hb.cc:142-191 | the handler on vectors makes the model's update |
| MultiLockHbDetectors.MlMeta.UpdateOnWrite | src/race/multilock_hb.cc:193-242 | the handler on vectors makes the model's update |
| MultiLockHbDetectors.MlMeta.ProcessRead | src/race/multilock_hb.cc:277-325 | update, then the search of all other threads' write lists |
| MultiLockHbDetectors.MlMeta.ProcessWrite | src/race/multilock_hb.cc:367-436 | update, then the search of all other threads' write and read lists |
| MultiLockHbDetectors.Detect | src/race/multilock_hb.cc:277-436 | an object fed a whole history is flagged iff two accesses are unordered, conflict and share no lock |
| SimpleLockPlus.Agree | src/race/simplelock_plus.cc:85-214 | on every address of every consistent history SimpleLock+ and SimpleLock with lists of length 1 set the same flag |
| SimpleLock.FlagIsUnlockedRace | src/race/simple_lock.cc:92-308 | with lists of any length a flag means that two accesses conflict, the later does not know the earlier, and one of them holds no lock |
| SimpleLock.BoundedListsVerdict | src/race/simple_lock.cc:92-308 | with lists of any length, the flag is set iff there are two such accesses and since the earlier one its thread has opened fewer frames than a list holds |
| SimpleLock.LongListsAreExact | src/race/simple_lock.cc:107-127 | where no thread reads, or writes, the address in more frames than a list holds, the flag is set iff there are two such accesses |
| SimpleLock.ShortListsMissARace | src/race/simple_lock.cc:117-118 | a reachable run on which a list of length 1 has dropped the clock of the unlocked access |
| SimpleLock.AlarmsAreDataRaces | src/race/simple_lock.cc:92-308 | on every run, what is flagged is a data race of the run |
| SimpleLockPlus.FlagIsUnlockedRace | src/race/simplelock_plus.cc:85-214 | a flag of SimpleLock+ means the same |
| SimpleLockPlus.SkippedCheckIsQuiet | src/race/simplelock_plus.cc:95-109 | the checks that SimpleLock+ skips would have found nothing |
| SimpleLockDetectors.SlMeta.ProcessRead | src/race/simple_lock.cc:92-179 | the handler on bounded lists makes the model's step |
| SimpleLockDetectors.SlMeta.ProcessWrite | src/race/simple_lock.cc:182-308 | the handler on bounded lists makes the model's step |
| SimpleLockDetectors.SlpMeta.ProcessRead | src/race/simplelock_plus.cc:85-137 | the handler with its early returns makes the model's step |
| SimpleLockDetectors.SlpMeta.ProcessWrite | src/race/simplelock_plus.cc:139-214 | the handler with its early returns makes the model's step |
| SimpleLockDetectors.Detect | src/race/simple_lock.cc:92-308 | an object fed a whole history is flagged iff two accesses conflict, unordered, one without a lock, the earlier one recent enough |
| SimpleLockDetectors.DetectPlus | src/race/simplelock_plus.cc:85-214 | the object of SimpleLock+ gives the verdict of lists of length 1 |
| LockSets.LockSet.Disjoint | src/core/lock_set.cc:32-43 | decides that no lock is common; a missing set has none |
| LockSets.LockSet.DisjointFromBoth | src/core/lock_set.cc:45-60 | decides whether no lock is held by both others since the same acquisition; true if one of them is missing |
| LockSets.LockSet.Merge | src/core/lock_set.cc:64-78 | erasing while iterating leaves the intersection, with the receiver's versions; a missing set clears the receiver |
| LockSets.LockSet.SubLockSet | src/core/lock_set.cc:81-91 | decides inclusion of the addresses; false for a missing set |
| LockSets.LockSet.Join | src/core/lock_set.cc:101-110 | leaves the union, in which the receiver's versions win; a missing set adds nothing |
| LockSets.LockSet.JoinAndMerge | src/core/lock_set.cc:93-99 | leaves the union with the first set, cut down to the second one, and the receiver's versions win |
| LockSets.LockSet.Match | src/core/lock_set.cc:20-30 | decides whether both hold the same addresses; false for a missing set |
| Eraser.NoAlarmUnderConsistentLocking | src/race/eraser.cc:153-321 | an address with one lock held in write mode at every write and in some mode at every read is never flagged, on any run |
| EraserVerdicts.Verdict | src/race/eraser.cc:153-321 | the exact verdict on every run: flagged iff, while shared, a write is made under no lock of the writer table that has protected the address so far, or a read after such a write leaves no lock that has |
| EraserVerdicts.WriteCandidatesAre | src/race/eraser.cc:153-282 | the write candidates are the locks tabled to write at the last write while shared and at every read since |
| EraserVerdicts.WriteOnlyVerdict | src/race/eraser.cc:209-282 | an address that is only written is flagged iff some write made while it is shared is under no lock that its first writer had |
| EraserVerdicts.BareWriteIsFlagged | src/race/eraser.cc:235-252 | a write by a thread other than the first that holds no lock to write is always flagged |
| EraserVerdicts.ExclusiveIsWritten | src/race/eraser.cc:284-321 | of the addresses that one thread alone has accessed, the exclusive ones are those it has written |
| Eraser.LockFreeVerdict | src/race/eraser.cc:153-321 | in runs without locks an address is flagged iff it was written while, or when, it was accessed by a thread other than its first |
| Eraser.HeldIsTabled | src/race/eraser.cc:49-151 | the lock tables never miss a held lock, a rwlock being held until its last release and a mutex until its first unlock |
| Eraser.CountsHolders | src/race/eraser.cc:85-151 | the global reference count is the number of times the rwlock is held |
| Eraser.ReaderTableIs | src/race/eraser.cc:136-151 | a rwlock is in a thread's reader table iff the thread holds it or gave it up while others held it |
| Eraser.WriterTableIs | src/race/eraser.cc:103-151 | a rwlock is in a thread's writer table iff the thread has acquired it to write and has not ended a session of it since |
| Eraser.MutexTableIs | src/race/eraser.cc:49-83 | a mutex is in a thread's tables iff the thread holds it and has not unlocked it since it last locked it |
| EraserExamples.ReleasedLockHidesARace | src/race/eraser.cc:145-150 | a reachable run on which the kept lock makes Eraser miss a data race |
| EraserExamples.NestedMutexAlarms | src/race/eraser.cc:70-83 | a reachable run without a data race that is flagged, although each write is made under the same mutex, locked twice and unlocked once |
| EraserDetectors.LockTables.BeforePthreadRwlockUnlock | src/race/eraser.cc:136-151 | the handler on the tables of lock sets makes the model's step, and by lock discipline its assertion of a positive count holds |
| EraserDetectors.EraserMeta.UpdateMemoryState | src/race/eraser.cc:284-321 | the in-place state machine is the model's |
| EraserDetectors.EraserMeta.ProcessRead | src/race/eraser.cc:153-206 | narrowing both candidate sets in place and the alarm condition |
| EraserDetectors.EraserMeta.ProcessWrite | src/race/eraser.cc:209-282 | rejoining the read candidates, narrowing, and both alarm conditions |
| EraserDetectors.Detect | src/race/eraser.cc:49-321 | the objects fed a whole run flag exactly the addresses with an unprotected access; so they are quiet under consistent locking, and exact on addresses that are only written and in runs without locks |
| EventBuffers.EventBuffer.Push | src/core/event.h:105-108 | appends to the queue that the ring stands for, and empties it if it was full |
| EventBuffers.EventBuffer.Pop | src/core/event.h:109-114 | takes the oldest event |
| EventBuffers.EventBuffer.Empty | src/core/event.h:115 | equal indices mean an empty queue |
| EventBuffers.EventBuffer.Full | src/core/event.h:116-119 | the comparison of indices is true exactly at 10 events |
| ExecutionControls.DetectionQueue.PushEventBufferToDetectionDeque | src/core/execution_control.cpp:538-547 | draining a ring appends its events to the queue in order and empties it |
| ExecutionControls.DetectionQueue.DistributeMemoryEvent | src/core/execution_control.hpp:135-158 | a full ring is flushed before the event is put into it |
| ExecutionControls.DetectionQueue.DistributeNonmemEvent | src/core/execution_control.hpp:160-191 | the thread's ring is flushed and the event follows it into the queue |
| Parallel.PipeIsFifo | src/core/execution_control.hpp:135-191 | per thread and detector, what was queued followed by what waits is what was issued, in program order; rings stay within capacity |
| Parallel.OneDetectorPerAddress | src/core/execution_control.hpp:135-158 | every address has exactly one detector |
| Parallel.PipeTracks | src/core/execution_control.hpp:135-191 | on every run whose joins find the child's ring empty, the detector's clocks are the program's, and each routed access has been recorded or waits, at the clock it was made at but for one frame of its own thread per start that overtook it |
| Parallel.ArrivedVerdict | src/core/execution_control.hpp:135-191 | at any moment of such a run, a detector sees a race iff two recorded accesses race or an overtaken one misleads it |
| Parallel.OvertakingVerdict | src/core/execution_control.hpp:160-172 | once nothing waits for an address, its flag, Djit's or that of FastTrack without join pruning, is set iff the run has a data race on it or an overtaken access conflicts with one that knows its thread only up to the starts that overtook it; no race is lost |
| Parallel.ParallelVerdict | src/core/execution_control.hpp:135-191 | where moreover parents have nothing waiting when their children start, the flag of Djit, or of FastTrack without join pruning, is the sequential verdict |
| Parallel.CalmIsQuiet | src/core/execution_control.hpp:160-172 | the conditions on rings follow from conditions on the program alone, and with a single detector are the same |
| Parallel.CalmParallelVerdict | src/core/execution_control.hpp:135-191 | where threads exit before they are joined, the queue has a race iff recorded accesses race or mislead; all data races once threads are settled, and no others if parents are settled when children start |
| Parallel.OvertakenForkMisleads | src/core/execution_control.cpp:1248-1275 | a run on which a write made after `pthread_create` returned is overtaken by the start of the child: sequential Djit stays quiet, parallel Djit flags it |
| ParallelPruning.PrunedParallelVerdict | src/race/fast_track.cc:265-282 | behind the rings, FastTrack with join pruning flags exactly the races of its queue that start with a write or with a read still held; its flags are races or the work of overtaking starts, and races between two writes are never lost |
| ParallelPruning.SwappedRaceIsLost | src/core/execution_control.hpp:135-158 | a reachable run with a race that starts with a write, flagged by sequential FastTrack and lost in parallel |
| ExecutionControls.ParallelDetect | src/core/execution_control.hpp:135-191 | events of any run whose threads exit before they are joined, sent through the ring objects to a Djit object: the exact flag, every data race once threads are settled, and no others if parents are settled at starts |
| RaceDbs.IndexedTable.Find | src/race/race.cc:301-322 | the bucket search finds a key iff the table has it |
| RaceDbs.IndexedTable.Get | src/race/race.cc:334-342 | a key never gets two ids; table and index stay in step |
| RaceDbs.IndexedTable.Remove | src/race/race.cc:94-101 | the entry leaves the table and its bucket, and nothing else changes |
| RaceDbs.RaceDB.CreateRace | src/race/race.cc:55-81 | the database, read as a list of reports, gains exactly the new report |
| RaceDbs.RaceDB.RemoveRace | src/race/race.cc:83-117 | exactly the reports about that ordered pair of static events disappear, whatever their threads, and no race is left without its static race |

## Left out

- Machine words: clocks, counters and ids are unbounded, so their overflow is not modelled.
- Helgrind.KeptRacesAreFlagged: no statement in terms of data races about addresses that become shared; `HelgrindLocks` says exactly when they are flagged, in terms of the segment and of common locks.
- Detectors.Detector.Handle: the separate clock tables are one table of clock objects keyed by kind and address, so a mutex and a rwlock at one address never share an entry.
- The base detector's rule for rwlocks, which treats them as mutexes, is reached by using mutex events; it loses the edges of concurrent readers, so it is not a rule about rwlock sessions.
- The clock machines of SimpleLock and SimpleLock+, which do not join at locks, and the lock counts they keep: their theorems hold for every history with consistent clocks, or with any clocks, and any counts. That of MultiLock-HB is in `LockOrder`.
- A thread start is one step, the child's announcement; the parent's call of `pthread_create` and its return are events that change no clock. A condition wait is two steps.
- Parallel.CalmParallelVerdict: that a thread's exit is distributed before a join on it returns is a property of the threading library, so it is a condition on the run.
- Runs are well formed: thread ids are fresh, positive and never reused, and a thread that waits at a barrier makes no event but leaving it, although its children may start meanwhile. Where locks matter, rwlocks are released by their holders; in `LockOrder` mutexes are too, and locks exclude each other as they do in the threading library.
- The loops over all parallel detectors: each detector's queue and rings are modelled on their own, indexed by thread instead of by detector; the events held back before the detectors exist are not modelled, and broadcasting to one queue is atomic.
- Splitting an access into aligned units: an address of the model is a unit number.
- The tables of Helgrind for threads, and the locksets of MultiLock-HB and Helgrind, are sets and maps held by value; versions of locks are kept in `LockSets` only.
- Instruction tables, statistics, report files and the choice of the reported instruction; only the reporting threads of Djit are modelled.
- RaceDbs.RaceDB.RemoveRace: objects are their ids, hashes are sums of ids instead of addresses, and the release of memory is not modelled.
- Freed memory, address filters, atomic instructions, and the heuristics for spinning loops, condition variables used as flags and ad hoc synchronization.
- AccuLock, RaceTrack, ThreadSanitizer, the verifiers and the recorded potential races: imprecise on purpose or dependent on timing.
- Loading and saving the race database, which a serialisation library does.
