# Hibernator: a verified model of its scheduling, planning, restore and worker logic

Hibernator is a Kubernetes operator that shuts cloud resources down in off hours and brings them
back. This project models the four parts of it where a mistake would be hard to see, and proves
what those parts are meant to guarantee.

| module | models |
|---|---|
| `Graphs`, `Planner`, `Admission` | the level-by-level execution planner, the admission webhook's queue-based sort on reversed edges, and their agreement |
| `RestoreStore`, `RestoreRuns` | the restore record: merge strategies, staleness, cycle IDs, the runner's accumulator and loader, over whole histories |
| `EksExecutor`, `KarpenterExecutor`, `Ec2States`, `Ec2Executor` | shutdown and wake-up of node groups, NodePools and instances, run against the stored record |
| `Calendar`, `Windows`, `Buffers`, `Requeue`, `Schedule`, `ScheduleMeaning`, `Stages`, `Turns`, `Suspensions`, `SuspendedWakeUps`, `Events`, `Collisions` | weekly cron rules, the schedule evaluator with its buffer and its exception pipeline, next-event times, the events listing and the collision test |
| `WorkerPool`, `PoolSafety`, `PoolRuns`, `PoolSteps`, `PoolRemovals`, `PoolStalls` | the keyed worker pool and its slots as a transition system over lock sections and channel operations |
| `Coalesce`, `Recovery` | update coalescing, and retry backoff over runs |

`dafny verify dfyconfig.toml` verifies everything.

## How it is modelled

- Loops and mutable objects of the source are methods with loop invariants and classes; each is
  tied by its `ensures` to a specification that is then reasoned about in lemmas.
- Time is integer nanoseconds of local time at a fixed offset. A cron rule is a minute of day and a
  set of weekdays, which is all that the window code generates. An unset time is `None`.
- The cloud is a map of resources and the ConfigMap a map of records. A call that fails changes
  nothing; where a run fails is an input (`stopAt`, `Failure`), so theorems hold for every failure.
  The clock is a parameter of each call.
- Go map iteration order is arbitrary; loops over maps pick keys nondeterministically. The webhook's
  initial queue, whose order is arbitrary in the source, is sorted in the model; nothing depends on it.
- A worker pool run is any interleaving of steps; each step is one lock section, channel operation
  or atomic read. `Send` is two steps (store, signal), and so is receiving (signal, value).
- Retry decisions and their recording are separate steps, since the status writer records later.

## What turned out differently from the documentation

- `PlanDAG` given a duplicated target reports a dependency cycle, because it counts list positions
  while its degree map counts names (`Planner.PlanDAG`). The webhook rejects such plans earlier.
- A node group listed twice for the EKS executor loses its size: the second visit of the same run
  overwrites the captured size with zero. `EksExecutor.ShutdownsThenWakeUp` gives the exact condition.
- The worker pool's package comment promises exactly one goroutine per key. That holds in every run
  exactly when auto-removal is off (`PoolRuns.OneBodyPerKeyIffNoAutoRemove`); per entry it always holds.
- Auto-removal is meant to take out idle entries only. The worker of an entry that another one has
  replaced removes the key of that other entry, which may be running. What is removed always rests
  and is empty exactly when auto-removal is off (`PoolRemovals.RemovalIsSafeIffOff`); where the key
  still leads to the worker's own entry it does (`PoolRemovals.OwnEntryIsSafe`).
- A worker can be left waiting on an empty queue, where neither idling nor `Stop` reaches it: a sender
  stores, the worker drains the queue, and only then the sender signals. This can happen exactly when
  the slots are queues with any room (`PoolStalls.StallsIffQueueHasRoom`); only a new value frees it.
- A hibernation can be missed by the announced next event exactly when a suspension breaks off before
  the end that the code takes it to have (`Suspensions.AwakeMissesIffBreaksOff`, for every list of
  suspend windows); a wake-up exactly when a suspension is not found in time
  (`SuspendedWakeUps.HibernatedMissesIffUnseen`), because the code looks at today and tomorrow only:
  `SuspendedWakeUps.MondayIsMissedOnFriday` is an input.
- With several windows the earliest end is announced as the wake-up although another window may still
  hibernate. Every announced wake-up is real exactly when no window ends inside another
  (`Turns.WakeUpsAreRealIff`, `Events.AnnouncedIsFlipIff`).
- The lead time of a suspension is not always that of a listed start: the day test and the minute
  test are separate, so a window that opens tomorrow afternoon leads already today before that hour.
  `Stages.LeadIsListedIff` gives the exact condition for a lead time of up to a day and
  `Stages.LeadsADayEarly` inputs; a lead time below a minute leads all day, and of one above a day
  only the rest counts (`Stages.LeadTells`).
- The suspend stage reports its own grace period together with the grace end of the stages before it
  (`Stages.SuspendGrace`).
- The schedule buffer is not always a delay: it is cut off at midnight, and it bridges short pauses.
  `Buffers.DelayIffFits` says for exactly which windows and buffers it is a pure delay.
- The retry budget holds in every run exactly when no decision is taken while an earlier one is still
  to be recorded, or there is no budget (`Recovery.BudgetHoldsIffSerial`).
- On a day that is not listed, an overnight window hibernates all day under the cron form but is
  never "inside" under the membership test (`Windows.EvalClosedForm`); extend and base windows use
  the former, suspend windows the latter, and `ScheduleMeaning.PipelineMeaning` is stated accordingly.
- A window with equal boundaries is all day for the membership test and empty for the collision test
  (`Collisions.EqualBoundariesDisagree`); the evaluator refuses it.
- A comment in `MarkTargetRestored` says that the cycle ID is cleared; the code clears only the live flag.

## Model

| member | source | states |
|---|---|---|
| `Planner.PlanDAG` | internal/scheduler/planner.go:86-157 | a plan comes back iff targets are distinct, all endpoints are targets and no closed walk exists; unknown endpoint error iff there is one, naming the first; stages are non-empty, sorted, hold each target once and are as wide as allowed, predecessors sit strictly earlier, and a target's stage is the length of the longest chain ending at it |
| `Planner.Stratify` | internal/scheduler/planner.go:116-156 | the level loop ends with every name staged, or the names are fewer than the list or the graph is cyclic |
| `Planner.NextStage` | internal/scheduler/planner.go:121-152 | one round takes exactly the names whose predecessors are all staged; an empty round means everything is staged or there is a cycle |
| `Planner.TakeReady` | internal/scheduler/planner.go:136-142 | after removing the ready names the degree map counts exactly the dependencies from names not yet staged |
| `Planner.BuildGraph` | internal/scheduler/planner.go:103-114 | adjacency lists successors in input order with repeats, degrees count incoming dependencies with repeats |
| `Planner.LowerDegrees` | internal/scheduler/planner.go:139-141 | each neighbour loses one degree per occurrence, an absent one counting from zero |
| `Planner.FindUnknown` | internal/scheduler/planner.go:93-101 | finds the first endpoint that is no target iff there is one |
| `Planner.SortNames` | internal/scheduler/planner.go:133-134 | a strictly increasing listing of exactly the given names |
| `Planner.BeforeIsLexicographic` | internal/scheduler/planner.go:133-134 | the order is the lexicographic one: at the first difference the smaller character or the end of the name comes first |
| `Planner.StuckIsCyclic` | internal/scheduler/planner.go:129-131 | names left over with none ready imply a cycle |
| `Graphs.NoSourceMeansCycle` | internal/scheduler/planner.go:129-131 | a finite non-empty set in which everything has a predecessor contains a closed walk (pigeonhole) |
| `Graphs.StageIsLongestChain` | internal/scheduler/planner.go:116-154 | in a layering where each name waits for something in the stage before, stage index equals longest chain |
| `Graphs.NoStagingIsEarlier` | internal/scheduler/planner.go:116-154 | no other staging that respects the edges places any target earlier |
| `Graphs.LayeredIsAcyclic` | internal/scheduler/planner.go:86-157 | a staging with predecessors strictly earlier rules out cycles |
| `Admission.ScanDependencies` | internal/validationwebhook/hibernateplan_validator.go:335-373 | the errors of single dependencies in order; without errors the graph and degrees are those of the reversed edges |
| `Admission.DrainQueue` | internal/validationwebhook/hibernateplan_validator.go:376-397 | the queue loop visits every name iff the reversed graph has no cycle |
| `Admission.ValidateDAG` | internal/validationwebhook/hibernateplan_validator.go:330-404 | a lone cycle error iff the graph is cyclic and no single dependency is at fault; otherwise, in the order of the list, for each dependency the first of unknown source, unknown target and self-reference; no error iff endpoints are known and there is no cycle |
| `Admission.ValidateTargetNames` | internal/validationwebhook/hibernateplan_validator.go:218-226 | exactly the positions that repeat a name, in order, each with the latest position before it that has the same name; no error iff names are distinct |
| `Admission.AcyclicBothWays` | internal/validationwebhook/hibernateplan_validator.go:371-372 | reversing all edges neither makes nor breaks a cycle |
| `Admission.Admit` | internal/validationwebhook/hibernateplan_validator.go:295-404 | the repeated names first, then the dependency errors, each list exactly as the two checks have it; nothing iff the input is plannable |
| `Admission.AdmitAndPlan` | internal/validationwebhook/hibernateplan_validator.go:330-404 | on every input, self-loops, repeated edges and unknown names included, the webhook reports nothing iff the planner returns a plan |
| `RestoreStore.Manager.SaveState` | internal/restore/save.go:86-158 | first report: stored as it is, dated, with the missing statuses. Empty report of the same cycle: no change. Otherwise the record is live, of this cycle, target and executor, captured now and created when the first one was, and for every key it is said what its value, staleness and report time become. No other record, mark or snapshot changes |
| `RestoreStore.MergeReported` | internal/restore/save.go:130-153 | reported keys get the value and status of the strategy their cycle, report history and demand select |
| `RestoreStore.HandleStaleResources` | internal/restore/save.go:174-207 | unreported keys are kept if reported earlier in this cycle, else aged by one, and dropped at the limit |
| `RestoreStore.Merge` | internal/restore/save.go:124-158 | both loops and the assembled record: the merge that `SaveTells` spells out |
| `RestoreStore.SaveTells` | internal/restore/save.go:86-239 | every save, key by key: taken as reported when demanded or not yet reported in this cycle, else as before; unreported keys kept if reported in this cycle, else aged by one and gone at the limit; a merged record is always live |
| `RestoreStore.Manager.PrepareRestorePoint` | internal/restore/manager.go:110-167 | creates an empty ConfigMap if there is none; otherwise keeps a snapshot of all records, every record stops being live and is otherwise unchanged |
| `RestoreStore.Manager.MarkTargetRestored` | internal/restore/manager.go:213-251 | without a ConfigMap nothing; otherwise marks the target, its record stops being live, everything else unchanged |
| `RestoreStore.Manager.UnlockRestoreData` | internal/restore/manager.go:284-326 | without a ConfigMap nothing; otherwise clears all marks and every cycle ID, nothing else |
| `RestoreRuns.Accumulator.constructor` | cmd/runner/state/accumulator.go:52-61 | a new accumulator holds no reports |
| `RestoreRuns.Accumulator.Add` | cmd/runner/state/accumulator.go:66-94 | a later report of a key replaces the earlier one, time included |
| `RestoreRuns.Accumulator.Flush` | cmd/runner/state/accumulator.go:127-163 | saves everything gathered, as a live report with its report times, under the run's cycle with the staleness limit three, and says what the record then holds for every key |
| `RestoreRuns.LoadRestoreData` | cmd/runner/state/loader.go:23-66 | fails iff there is no record; otherwise returns exactly the keys that are not stale |
| `RestoreRuns.FlushKeepsConsistent` | internal/restore/save.go:86-207 | a flush keeps: state and status have the same keys, each status is reported with staleness 0 or unreported with 1 <= staleness < limit |
| `RestoreRuns.VisibleIsReported` | cmd/runner/state/loader.go:37-51 | in a consistent record a wake-up sees a key iff its status says reported |
| `RestoreRuns.FlushAbsorbs` | internal/restore/save.go:118-158 | seen through its cycle, a flush does to the record what one small map operation does: a report wins on new keys and when demanded |
| `RestoreRuns.HistoryRefines` | internal/restore/save.go:86-239 | after any history of flushes, restores, unlocks and prepares the record is consistent and shows exactly the abstract map, cycle and liveness |
| `RestoreRuns.LiveIffStoredSince` | internal/restore/save.go:225-239 | over any history a record is live iff some flush stored something since it was last restored or prepared |
| `RestoreRuns.LastDemandedElseFirst` | internal/restore/strategy.go:112-135 | over any run of reports in one cycle a key holds its last demanded report, or its first if none was demanded; it is held iff reported |
| `RestoreRuns.CycleShowsItsReports` | internal/restore/save.go:118-158 | a fresh cycle shows what its own reports absorbed and never older data |
| `RestoreRuns.UnreportedAges` | internal/restore/save.go:174-207 | a key unreported through k saves of changing cycles keeps its value with staleness k below the limit and is gone at the limit |
| `RestoreRuns.UnlockedTakesReport` | internal/restore/manager.go:310-323 | after an unlock the first save under a non-empty cycle shows exactly the reported values |
| `RestoreRuns.FlushInCycle` | cmd/runner/state/accumulator.go:127-163 | a flush through the manager leaves a consistent record of the cycle that shows the absorbed reports, and no other record changes |
| `RestoreRuns.CloseCycle` | internal/restore/manager.go:237-323 | marking and unlocking leave a consistent record that belongs to no cycle |
| `EksExecutor.ScaleNodeGroupToZero` | internal/executor/eks/eks.go:419-499 | an absent group is skipped; a present one is reported with its sizes and, if running, set to zero with its maximum kept |
| `EksExecutor.Shutdown` | internal/executor/eks/eks.go:199-229 | of every group reached before the failing call: desired and minimum go to zero if it ran, its maximum stays, and it is reported as it was, or at zero if it was reached twice; no other group or report changes; an empty list is an error |
| `EksExecutor.WakeUp` | internal/executor/eks/eks.go:303-343 | existing groups saved as scaled get their minimum, desired and maximum back, up to the call that fails; succeeds iff none fails; no other group changes |
| `EksExecutor.RestoreNodeGroup` | internal/executor/eks/eks.go:501-554 | an existing group gets the saved sizes, an absent one is skipped |
| `EksExecutor.WakingAgain` | internal/executor/eks/eks.go:303-343 | a wake-up repeated after one that stopped part-way ends where a single one would have |
| `EksExecutor.CycleAt` | internal/executor/eks/eks.go:419-499 | after any runs, what the cloud and the record hold for each group, by how often the first run that reached it did so |
| `EksExecutor.ReachedIsDown` | internal/executor/eks/eks.go:451-496 | hibernating hibernates: what some run reached is at zero and saved |
| `EksExecutor.CycleOutcome` | internal/executor/eks/eks.go:419-554 | what any number of runs stopped anywhere and one wake-up leave of every group: lost ones at zero, all others as they were |
| `EksExecutor.ShutdownsThenWakeUp` | internal/executor/eks/eks.go:419-554 | they are the identity iff no running group is reached twice by the run that first reaches it |
| `EksExecutor.DistinctListsLoseNothing` | internal/executor/eks/eks.go:707-732 | lists without repeated names satisfy that condition |
| `EksExecutor.ListedTwiceIsLost` | internal/executor/eks/eks.go:451-496 | a concrete group listed twice that does not come back |
| `EksExecutor.HibernateAndWake` | internal/executor/eks/eks.go:168-384 | the same through accumulator, flushes, stored record and loader, with wake-ups failing part-way until one succeeds, whatever older cycles left in the record, which stays consistent |
| `EksExecutor.HibernateRepeatedly` | internal/executor/eks/eks.go:168-384 | over any number of cycles, each prepared, run, marked and unlocked: a group that some cycle loses stays at zero, all others come back; the cloud is what it was iff no cycle loses a group |
| `KarpenterExecutor.Shutdown` | internal/executor/karpenter/karpenter.go:202-217 | exactly the listed pools before a failing call or a pool without a spec are deleted and reported with name, spec and labels; everything else stays; succeeds iff neither occurs, and then none of the names is left |
| `KarpenterExecutor.ScaleDownNodePool` | internal/executor/karpenter/karpenter.go:407-472 | a present pool is deleted and reported with its spec and labels, one without a spec is an error that changes nothing, an absent one is skipped |
| `KarpenterExecutor.VisitNames` | internal/executor/karpenter/karpenter.go:202-217 | the loop over the names up to the first failure |
| `KarpenterExecutor.WakeUp` | internal/executor/karpenter/karpenter.go:289-312 | creates saved pools whose name is free with their spec and labels, up to the call that fails; succeeds iff none fails; nothing else changes |
| `KarpenterExecutor.RestoreNodePool` | internal/executor/karpenter/karpenter.go:475-519 | creates the pool from its saved spec and labels unless the name is taken |
| `KarpenterExecutor.WakingAgain` | internal/executor/karpenter/karpenter.go:289-312 | a wake-up repeated after one that stopped part-way ends where a single one would have |
| `KarpenterExecutor.CycleAccounts` | internal/executor/karpenter/karpenter.go:407-472 | throughout a cycle each pool is either untouched and unsaved or deleted and saved as it was |
| `KarpenterExecutor.CompleteRunClears` | internal/executor/karpenter/karpenter.go:407-472 | hibernating hibernates: after any runs of which one completes, each name of that run is gone and its pool saved with spec and labels |
| `KarpenterExecutor.ShutdownsThenWakeUp` | internal/executor/karpenter/karpenter.go:407-519 | any runs over any names stopped anywhere, then one wake-up: every pool is back with its spec and labels |
| `KarpenterExecutor.HibernateAndWake` | internal/executor/karpenter/karpenter.go:137-353 | the same through the stored record, with wake-ups failing part-way until one succeeds |
| `KarpenterExecutor.HibernateRepeatedly` | internal/executor/karpenter/karpenter.go:137-353 | any number of cycles bring every pool back |
| `Ec2Executor.Shutdown` | internal/executor/ec2/ec2.go:137-218 | reports every selected instance and stops exactly the running ones; discovery failure reports nothing, a failing stop changes nothing; fails iff discovery fails or a needed stop call fails |
| `Ec2Executor.WakeUp` | internal/executor/ec2/ec2.go:255-319 | starts, by way of pending, only selected instances saved as running and now stopped or stopping, and all that still exist if it succeeds; says exactly when it succeeds |
| `Ec2Executor.StartEach` | internal/executor/ec2/ec2.go:364-378 | one by one, missing instances skipped, up to the call that fails |
| `Ec2States.WakingIsRecoverable` | internal/executor/ec2/ec2.go:281-319 | a wake-up that starts only some instances, others vanishing, loses nothing else |
| `Ec2States.CycleAt` | internal/executor/ec2/ec2.go:156-201 | throughout a cycle an instance that was up and no longer is rests and is saved as running, others only come to rest and are not |
| `Ec2States.StoppedStays` | internal/executor/ec2/ec2.go:156-201 | hibernating hibernates: a run without failure brings what was running down, and down it stays through the cycle |
| `Ec2States.ShutdownsAreRecoverable` | internal/executor/ec2/ec2.go:156-201 | after any runs failing at will, whatever was up still is, or rests and is saved as running |
| `Ec2States.ShutdownsThenWakeUp` | internal/executor/ec2/ec2.go:156-310 | any runs failing at will, instances settling in between, then one wake-up: up is what was up, others at most came to rest |
| `Ec2States.RecoveredRuns` | internal/executor/ec2/ec2.go:156-310 | once all has settled, the running set is the original one, with what was pending |
| `Ec2Executor.HibernateAndWake` | internal/executor/ec2/ec2.go:112-346 | the same through the stored record, wake-ups failing anywhere until one succeeds, but for instances that vanished |
| `Ec2Executor.HibernateRepeatedly` | internal/executor/ec2/ec2.go:112-346 | the same over any number of cycles |
| `Calendar.NextIsLeast` | internal/scheduler/schedule.go:208-232 | the next firing is the least one strictly after a time |
| `Calendar.LastIsGreatest` | internal/scheduler/schedule.go:208-232 | the last firing is the greatest one not after a time |
| `Calendar.FindLastOccurrence` | internal/scheduler/schedule.go:208-232 | the two-stage forward search finds the greatest firing not after now for every weekly rule with a day |
| `Windows.IsInTimeWindows` | internal/scheduler/windows.go:32-80 | the loop holds iff some window lists today and contains the minute of day, overnight windows included |
| `Windows.EvalWindow` | internal/scheduler/schedule.go:122-204 | evaluation of a window from the searched last and the next firings, grace periods included |
| `Windows.EvalClosedForm` | internal/scheduler/schedule.go:122-204 | with no buffer: on a listed day hibernated iff the membership test holds, on an unlisted day iff the window is overnight |
| `Windows.ChangesNext` | internal/scheduler/schedule.go:122-204 | a window keeps its state up to its next firing of the opposite rule and flips exactly there |
| `Buffers.BufferedClosedForm` | internal/scheduler/schedule.go:158-189 | evaluation of every window under every positive buffer: on unless it started at most b ago after a pause longer than b; off unless today is listed and ended at most b ago |
| `Buffers.EvalTimes` | internal/scheduler/schedule.go:158-204 | the times and the grace period that go with the verdict, for every window and buffer: the next firings, brought forward to the end of a grace period |
| `Buffers.DelayIffFits` | internal/scheduler/schedule.go:158-189 | evaluation equals the unbuffered state just before t - b at all times iff the buffer fits: same-day, shorter than the window and over by midnight; overnight, shorter than the pause and, between listed days in a row, than the night |
| `Buffers.BufferIsDelay` | internal/scheduler/schedule.go:158-189 | for a same-day window that the buffer fits, hibernated iff the day is listed and start + b < t <= end + b |
| `Buffers.CutAtMidnight` | internal/scheduler/windows.go:213-219 | a buffer that reaches past midnight: an instant where evaluation is not the delayed state |
| `Buffers.FullDaysAreBridged` | internal/scheduler/windows.go:166-226 | 00:00-23:59 on two listed days with at least a minute of buffer has no awake instant from 23:59 to 23:59 |
| `Schedule.EvaluateWindows` | internal/scheduler/schedule.go:335-386 | the loop combines all windows, and fails iff one has no day or equal boundaries |
| `Schedule.EvalAllMeaning` | internal/scheduler/schedule.go:335-386 | with no buffer a list hibernates iff some window does, and its next events are the earliest over all windows |
| `Stages.ListTells` | internal/scheduler/schedule.go:335-386 | under any buffer a list hibernates iff some window does, announces the least of its next times and, in a grace period of some window, the least of those ends |
| `Schedule.FindNextSuspensionStart` | internal/scheduler/schedule.go:540-581 | the double loop finds the least start, in a later minute than now, of a window listed today or tomorrow, and nothing iff there is none |
| `Schedule.EarliestStartIsLeast` | internal/scheduler/schedule.go:549-577 | no window starts earlier on the day looked at |
| `Schedule.FindSuspensionEnd` | internal/scheduler/schedule.go:584-638 | finds nothing iff no window holds the time; otherwise the end of the first window that does, tomorrow's in the evening part of an overnight one |
| `Suspensions.HoldingWindow` | internal/scheduler/schedule.go:584-638 | inside a suspension that end exists, lies ahead and belongs to a window holding the time |
| `Suspensions.HeldAtAllTimes` | internal/scheduler/schedule.go:584-638 | whether suspensions last to that end is decided by the minutes of one week |
| `Schedule.MergeByType` | internal/scheduler/evaluate.go:52-86 | merges exceptions of one type: none, the single one, or windows joined, validity widened and the longest lead time |
| `ScheduleMeaning.MergedMembers` | internal/scheduler/evaluate.go:52-86 | a merge exists iff the type occurs, and keeps exactly the windows of its exceptions |
| `ScheduleMeaning.MergeTells` | internal/scheduler/evaluate.go:52-86 | a merge has its windows in order, the largest lead time and the widest validity |
| `Schedule.FilterActiveLoop` | internal/scheduler/schedule.go:314-328 | keeps, in order, the exceptions present and valid now |
| `ScheduleMeaning.FilterActiveMembers` | internal/scheduler/schedule.go:314-328 | active from the first to the last instant of the validity, both included |
| `ScheduleMeaning.FilterActiveInOrder` | internal/scheduler/schedule.go:314-328 | in the order of the list: the first one comes first if it is active, then those of the rest |
| `Schedule.Evaluate` | internal/scheduler/schedule.go:282-310 | replace, then extend, then suspend, stopping at the first failing stage; `PipelineVerdict`, `SuspendTimes` and the lemmas below say what comes out |
| `Stages.PipelineVerdict` | internal/scheduler/schedule.go:282-492 | for every buffer and lead time: hibernated iff some window of base or replacement, or of an extend, hibernates and no suspension, grace period after one, or lead of one keeps the cluster awake |
| `Stages.SuspendVerdict` | internal/scheduler/schedule.go:450-492 | the suspend stage by instants: awake iff the stages before are, or a suspend window holds, ended no longer ago than the buffer, or leads while the next wake-up is none or after the next suspension start |
| `Stages.LeadTells` | internal/scheduler/windows.go:86-148 | the minute arithmetic of the lead time is: today is listed or, from 13:00 on, tomorrow is, and the start of today or tomorrow lies ahead by at most the lead time |
| `Stages.LeadWithinDay` | internal/scheduler/windows.go:86-148 | a lead time that stays within the day: before the start of today, by no more than that |
| `Stages.LeadIsListedIff` | internal/scheduler/windows.go:86-148 | exactly when the lead is that of a start on a listed day |
| `Stages.LeadsADayEarly` | internal/scheduler/windows.go:95-98 | a family of windows that lead a day early |
| `Stages.SuspendTimes` | internal/scheduler/schedule.go:494-535 | the announced times after suspend: the earlier of wake-up and next suspension start, and a hibernation put off to the end of the suspension it falls into |
| `Stages.SuspendGrace` | internal/scheduler/schedule.go:465-535 | a grace period is announced iff a suspension ended no longer ago than the buffer and none holds; its end is that of the stages before |
| `Stages.ExtendWakeUp` | internal/scheduler/schedule.go:393-443 | a wake-up inside an extend window gives way to the extend's own, else the earlier one counts |
| `Stages.ExtendGrace` | internal/scheduler/schedule.go:393-443 | the grace end of the side in a grace period, or the earlier of both |
| `ScheduleMeaning.PipelineFails` | internal/scheduler/schedule.go:282-310 | evaluation fails iff some window it must turn into cron rules has none |
| `ScheduleMeaning.PipelineMeaning` | internal/scheduler/schedule.go:282-328 | with no buffer and lead time: hibernated iff in (replace if active, else base) or extend, and not in suspend |
| `ScheduleMeaning.OnlyWindowsMatter` | internal/scheduler/evaluate.go:36-86 | the verdict depends only on which windows are active under which type |
| `ScheduleMeaning.OrderIsIrrelevant` | internal/scheduler/evaluate.go:36-86 | reordering exceptions does not change the verdict |
| `ScheduleMeaning.SplitIsIrrelevant` | internal/scheduler/evaluate.go:52-86 | splitting an exception into two of the same type and validity does not change the verdict |
| `ScheduleMeaning.SuspendOnlyWakes` | internal/scheduler/schedule.go:450-492 | for any buffer and lead time, suspend only turns hibernation off |
| `ScheduleMeaning.NoMissedTransition` | internal/scheduler/schedule.go:335-443 | with no buffer and no suspend the state is constant up to the selected next time, which lies ahead; an awake schedule hibernates exactly then |
| `Suspensions.SuspendSubtracts` | internal/scheduler/schedule.go:450-492 | with no buffer and lead time suspend removes exactly its windows |
| `Suspensions.AwakeMissesNothing` | internal/scheduler/schedule.go:499-519 | with no buffer and lead time, if every suspension lasts to the end it is taken to have, an awake schedule stays awake up to the announced hibernation, whatever the base, replace and extend windows |
| `Suspensions.AwakeMissesIffBreaksOff` | internal/scheduler/schedule.go:450-638 | with no buffer and lead time, for every list of suspend windows: some schedule misses a hibernation iff one of the suspensions breaks off before that end |
| `Suspensions.AwakeMissesIffBrokenOff` | internal/scheduler/schedule.go:584-638 | for one suspend window, some schedule misses a hibernation iff the window is overnight, ends after midnight and leaves out a weekday |
| `Suspensions.BrokenOffSuspension` | internal/scheduler/schedule.go:626-634 | wherever a suspension breaks off, a schedule that shows the miss |
| `SuspendedWakeUps.SeenAlways` | internal/scheduler/schedule.go:540-581 | whether every suspension is found in time is decided by the minutes of one week, two days ahead |
| `SuspendedWakeUps.HibernatedMissesNothing` | internal/scheduler/schedule.go:521-581 | with no buffer and lead time, if every suspension is found in time, a hibernated schedule misses no wake-up, whatever the base, replace and extend windows |
| `SuspendedWakeUps.HibernatedMissesIffUnseen` | internal/scheduler/schedule.go:450-581 | for every list of suspend windows: some schedule misses a wake-up iff one of the suspensions is not found in time |
| `SuspendedWakeUps.UnseenSuspension` | internal/scheduler/schedule.go:545-577 | wherever one is not, a schedule that shows the miss |
| `SuspendedWakeUps.MondayIsMissedOnFriday` | internal/scheduler/schedule.go:545-577 | a concrete schedule, suspension and instant |
| `Suspensions.HibernatedMissesIffOpensUnseen` | internal/scheduler/schedule.go:521-581 | the same at one instant: hibernated up to the announced wake-up iff no suspension opens after tomorrow, or at a midnight inside an overnight window, before it |
| `Events.Step` | cmd/kubectl-hibernator/common/schedule.go:94-125 | one evaluator step: fails iff evaluation fails, else the announced later event and the cursor ten seconds after it |
| `Events.ComputeUpcomingEvents` | cmd/kubectl-hibernator/common/schedule.go:84-129 | for every schedule: fails iff there is no window or evaluation fails on the way; each event is announced from ten seconds after the one before, times increase, and the list is short only if nothing more is announced; for windows none of which ends inside another exactly the next flips, none skipped, alternating |
| `Events.AnnouncedIsFlipIff` | cmd/kubectl-hibernator/common/schedule.go:105-122 | without exceptions every announced event is a flip iff no window ends inside another |
| `Events.ChainsAgree` | cmd/kubectl-hibernator/common/schedule.go:93-126 | two lists of announced events differ only in length |
| `Events.CursorAfterEvent` | internal/scheduler/schedule.go:236-267 | without a buffer the requeue time leads to ten seconds after the selected event, whatever the exceptions |
| `Events.QuietAfterTurn` | internal/scheduler/schedule.go:236-267 | the ten-second advance skips no flip |
| `Turns.SingleEndsClear` | internal/scheduler/schedule.go:335-386 | a single window never ends inside itself |
| `Turns.TurnIsFlip` | internal/scheduler/schedule.go:368-371 | if no window ends inside another, the announced event changes the state |
| `Turns.WakeUpsAreRealIff` | internal/scheduler/schedule.go:368-371 | every wake-up announced while hibernated finds all windows off iff no window ends inside another |
| `Requeue.RequeueAfterChange` | internal/scheduler/schedule.go:236-267 | with a buffer that fits, grace period or not, the controller looks again ten seconds after the buffer has passed since the next unbuffered change |
| `Requeue.HoldsUntilRequeue` | internal/scheduler/schedule.go:158-189 | up to then the evaluated state holds, and right after it is the other one |
| `Requeue.RequeueTells` | internal/scheduler/schedule.go:236-267 | for every result: ten seconds after the end of the grace period, or after the next event and the buffer, or a minute and the buffer from now if none lies ahead |
| `Collisions.PairCollisionIsExact` | internal/validationwebhook/types.go:29-78 | two windows collide iff both have different boundaries and some instant is inside both |
| `Collisions.CollisionIsExact` | internal/validationwebhook/types.go:18-78 | a collision implies a common instant, and equals it for windows with different boundaries |
| `Collisions.EqualBoundariesDisagree` | internal/validationwebhook/types.go:72-76 | equal boundaries: inside all day for the scheduler, never colliding for the webhook |
| `PoolSafety.StepKeeps` | pkg/keyedworker/pool.go:186-393 | every step of Deliver, Register, worker, restart, auto-remove and stop keeps the invariant; the exit section reads the context and the slot in two steps |
| `PoolRuns.RunKeeps` | pkg/keyedworker/pool.go:186-393 | hence every interleaving does |
| `PoolRuns.OneBodyPerEntry` | pkg/keyedworker/pool.go:293-393 | no entry ever has two worker bodies |
| `PoolRuns.NoValueIsStranded` | pkg/keyedworker/pool.go:186-213 | once registered and not stopped, an entry with an unseen value has a call about to ensure a worker, or a worker with a signal pending, being sent or being handled |
| `PoolRuns.QueueDeliversInOrder` | pkg/keyedworker/slot.go:74-107 | values received followed by values queued equal the accepted sends in order; `AcceptedIsSentWithRoom` says which those are |
| `PoolSteps.QueueTakesIffRoom` | pkg/keyedworker/slot.go:74-90 | a send appends its value iff the queue holds fewer than its capacity, and changes nothing otherwise |
| `PoolSteps.CellTakesAll` | pkg/conflate/conflate.go:28-41 | a latest-wins cell takes every value in place of the one before |
| `PoolSteps.AcceptedIsSentWithRoom` | pkg/keyedworker/slot.go:74-90 | over every run an entry has accepted exactly the values sent to it that did not meet a full queue, in order |
| `PoolSteps.NothingDropped` | pkg/keyedworker/slot.go:74-90 | if no send to it met a full queue, all values sent are accepted |
| `PoolRuns.CellDeliversLatest` | pkg/conflate/conflate.go:28-48 | the newest value is the last one received, or is held with a wake-up under way |
| `PoolRuns.TwoBodiesForOneKey` | pkg/keyedworker/pool.go:373-389 | with auto-removal, for every slot kind and capacity, a run with two bodies for one key |
| `PoolRuns.OneBodyPerKeyIffNoAutoRemove` | pkg/keyedworker/pool.go:206-213 | one body per key in every run iff auto-removal is off |
| `PoolSteps.StoppedStartsNothing` | pkg/keyedworker/pool.go:293-316 | once stopped, with no call past the check, no worker is started in any continuation |
| `PoolSteps.ScanFreezesMap` | pkg/keyedworker/pool.go:186-204 | while Register looks at the entries no step changes the map |
| `PoolSteps.LeaveRestartsOrStops` | pkg/keyedworker/pool.go:333-370 | a leaving worker is replaced iff values are pending and the pool is up; otherwise the entry stops running |
| `PoolSteps.OnlyRemovalRemoves` | pkg/keyedworker/pool.go:206-393 | no other step takes a key out of the map or redirects it |
| `PoolRemovals.OwnEntryIsSafe` | pkg/keyedworker/pool.go:373-389 | a removal of the worker's own entry finds it neither running nor with values pending |
| `PoolRemovals.RunningEntryIsRemoved` | pkg/keyedworker/pool.go:373-389 | with auto-removal, for every slot kind and capacity, a run that removes a running entry |
| `PoolRemovals.RemovalIsSafeIffOff` | pkg/keyedworker/pool.go:373-389 | only resting empty entries are removed in every run iff auto-removal is off |
| `PoolStalls.OnlyAValueFrees` | pkg/keyedworker/slot.go:94-105 | a worker that took a signal and waits on an empty queue is moved by no step but a new value for its entry |
| `PoolStalls.StalledAfterStop` | pkg/keyedworker/slot.go:74-105 | for every queue with room, a run that ends stopped with such a worker |
| `PoolStalls.StallsIffQueueHasRoom` | pkg/keyedworker/slot.go:74-105 | some run ends so iff the slots are queues with capacity at least one |
| `Coalesce.CoalesceUpdates` | internal/message/watchutil.go:91-114 | the backward loop and reversal keep exactly the last update of each key |
| `Coalesce.CoalescingKeepsMeaning` | internal/message/watchutil.go:91-114 | applying the kept updates to any map gives what applying all gives, deletes included |
| `Coalesce.LastUpdateCounts` | internal/message/watchutil.go:91-114 | applying updates leaves of every key what its last update says, or what it had without one |
| `Coalesce.LastOnlyUnique` | internal/message/watchutil.go:91-114 | kept keys are unique |
| `Coalesce.LastOnlyMentions` | internal/message/watchutil.go:91-114 | exactly the updated keys are kept |
| `Coalesce.KeepsOrder` | internal/message/watchutil.go:108-111 | the kept updates are those at the kept positions, one for one |
| `Coalesce.PositionsIncrease` | internal/message/watchutil.go:108-111 | those positions increase |
| `Coalesce.KeepsLastOccurrences` | internal/message/watchutil.go:100-106 | they are exactly the last occurrences of their keys |
| `Recovery.CalculateBackoff` | internal/recovery/recovery.go:172-193 | min(60 s * 2^n, 30 min) in 64-bit nanoseconds without overflow, negative attempts as zero |
| `Recovery.BackoffGrows` | internal/recovery/recovery.go:171-193 | never decreasing, between one and thirty minutes |
| `Recovery.BackoffDoubles` | internal/recovery/recovery.go:171-193 | one minute at first, doubled with each attempt up to thirty |
| `Recovery.Plan.DetermineRecoveryStrategy` | internal/recovery/recovery.go:128-169 | aborts iff the error is permanent or the budget is used; waits for exactly the rest of the backoff since the last retry; retries only when that is over |
| `Recovery.WaitingPaysOff` | internal/recovery/recovery.go:149-169 | told to wait, asking again after exactly that time gives a retry, and sooner the time that is left |
| `Recovery.PermanentRunsRecordNothing` | internal/recovery/recovery.go:141-147 | a run in which every error is permanent decides and records no retry |
| `Recovery.Plan.RecordRetryAttempt` | internal/recovery/recovery.go:198-224 | counts a retry at now unless one was recorded less than five seconds ago, which changes nothing but the message |
| `Recovery.RetriesNearBudget` | internal/provider/processor/plan/state/state_recovery.go:138-146 | with at most p decisions waiting to be recorded, retries since the last manual reset exceed the budget by less than p |
| `Recovery.RetriesAreBoundedAndSpaced` | internal/provider/processor/plan/state/state_recovery.go:46-102 | if each decision is recorded before the next is taken: retries since the last manual reset never exceed the budget and successive ones are at least the backoff of their attempt apart |
| `Recovery.BudgetHoldsIffSerial` | internal/provider/processor/plan/state/state_recovery.go:138-146 | the budget holds in every run iff decisions do not overlap or there is no budget |

## Left out

- Daylight-saving changes and time zones: local time has a fixed offset.
- Parsing of times, days, durations and JSON: the model starts from parsed values.
- `CurrentState`, `Reason` and log or result messages: texts only.
- ConfigMap size limit, API errors on load and save, and `Version`: a save takes effect.
- Admission.Admit: connector references, target types and executor parameters, which the webhook checks too, are not modelled.
- A failing flush: the runner logs it and goes on (cmd/runner/app/runner.go:228-238); the round trips take the flush as done.
- Node groups and NodePools that change between the description and the update of one visit, or by other hands between runs; waiting for completion.
- Karpenter metadata other than labels, which the executor itself does not save.
- The workload scaler and RDS executors: the former marks a workload as scaled by field presence, so a rerun overwrites its count.
- Whether an announced next event is missed under a buffer with several windows, or with a lead time: the verdict and the announced times are covered there, the no-miss results are stated without.
- `Pool.Remove` and `Drain`, which discard values on purpose; the balance of the spawn and remove callbacks; liveness of the Go scheduler.
- `PlanStaged`, `PlanSequential`, `PlanParallel`, the planner's `ValidateDAG` wrapper, `validateStaged` and webhook warnings: easy members.
- Planner.PlanDAG: stage widths are unbounded integers, while the source narrows them to 32 bits.
- `ClassifyError`: the classification is an input.
