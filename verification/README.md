# Verification of the Hamix agent runtime

This project models, in Dafny 4.11, the parts of the Hamix repository in which state, interleavings or
parsing make correctness hard to see, and proves what those parts are for. `dafny verify dfyconfig.toml`
checks everything.

## What is modelled

- **Deferred pickup** (`PickupWake.dfy`, `PickupWakeRuns.dfy`). The scheduler is a class with the source's
  fields: an indexed binary min-heap ordered by (deadline, task id), the map from task id to heap item, one
  timer and the stopped flag. `container/heap` is written out. Every method refines an update of a plain map
  from id to deadline. Around it stands a step system of callers, timer expiries and any number of firings
  that give the lock up between a pop and its notification.
- **The execute/verify cycle** (`PhaseRules.dfy`, `CycleStore.dfy`, `Orchestration.dfy`, `CycleLoop.dfy`,
  `Sweep.dfy`). The store is a value with the guards of its transactions. The harness is a class whose
  methods follow the Go methods one by one; every store call may fail, lose its reply, panic or end the
  process, before or after it takes effect, as a script says. What is stated for every script holds of every
  run. Restarts and the startup sweep are included.
- **Queue, reconcile, pool, supervisor** (`MemoryQueue.dfy`, `Reconcile.dfy`, `WorkerPool.dfy`,
  `Supervisor.dfy`). Each has its operations in imperative form and, where goroutines race, a step system
  over the same sections.
- **Mentions, prompts and previews** (`GoText.dfy`, `Mentions.dfy`, `MentionRoundTrips.dfy`, `LineCounts.dfy`,
  `PromptCheck.dfy`, `FilePreviews.dfy`). Text is a sequence of bytes; Go's `TrimSpace`, `IndexByte`, `Itoa` and `Atoi` are
  modelled with their 64-bit range and their white space outside ASCII.
- **UTF-8 clipping** (`Utf8.dfy`), against the syntax of section 4 of RFC 3629.
- **Trace coverage and skip directives** (`Satisfy.dfy`, `Directives.dfy`, `DirectiveInserts.dfy`,
  `Injection.dfy`, `InjectedComments.dfy`), with Go's quoting of text (`GoQuote.dfy`).
- **Latency quantiles** (`Histogram.dfy`), over real numbers.

`Wrappers.dfy` and `TextOrder.dfy` hold small shared definitions.

## What the proofs found

Each point below is proved, with the exact condition where there is one.

- The heap, the map and the timer never get out of step, no wake is lost in any interleaving, nothing is
  handed over early, and every accepted deadline is withdrawn, handed over or dropped exactly once.
- From the entry of the loop on, a cycle is terminated at most once and recorded at most once, whatever
  fails; when nothing fails the run ends with no running phase, a terminal cycle and the matching task.
- After a failed verify round the loop's next start is legal exactly if no row was left running and execute is
  skipped or the last row is a verify, whatever has failed (`CycleLoop.Harness.RunIteration`). So a lost start of
  a verify phase followed by a full re-execute makes the loop ask for an illegal start, and
  `CycleLoop.LostVerifyStart` is a run that does. With no failing write it only asks for legal starts.
- `Resume` without a readable checkpoint fails the task and leaves the cycle open (`CycleLoop.Harness.Resume`).
- A page size above 500 makes reconcile stop after the first 500 candidates, because the query clamps its
  limit and the short page is taken for the last one (`Reconcile.PageSizeLimit`).
- The worker acknowledges an id again after `Receive` has deleted it. That does no harm exactly if the id is not
  pending at that moment, and otherwise lets it be buffered twice (`MemoryQueue.SafeExactlyIfHarmless`,
  `MemoryQueue.HarmfulAckAllowsDuplicates`); consumers that follow the comment on `Recv` are always safe.
- A mention with a range survives printing and parsing, whatever its path, exactly if its start line is not
  negative, and the parser never yields a negative one. A mention without a range survives exactly if no '(' of its
  path opens a range where it is printed, that is, if the first ')' behind it does not close two line numbers in
  front of a delimiter (`MentionRoundTrips.RoundTripExactly`); alone, exactly if its path does not end in a range
  (`MentionRoundTrips.LabelAlone`). The parser yields such paths when a white-space character outside ASCII that it
  trims off stood behind the parenthesis (`MentionRoundTrips.ParenPathMayChange`).
- The sweeps of the trace analysis end exactly if functions that share a key come to one verdict, provided that
  functions which share a key that is called are alike (`Satisfy.SettlesExactly`). Two `init` functions of which
  only one delegates to a logging function make them go on for ever. Keys that are both shared and called do occur:
  a generic receiver is dropped from the key, so that `func (g *G[T]) Close()` shares the key of a plain `Close`. For
  those the order of the functions can decide (`Satisfy.OrderDecidesElsewhere`).
- `TruncateUTF8ByBytes` with a limit of one or two bytes cuts its own ellipsis (`Utf8.TruncationValidity`).
- `trimTrailingPartialRune` promises to leave text that is invalid in its interior alone; the code looks only
  at the last four bytes and may trim such text too (`Utf8.InvalidTextIsTrimmedToo`). The model follows the code.
- A reason that cannot be printed without escapes is not read back from the directive it was printed into
  (`Directives.DirectiveRoundTrip`), and a directive that is injected behind an invalid one is not seen
  (`Injection.InjectedIsValid`). In the written file every function finds its own directive in the comment directly
  above it, and no other function's (`InjectedComments.CommentInFile`).

## Model

| member | source | states |
|---|---|---|
| `PickupWake.RootIsEarliest` | pkgs/agents/pickup_wake.go:39-45 | in an ordered heap no item comes before the root in (deadline, id) order |
| `PickupWake.LiftKeepsOrder` | pkgs/agents/pickup_wake.go:47-51 | one step of moving an item up leaves a heap that is in order but for the edge above the item |
| `PickupWake.SinkKeepsOrder` | pkgs/agents/pickup_wake.go:47-51 | one step of moving an item down leaves a heap that is in order but around the item |
| `PickupWake.PickupWakeScheduler.Swap` | pkgs/agents/pickup_wake.go:47-51 | exchanges two slots, keeps the items and keeps every item's index equal to its slot |
| `PickupWake.PickupWakeScheduler.Up` | pkgs/agents/pickup_wake.go:35-68 | restores the order of the whole heap from one doubtful edge, with the same items |
| `PickupWake.PickupWakeScheduler.Down` | pkgs/agents/pickup_wake.go:35-68 | restores the order below a slot and says whether the item moved |
| `PickupWake.PickupWakeScheduler.RemoveAt` | pkgs/agents/pickup_wake.go:107-113 | removes the item at any slot, interior ones included, and leaves an ordered, indexed heap of the others |
| `PickupWake.PickupWakeScheduler.PopMin` | pkgs/agents/pickup_wake.go:189-194 | removes the root and leaves an ordered, indexed heap of the others |
| `PickupWake.PickupWakeScheduler.IndexFindsItem` | pkgs/agents/pickup_wake.go:103-142 | the item found through the map stands at the heap slot its index names |
| `PickupWake.PickupWakeScheduler.ResetTimer` | pkgs/agents/pickup_wake.go:163-177 | the timer is off without deadlines and otherwise armed for the earliest one, or for now when that has passed |
| `PickupWake.PickupWakeScheduler.Schedule` | pkgs/agents/pickup_wake.go:103-121 | inserts or replaces exactly this id's deadline and arms the timer; an empty id or a stopped scheduler changes nothing |
| `PickupWake.PickupWakeScheduler.Cancel` | pkgs/agents/pickup_wake.go:126-142 | removes exactly this id's deadline, wherever its item stands, and arms the timer |
| `PickupWake.PickupWakeScheduler.Stop` | pkgs/agents/pickup_wake.go:147-160 | drops everything and turns the timer off for good |
| `PickupWake.PickupWakeScheduler.FireSection` | pkgs/agents/pickup_wake.go:180-206 | one stretch under the lock: takes out the first deadline if it is due, and otherwise nothing is due and the timer is armed |
| `PickupWake.PickupWakeScheduler.Fire` | pkgs/agents/pickup_wake.go:180-206 | without interference, exactly the due ids are handed over, in (deadline, id) order and not early; the later ones stay and the timer is armed for them |
| `PickupWakeRuns.StepKeepsWake` | pkgs/agents/pickup_wake.go:103-206 | no step loses a wake: unless stopped or empty, a timer is armed in time or a firing is under way |
| `PickupWakeRuns.StepKeepsAccounts` | pkgs/agents/pickup_wake.go:103-206 | every accepted deadline stays accounted for once: scheduled, withdrawn, handed over or dropped by Stop |
| `PickupWakeRuns.StepKeepsDue` | pkgs/agents/pickup_wake.go:180-222 | each pop was due and first among all that was scheduled, and only ready rows whose own pickup time has come are queued |
| `PickupWakeRuns.RunKeepsInv` | pkgs/agents/pickup_wake.go:103-222 | the three hold in every world of every interleaving of callers, timer and firings |
| `PickupWakeRuns.OwnStep` | pkgs/agents/pickup_wake.go:163-206 | while something is due, the timer or a firing can take a step that brings its hand-over nearer |
| `PickupWakeRuns.DueIsHandedOver` | pkgs/agents/pickup_wake.go:163-206 | from every reachable world in which a given deadline has passed, the scheduler's own steps alone lead to its pop |
| `PickupWakeRuns.AllDueIsHandedOver` | pkgs/agents/pickup_wake.go:163-206 | from every reachable world the scheduler's own steps alone lead to one from which exactly the deadlines that have passed are gone |
| `CycleStore.StartKeepsOk` | pkgs/tasks/store/internal/cycles/phases.go:39-121 | an accepted StartPhase keeps the phase log legal and changes no earlier row |
| `CycleStore.CompleteKeepsOk` | pkgs/tasks/store/internal/cycles/phases.go:134-213 | an accepted CompletePhase closes the running last row, so that no row is running, and keeps the log legal |
| `CycleStore.AttemptKeepsOk` | pkgs/tasks/store/internal/cycles/cycles.go:116-191 | so does every accepted request, Terminate included |
| `CycleStore.ReplayKeepsOk` | pkgs/tasks/domain/cycle_state.go:27-110 | after any sequence of requests only the last row may run, row 1 is an execute, execute follows execute only after a process restart, verify follows verify only after a failed one, terminal rows and cycles never change, and there is at most one termination |
| `CycleStore.FinalizedKeepsOk` | pkgs/agents/worker/sweep.go:44-83 | closing the interrupted row keeps the log legal and leaves no row running |
| `CycleStore.CrashThenFinalizeReopens` | pkgs/tasks/domain/cycle_state.go:50-80 | wherever the process died, after finalize the interrupted phase kind may be opened again, and so may the phase the checkpoint begins with; a checkpoint exists exactly for a running, interrupted or succeeded-execute last row |
| `CycleStore.RetryRequestLegal` | pkgs/agents/harness/cycle_loop.go:249-279 | for every fate of the two writes of a failed verify round, the next start is legal exactly if no row was left running and execute is skipped or the last row is a verify; behind a succeeded execute: both writes took effect, or neither did and execute is skipped |
| `CycleStore.FailedRoundLegality` | pkgs/agents/harness/cycle_loop.go:249-279 | the same for whatever a failed round has left in the store |
| `Orchestration.DecideExecutePostRun` | pkgs/agents/harness/internal/orchestration/execute.go:14-135 | exactly one of continue, terminate and stop holds; terminating fails the task; continuing takes an undisturbed run with admitted commits |
| `Orchestration.DecideVerifyRetryWithValidity` | pkgs/agents/harness/internal/orchestration/machine.go:8-34 | a further round only while attempts are left and for a retryable failure; every other failure is terminal; execute is skipped only into a further round |
| `Orchestration.DecideFinalizeSuccess` | pkgs/agents/harness/internal/orchestration/loop.go:18-30 | a succeeded cycle is paired with a done task and a failed one with a failed task |
| `CycleLoop.ExecuteDecision` | pkgs/agents/harness/cycle_loop.go:79-165 | stop exactly for a cancelled context; go on exactly for an undisturbed run whose error is none or staleness and whose commits were admitted; otherwise fail |
| `CycleLoop.LockKeepsFirst` | pkgs/agents/harness/cycle_loop.go:57-75 | the locked verdicts only grow, a new one is the first passing verdict on its criterion, and every passing verdict is locked |
| `CycleLoop.Harness.constructor` | pkgs/agents/harness/cycle.go:122-158 | a run begins on a running cycle without a running phase on record |
| `CycleLoop.Harness.Call` | pkgs/agents/harness/recovery.go:33-214 | a store call takes effect as a whole or not at all whatever befalls it, keeps the store sound, and reports success only when it took effect |
| `CycleLoop.Harness.TerminateCycle` | pkgs/agents/harness/cycle.go:370-401 | RecordRun fires only for a successful termination and with its status; nothing else of the cycle changes |
| `CycleLoop.Harness.CloseRunningPhase` | pkgs/agents/harness/recovery.go:33-77 | the recorded running phase is closed as failed and cleared, and without faults no row is left running |
| `CycleLoop.Harness.CloseOut` | pkgs/agents/harness/recovery.go:33-214 | shutdown, panic and best-effort closeout: without faults the phase is closed, the cycle terminal with the given status and the task failed; with faults the store stays sound |
| `CycleLoop.Harness.OpenPhase` | pkgs/agents/harness/cycle.go:163-179 | a started phase is the recorded running one and the last row; a failed start leaves none on record |
| `CycleLoop.Harness.ClosePhase` | pkgs/agents/harness/cycle.go:315-364 | the recorded phase is closed with the given status and summary and cleared, also when the write fails |
| `CycleLoop.Harness.TerminateAndTransition` | pkgs/agents/harness/cycle_effects.go:123-150 | the task is set only after the cycle was terminated; without faults both are as decided |
| `CycleLoop.Harness.ApplyExecuteEffects` | pkgs/agents/harness/cycle_effects.go:16-71 | going on leaves the cycle as it is; without faults failing closes it out as failed and stopping as aborted |
| `CycleLoop.Harness.RunCycleLoopExecute` | pkgs/agents/harness/cycle_loop.go:79-165 | goes on to verify only at a phase gap of a running cycle, with the outcome of the run on record; without faults it ends as its report says: going on, closed out as failed or aborted, or panicking with its phase on record |
| `CycleLoop.Harness.RunStartedExecute` | pkgs/agents/harness/cycle_loop.go:79-165 | the part behind the start of the phase: how it ends when no call fails, and that a good run whose completion works goes on |
| `CycleLoop.Harness.RunPipeline` | pkgs/agents/harness/internal/verify/pipeline.go:21-104 | passes only when every criterion has a passing verdict; over all faults a failed round leaves the store as one of its two writes, both or neither would; without faults its verdicts and its error are those of the round, tampering before failing, and the phase it opened is closed with the matching status |
| `CycleLoop.Harness.RecordPassedVerdicts` | pkgs/agents/harness/cycle_loop.go:57-66 | the locked verdicts become those of the specification and only grow |
| `CycleLoop.Harness.VerifyRound` | pkgs/agents/harness/verification.go:67-95 | one round of verification, with its verdicts locked |
| `CycleLoop.Harness.ApplyVerifyEffects` | pkgs/agents/harness/cycle_effects.go:73-106 | counts the attempt exactly for a further round, and closes out exactly for a terminal failure |
| `CycleLoop.Harness.HandleFailedVerify` | pkgs/agents/harness/cycle_loop.go:171-228 | a failed round is followed by another exactly if it was not tampered with and attempts are left; execute is skipped exactly if the run before is still valid and no agent judged a criterion as failed |
| `CycleLoop.Harness.RunCycleLoopVerify` | pkgs/agents/harness/cycle_loop.go:171-228 | at most one round, at most one attempt counted; it comes through only if the verify succeeded and locked every criterion, or verification is off; over all faults, when it goes round again the next start is legal exactly if no row was left running and execute is skipped or the last row is a verify; without faults it comes through, goes round again or ends exactly as the round and the attempts left decide |
| `CycleLoop.Harness.ApplyVerifiedCompletions` | pkgs/agents/harness/internal/verify/gate.go:58-71 | what is written is some of the locked verdicts, unchanged; on success all of them whose item exists |
| `CycleLoop.Harness.RunCycleLoopFinalizeSuccess` | pkgs/agents/harness/cycle_loop.go:230-246 | a succeeded cycle has all locked verdicts written; without faults it is closed as succeeded |
| `CycleLoop.Harness.RunIteration` | pkgs/agents/harness/cycle_loop.go:249-279 | one turn of the loop: a further turn costs one attempt, and over all faults its start is legal exactly under the condition on the rows; a refused start is counted as rejected; without faults both phases may be started next |
| `CycleLoop.Harness.RunCycleLoop` | pkgs/agents/harness/cycle_loop.go:249-279 | terminates with at most max retries minus start attempt plus one verifies; completions are written only after a successful verify; without faults every start is legal and the run ends closed out; a lost start of the verify behind a good execute that must run again ends in exactly one refused request and a failed cycle |
| `CycleLoop.Harness.Run` | pkgs/agents/harness/recovery.go:102-151 | the same with the deferred recovery: over all faults the store stays sound, with at most one termination and one RecordRun; without faults, panics of the runner included, the cycle is closed out, as succeeded exactly if the last verify passed |
| `CycleLoop.LostVerifyStart` | pkgs/agents/harness/cycle_loop.go:249-279 | a run with a refused start: the verify start fails, the head has moved, everything else works, and the cycle fails with one rejected request |
| `CycleLoop.Harness.Resume` | pkgs/agents/harness/resume.go:14-60 | without faults the cycle is closed out exactly when its checkpoint can be read and exists; otherwise only the task is failed |
| `CycleLoop.Restart` | pkgs/agents/harness/internal/resume/checkpoint.go:20-79 | after a death anywhere, finalize and resume close the cycle out exactly when the checkpoint can be read and the last row was running, interrupted or a succeeded execute |
| `Sweep.ClosingFinalizes` | pkgs/agents/worker/sweep.go:60-70 | closing the listed row as interrupted is accepted and gives the finalized cycle |
| `Sweep.FinalizeInterruptedPhases` | pkgs/agents/worker/sweep.go:44-83 | finalizes listed cycles and no others, and counts exactly the changed ones; without failures all of them |
| `Sweep.SweptLeavesNoneRunning` | pkgs/agents/worker/sweep.go:40-43 | a complete sweep leaves no row running, so a second one has nothing to do |
| `MemoryQueue.Queue.TryEnqueue` | pkgs/agents/memory_queue.go:97-117 | appends exactly when the id is set, not queued and there is room, and names the first obstacle otherwise |
| `MemoryQueue.Queue.NotifyReadyTask` | pkgs/agents/memory_queue.go:122-128 | the same behind the context check |
| `MemoryQueue.Queue.Receive` | pkgs/agents/memory_queue.go:80-94 | takes the oldest task and forgets its id, or reports the finished context, or waits; when task and context are both ready either may be taken |
| `MemoryQueue.StepKeepsAnyConsumer` | pkgs/agents/memory_queue.go:69-117 | for any consumers, at every fine-grained step: buffer within bounds, first in first out, and nothing pending that is neither buffered nor in flight |
| `MemoryQueue.StepKeepsDocumented` | pkgs/agents/memory_queue.go:57-66 | unless an id that is still pending is acknowledged by one who does not hold it, no id is live twice and exactly the live ids are pending, but for one sent and not yet entered |
| `MemoryQueue.StrayAckExactly` | pkgs/agents/memory_queue.go:69-77 | an acknowledgement by one who does not hold the id keeps that exactly if the id is not pending at that moment |
| `MemoryQueue.SafeExactlyIfHarmless` | pkgs/agents/worker/worker.go:60-80 | over a run it holds in every world exactly if no such acknowledgement ever names an id that is pending at that moment |
| `MemoryQueue.RunKeepsInv` | pkgs/agents/memory_queue.go:69-117 | bounds, order and pending within live in every world of every run; exactness in every world reached without such an acknowledgement |
| `MemoryQueue.FreeLockIsExact` | pkgs/agents/memory_queue.go:57-117 | in runs without such an acknowledgement, whenever the lock is free, pending is the disjoint union of buffered and in-flight ids, without duplicates |
| `MemoryQueue.HarmfulAckAllowsDuplicates` | pkgs/agents/worker/admission.go:87 | wherever a run has come to, such an acknowledgement of a buffered id, while there is room, lets that id be buffered twice |
| `MemoryQueue.StrayAckAllowsDuplicates` | pkgs/agents/worker/admission.go:87 | a run in which a second acknowledgement after Receive leads to the same id buffered twice |
| `Reconcile.FollowingIsSuffix` | pkgs/tasks/store/internal/ready/ready.go:46-107 | the candidates after a cursor are what follows the cursor's row in the list, for either cursor order |
| `Reconcile.PageIsSlice` | pkgs/tasks/store/internal/ready/ready.go:46-107 | a page is the next slice of what the loop can see; a short one is the last |
| `Reconcile.OfferOne` | pkgs/agents/reconcile.go:56-70 | offering one more candidate appends it exactly if its id is not queued |
| `Reconcile.OfferedIsPass` | pkgs/agents/reconcile.go:35-82 | offering candidates until one meets a full queue is the simple pass |
| `Reconcile.ReconcileReadyTasksNotQueued` | pkgs/agents/reconcile.go:35-82 | the paged loop terminates and leaves old buffer plus the first new candidates that fit; scanned is enqueued plus skipped plus one if stopped; if not stopped every candidate is queued; an error leaves a prefix of that |
| `Reconcile.PageSizeLimit` | pkgs/tasks/store/internal/ready/ready.go:49-54 | the loop does what one pass over all candidates does exactly when the page size is at most 500 or nothing beyond the first 500 would have gone in |
| `Reconcile.PageOf501Misses` | pkgs/agents/reconcile.go:71-73 | 501 new candidates, room for all and a page size of 501: one is missed |
| `WorkerPool.WorktreeGate.TryLock` | pkgs/agents/worker/worktree_gate.go:31-39 | takes the worktree's lock exactly when it is free, and no other |
| `WorkerPool.NewPool` | pkgs/agents/worker/pool.go:27-40 | 1 to 32 distinct slots that share one new gate |
| `WorkerPool.Admit` | pkgs/agents/worker/admission.go:84-160 | only a running task with an open cycle waits at the gate; a ready task takes a free lock, is put off by 5 seconds when it is held, and by 60 when it is not ready or has no binding |
| `WorkerPool.ProcessOneAdmission` | pkgs/agents/worker/admission.go:84-160 | the branches of processOne up to the gate decide as specified, and do to the gate object what the step does to the pool's locks |
| `WorkerPool.ProcessOneRelease` | pkgs/agents/worker/admission.go:108-109 | the deferred unlock frees exactly the lock of the slot |
| `WorkerPool.StepKeepsInv` | pkgs/agents/worker/admission.go:84-178 | the locks are held by exactly the slots past the gate, also after panics |
| `WorkerPool.RunKeepsInv` | pkgs/agents/worker/pool.go:43-70 | so in every world of every run of any number of slots |
| `WorkerPool.PoolIsSafe` | pkgs/agents/worker/worktree_gate.go:16-39 | at most one slot is past the gate for a worktree, every other slot holds no lock, and a waiting slot can go on or waits for one that can |
| `WorkerPool.StepsDrain` | pkgs/agents/worker/admission.go:84-160 | whatever a slot does with its task brings it nearer to being done |
| `WorkerPool.SomeSlotMoves` | pkgs/agents/worker/admission.go:84-160 | while any slot has a task, some slot with a task can take a step, whatever it reads |
| `WorkerPool.CanDrain` | pkgs/agents/worker/pool.go:43-70 | from every reachable world, whatever each slot reads at each admission, the slots can finish what they have: no deadlock |
| `Supervisor.Supervisor.ApplySettings` | internal/taskapi/agentworker/apply.go:35-185 | undisturbed, it ends with exactly the current instance running, which is a new one, the old one or none as the settings ask |
| `Supervisor.Supervisor.Drain` | internal/taskapi/agentworker/supervisor.go:118-130 | nothing runs afterwards and nothing is current |
| `Supervisor.StepKeepsInv` | internal/taskapi/agentworker/apply.go:105-185 | at every interleaved step of applies and drains, what runs is current or about to be cancelled by someone |
| `Supervisor.RunKeepsInv` | internal/taskapi/agentworker/apply.go:35-185 | so in every world of every run |
| `Supervisor.NoWorkerLeaks` | internal/taskapi/agentworker/supervisor.go:118-130 | never more than two instances; with nothing under way exactly the current one runs; none after a drain and the end of any apply |
| `GoText.AtoiOfItoa` | pkgs/repo/mentions_paren.go:15-16 | a printed number reads back exactly if it fits 64 bits |
| `Mentions.HandleMentionOpenParen` | pkgs/repo/mentions_paren.go:27-61 | a recognised range ends behind its parenthesis, within the text |
| `Mentions.ScanToken` | pkgs/repo/mentions.go:31-53 | the scan of a token stays within the text and moves forward |
| `Mentions.ParseFileMentions` | pkgs/repo/mentions.go:19-63 | the nested loops terminate on every input with the mentions of the recursive grammar |
| `Mentions.SpansAreOk` | pkgs/repo/mentions.go:10-17 | spans start at an '@', are in bounds, in order and disjoint, and no path is empty |
| `Mentions.InnerReadsBack` | pkgs/repo/mentions_paren.go:9-21 | the printed line range is read back unless its start is negative, in which case it is no range |
| `Mentions.TokenReadsBack` | pkgs/repo/root.go:243-249 | one printed mention is read back whole, wherever it stands |
| `Mentions.PrintedMentionsReadBack` | pkgs/repo/mentions.go:19-63 | mentions printed into any text with delimiters behind them are read back in order, each with its own span |
| `MentionRoundTrips.ParsedAreParsed` | pkgs/repo/mentions_paren.go:9-21 | every parsed mention has a trimmed path without delimiters, lines of 64 bits and no negative start line |
| `MentionRoundTrips.ScanOpens` | pkgs/repo/mentions.go:31-53 | without delimiters on its way the scan of a token goes on exactly if no '(' opens a range, and otherwise ends in a range or a restart |
| `MentionRoundTrips.InsidePath` | pkgs/repo/mentions_paren.go:36-46 | in front of a printed range no '(' of the path opens one |
| `MentionRoundTrips.TokenExactly` | pkgs/repo/root.go:243-249 | a printed mention with a range is read as itself whatever its path, unless its start line is negative; one without is read whole exactly if no '(' of its path opens a range |
| `MentionRoundTrips.RoundTripExactly` | pkgs/repo/root.go:243-249 | mentions printed into any text are parsed back as the same list exactly if no range starts at a negative line and no '(' in the path of a mention without a range opens one |
| `MentionRoundTrips.LabelAlone` | pkgs/repo/root.go:243-249 | a mention printed alone comes back exactly if its start line is not negative or, without a range, its path does not end in "(a-b)" |
| `MentionRoundTrips.PlainPathsRoundTrip` | pkgs/repo/root.go:243-249 | when no mention without a range has a '(' in its path, the list comes back exactly when no range starts at a negative line |
| `MentionRoundTrips.ParsedPrintsBack` | pkgs/repo/mentions.go:19-63 | parsing, printing into any text and parsing again changes nothing exactly if no '(' in the path of a mention without a range opens one where it is printed, and so never when there is none |
| `MentionRoundTrips.ParenPathMayChange` | pkgs/repo/mentions_paren.go:43-46 | a text from which a path that ends in a range is parsed, so that its printed form is parsed as that range |
| `LineCounts.CountsLines` | pkgs/repo/read_preview.go:81-88 | the count of newlines plus an unended last line is the number of lines the text splits into |
| `LineCounts.LineCount` | pkgs/repo/root_linecount.go:14-63 | for every way of reading in chunks the result is that of counting the whole content, with the same errors |
| `PromptCheck.ValidatePromptMentions` | pkgs/repo/root.go:160-207 | the check with three caches reports what checking each mention on its own reports first |
| `PromptCheck.CheckedRefers` | pkgs/repo/root_linecount.go:78-98 | a mention passes exactly if it names a regular file and its range lies within the lines of a readable one |
| `PromptCheck.FirstProblemIsFirst` | pkgs/repo/root.go:160-207 | a prompt passes exactly if every mention does; otherwise the first one that does not is named |
| `FilePreviews.ReadCappedUTF8Content` | pkgs/repo/read_preview_io.go:20-38 | the whole content, or its front mended at the seam |
| `FilePreviews.ReadFilePreview` | pkgs/repo/read_preview.go:27-67 | binary when a NUL stands early or what was read is no valid text, and otherwise what was read with its line count; a read error is returned exactly if it stands within what is read |
| `FilePreviews.TextIsShown` | pkgs/repo/read_preview_io.go:28-36 | valid text without an early NUL is never taken for binary: its longest valid front within 32 MiB is shown |
| `Utf8.CutsAtStarts` | pkgs/repo/read_preview_io.go:39-47 | valid text can be cut exactly where no continuation byte follows, on both sides |
| `Utf8.TrimTrailingPartialRune` | pkgs/repo/read_preview_io.go:48-89 | drops the tail from the first byte of an unfinished character on, if there is one, and nothing else |
| `Utf8.TrimMendsTheSeam` | pkgs/repo/read_preview_io.go:39-89 | on any prefix of valid text the trim leaves the longest valid prefix and drops at most three bytes |
| `Utf8.InvalidTextIsTrimmedToo` | pkgs/repo/read_preview_io.go:39-47 | an invalid text that the trim does not leave unchanged |
| `Utf8.ClipRawOutput` | pkgs/agents/runner/runner.go:218-228 | on valid text the longest valid suffix within the cap, at most three bytes short of it; always a suffix within the cap |
| `Utf8.NextBoundary` | pkgs/tasks/apijson/truncate.go:28-34 | decoding goes from one rune boundary to the next without passing one |
| `Utf8.BoundaryOfValid` | pkgs/tasks/apijson/truncate.go:28-34 | in valid text decoding stops at exactly the places where it can be cut |
| `Utf8.TruncateUTF8ByBytes` | pkgs/tasks/apijson/truncate.go:16-41 | within the limit; unchanged when it fits; otherwise the longest whole-rune prefix that fits in front of the ellipsis |
| `Utf8.TruncationValidity` | pkgs/tasks/apijson/truncate.go:25-27 | truncated valid text is valid except for a limit of one or two bytes |
| `Utf8.SummaryIsClipped` | pkgs/agents/runner/runner.go:206-213 | a clipped summary has exactly 512 runes and is valid; valid text keeps its front; clipping again changes nothing |
| `Satisfy.DistinctNamesSuffice` | cmd/funclogmeasure/satisfy.go:63-70 | distinct names are enough for the loop to end |
| `Satisfy.StableCoversReaching` | cmd/funclogmeasure/satisfy_delegate.go:56-85 | stable layers cover every function whose chain of thin calls reaches a log call |
| `Satisfy.VerdictsAreLeast` | cmd/funclogmeasure/satisfy.go:61-75 | the verdicts are covered in every stable assignment: they are the least fixpoint |
| `Satisfy.OrderDoesNotMatter` | cmd/funclogmeasure/satisfy.go:50-59 | the verdicts do not depend on the order of the functions |
| `Satisfy.DelegateCyclesStayUnsatisfied` | cmd/funclogmeasure/satisfy_delegate.go:56-85 | functions that only call each other stay unsatisfied |
| `Satisfy.VisitKeepsSound` | cmd/funclogmeasure/satisfy.go:63-72 | when functions that share a called key are alike, no visit covers a function that does not reach a log call |
| `Satisfy.VisitMakesProgress` | cmd/funclogmeasure/satisfy.go:67-69 | a visit that changes a called key brings the called keys nearer to their end, and no other visit touches them |
| `Satisfy.SweepMakesProgress` | cmd/funclogmeasure/satisfy.go:61-75 | a sweep never sets the called keys back; one that leaves them alone gives every key the layer of one of its functions |
| `Satisfy.SweepEndsFinal` | cmd/funclogmeasure/satisfy.go:61-75 | such a sweep ends with every verdict when functions that share a key have one |
| `Satisfy.AnalyzePackageSatisfaction` | cmd/funclogmeasure/satisfy.go:42-77 | the in-place sweeps terminate with every function's verdict, in the result and in the cache, and touch no other package |
| `Satisfy.AgreeingSettles` | cmd/funclogmeasure/satisfy.go:61-75 | when functions that share a called key are alike and those that share any key have one verdict, the sweeps come to one without changes |
| `Satisfy.DisagreementNeverQuiet` | cmd/funclogmeasure/satisfy.go:63-70 | with two verdicts under one key every sweep from sound layers reports a change |
| `Satisfy.ClashNeverSettles` | cmd/funclogmeasure/satisfy.go:63-70 | two functions under one key with irreconcilable static layers make every sweep report a change, from any layers and whatever the other keys are |
| `Satisfy.SettlesExactly` | cmd/funclogmeasure/satisfy.go:61-75 | when functions that share a called key are alike, which covers every package in which only keys like that of init are shared, the loop ends exactly if functions that share a key have one verdict |
| `Satisfy.OrderDecidesElsewhere` | cmd/funclogmeasure/satisfy.go:50-75 | otherwise no condition on the functions alone can decide: the same four functions end in one order and go on for ever in another |
| `Histogram.MergeHistograms` | internal/systemhealth/snapshot.go:269-292 | one bucket for every bound of any series, in order, each with the counts of all series |
| `Histogram.MergedIsPooled` | internal/systemhealth/snapshot.go:241-256 | for series with one layout, merging gives the histogram of all observations together |
| `Histogram.PercentileFromBuckets` | internal/systemhealth/snapshot.go:301-321 | the loop computes the interpolation over the buckets |
| `Histogram.PercentileIsMonotone` | internal/systemhealth/snapshot.go:301-321 | a larger quantile is never a smaller duration |
| `Histogram.CountReachesRank` | internal/systemhealth/snapshot.go:305-310 | a bucket has counted the k-th observation exactly if the k-th smallest is within its bound |
| `Histogram.PercentileInTrueBucket` | internal/systemhealth/snapshot.go:301-321 | the estimate lies in the bucket that counted the ceil(n q)-th smallest observation, when that is within the last bound |
| `Directives.ParseDirectiveKV` | cmd/funclogmeasure/skip_directive.go:64-99 | the consuming loop terminates with the fields of the recursive reading |
| `Directives.FieldsOfPrinted` | cmd/funclogmeasure/inject_directives.go:69-70 | the printed fields are read as the category and the quoted text up to its first quote |
| `Directives.LaterValues` | cmd/funclogmeasure/skip_directive.go:64-99 | a value read later has fewer '=' than the text it is read from |
| `GoQuote.EscapedSize` | cmd/funclogmeasure/inject_directives.go:69-70 | for every text and every table of printable characters, quoting leaves a plain text alone, makes every other one longer, and adds no '=' and no quote |
| `Directives.ReasonRead` | cmd/funclogmeasure/skip_directive.go:44-62 | the reason comes back exactly if it was printed without escapes |
| `Directives.DirectiveRoundTrip` | cmd/funclogmeasure/skip_directive.go:30-62 | a printed directive is read back with its category and reason exactly if the reason is printed without escapes, that is, is valid text of printable characters without quote and backslash, and has at least 20 bytes within its white space |
| `DirectiveInserts.JoinOfSplit` | cmd/funclogmeasure/inject_directives.go:79-88 | joining the lines of a text gives the text back |
| `DirectiveInserts.SplitOfJoin` | cmd/funclogmeasure/inject_directives.go:79-88 | splitting joined lines gives the lines back |
| `DirectiveInserts.InsertExtendsWeave` | cmd/funclogmeasure/inject_directives.go:81-87 | inserting in place at or above all that was inserted is one more simultaneous insertion |
| `DirectiveInserts.InsertBottomUp` | cmd/funclogmeasure/inject_directives.go:81-87 | the bottom-up loop is the simultaneous insertion at the original line numbers, and fails exactly for one out of range |
| `DirectiveInserts.DroppingRestores` | cmd/funclogmeasure/inject_directives.go:81-87 | dropping what was inserted gives the lines back |
| `DirectiveInserts.InsertionOnlyAdds` | cmd/funclogmeasure/inject_directives.go:71-92 | every output is the file with marked additions, whose unmarked lines are the file |
| `Injection.CategoryIsValid` | cmd/funclogmeasure/inject_directives.go:104-120 | every category and reason the tool chooses is one that the parser accepts |
| `Injection.PrintsAlike` | cmd/funclogmeasure/inject_directives.go:69-70 | the chosen reason is printed alike whatever counts as printable outside ASCII |
| `Injection.FirstMarkedDecides` | cmd/funclogmeasure/skip_directive.go:30-42 | the first line that starts as a directive decides |
| `Injection.InjectedIsValid` | cmd/funclogmeasure/inject_directives.go:96-102 | a comment with the inserted lines behind it excuses the function, with the chosen category and reason, exactly if no line of the old comment already starts as a directive |
| `DirectiveInserts.LineMoves` | cmd/funclogmeasure/inject_directives.go:81-87 | every line of the file is moved down by exactly the lines that go in at its place or in front of it |
| `Injection.InjectDirectivesInFile` | cmd/funclogmeasure/inject_directives.go:36-94 | the written file is, line by line, the old one with every directive in front of the line meant and a newline at the end; nothing is written without insertions or for a line out of range |
| `InjectedComments.CommentInFile` | cmd/funclogmeasure/inject_directives.go:36-102 | in the written file the comment directly above every function's line is its old one with its own directive behind it, or just the old one when none was wanted, in whatever order the insertions were sorted |
| `InjectedComments.ExcusedInFile` | cmd/funclogmeasure/skip_directive.go:30-42 | a second look at the written file finds a function excused exactly if it was before, or it was wanted and no line of its comment starts as a directive, and then as the tool chose |

## Left out

- Store, SQL, HTTP handlers, event streams and the web client: only the rows, guards and listings that the cycle, the queue and reconcile rely on are modelled.
- Runner, git, prompts, report files, settings probes and the policy package: their outcomes are inputs, so that every statement holds for all of them.
- Logging, metrics registration, environment and query parsing: single-branch readings that would only add easy members.
- Machine integers: counters are unbounded, and instants and durations are integers; `Atoi` keeps its 64-bit range.
- Floating point: quantiles are computed over real numbers, without rounding and without NaN.
- Hydrate: the loading of deadlines from the store at startup is a sequence of Schedule calls and is not modelled on its own.
- PickupWakeRuns.Step: the store reads of tryNotify are one row handed in as an input.
- CycleLoop.Harness.Run: covers the run from the entry of the loop; paths that return before it with the cycle open, such as the preparation of a retry from an earlier cycle, are not part of this model.
- CycleLoop.Harness.Run: a panic after a successful termination still sets the task to failed, as recovery.go:142-143 does; the task is tied to the cycle only for runs in which no call fails.
- CycleLoop.Harness.RunCycleLoopVerify: only the success or failure of the legacy checklist writes is modelled, not the items.
- CycleLoop.Harness.constructor: a run is taken over with its cycle running; the writing of the cycle's row, and what happens when that fails, lies in front of the loop.
- WorkerPool.PoolIsSafe: exclusion is per pool; every pool makes its own gate, and a reload starts the new pool before it stops the old one.
- WorkerPool.Admit: what a blocked resume does with a task and cycle loaded before the lock is not modelled.
- Supervisor.Supervisor.StopWorkerInstance: the wait for the stopped worker and its deadline are left out; cancelling is the effect. Of an instance only its number and whether it was cancelled are modelled.
- Reconcile.ReconcileReadyTasksNotQueued: stated for a candidate list that does not change and no consumer meanwhile; the trimming of task ids in the cursor is left out.
- MentionRoundTrips.RoundTripExactly: stated for trimmed paths without delimiters and lines of 64 bits, which are all that the parser yields, printed with a delimiter behind them.
- Mentions.PrintedMentionsReadBack: stated for paths without '('; with one, `MentionRoundTrips.RoundTripExactly` says when the list comes back.
- PromptCheck.ValidatePromptMentions: the text of an error is a label and a reason instead of a formatted message; the file system does not change during the check.
- LineCounts.LineCount: a file delivers a fixed content and then ends or fails; the sizes of the single reads are arbitrary.
- FilePreviews.ReadFilePreview: the sniffing read and the second read see the same content.
- Satisfy.AnalyzePackageSatisfaction: requires functions that share a key to come to one verdict, without which the loop does not end, those that share a called key to be alike, and a package that the cache has not seen; the Go syntax tree is reduced to four checks and a callee.
- Satisfy.SettlesExactly: says nothing about functions that share a called key and differ; there no condition on the functions alone decides.
- GoQuote.EscapedSize: which characters outside ASCII are printable is a parameter.
- InjectedComments.CommentInFile: stated for functions on lines of their own, directly below a comment of `//` lines that each begin their line and end with a newline only. Where Go attaches no comment, as to `/* c */ func f()` or to the second function on one line, or for block comments and carriage returns, nothing is said.
- Injection.InjectDirectivesInFile: the declarations and their line numbers come from the Go parser and are inputs; writing the file is its result.
- Clipping of the details payload in runner.go: replaces a value by a fixed JSON object and would only add an easy member.
