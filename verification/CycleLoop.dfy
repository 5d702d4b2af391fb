/** The execute/verify loop of one cycle and its four closeout paths
    (pkgs/agents/harness: cycle_loop.go, cycle_effects.go, cycle.go, recovery.go, verification.go).

    The surroundings are fixed in advance by three scripts, one entry per use: `faults` says what
    becomes of each store call, `runs` what each runner invocation reports and `checks` what each
    round of verification finds. A statement about every script is one about every run. */
module CycleLoop {
  import opened Wrappers
  import opened PhaseRules
  import opened CycleStore
  import opened Orchestration

  /** A store call works, fails, fails although it took effect, or panics or dies around its effect. */
  datatype Fault = Fine | Fails | LosesReply | PanicsBefore | PanicsAfter | DiesBefore | DiesAfter

  /** How a call came back: normally, by a panic, or not at all because the process died. */
  datatype Signal = Going | Panicking | Dead

  datatype RunReport = RunReport(
    snapshotFails: bool,
    planFails: bool,
    panics: bool,
    firstError: RunError,
    fallbackError: RunError,
    operatorCancelled: bool,
    contextCancelled: bool,
    snapshotSkipped: bool,
    ingestFails: bool,
    ingestFailReason: string,
    summary: string)

  /** `judged` holds the verdict on every criterion that the round looks at. */
  datatype CheckReport = CheckReport(
    panics: bool,
    cannotCheck: bool,
    judged: map<string, Verdict>,
    tampered: bool,
    reportValid: bool,
    headMatches: bool,
    checklistFails: bool,
    summary: string)

  datatype VerifyError = NoVerifyError | VerificationFailed | Tampered

  // ----- what an execute run leads to -----

  function FinalError(run: RunReport): RunError {
    if run.firstError == ErrResumeSession then run.fallbackError else run.firstError
  }

  predicate IngestAttempted(run: RunReport) {
    (FinalError(run) == NoRunError || FinalError(run) == ErrStale) && !run.operatorCancelled && !run.snapshotSkipped
  }

  predicate IngestOk(run: RunReport) {
    run.snapshotSkipped || !IngestAttempted(run) || (!run.ingestFails && run.ingestFailReason == "")
  }

  function ExecuteDecision(run: RunReport): (e: ExecuteEffects)
    ensures e in {GO_ON, STOP, FAIL}
    ensures e == STOP <==> run.contextCancelled
    ensures e == GO_ON <==> !run.contextCancelled && !run.operatorCancelled
                            && FinalError(run) in {NoRunError, ErrStale} && IngestOk(run)
  {
    if run.contextCancelled then
      DecideExecutePostRun(ExecuteInput(OutcomeOk, false, true, false, IngestSummary(false, false, false, "")))
    else
      var attempted := IngestAttempted(run);
      DecideExecutePostRun(ExecuteInput(
        MapRunnerOutcome(FinalError(run)), run.operatorCancelled, false, FinalError(run) == ErrStale,
        IngestSummary(run.snapshotSkipped, attempted, attempted && run.ingestFails,
                      if attempted then run.ingestFailReason else "")))
  }

  // ----- what the parts of verification compute -----

  /** One verdict per criterion: the locked one, else the one of this round. */
  function RoundVerdicts(criteria: seq<string>, locked: map<string, Verdict>, judged: map<string, Verdict>)
    : (vs: seq<Verdict>)
    ensures |vs| == |criteria|
  {
    seq(|criteria|, i requires 0 <= i < |criteria| =>
      var id := criteria[i];
      if id in locked then locked[id]
      else if id in judged then judged[id].(id := id)
      else Verdict(id, false, AgentSelf, ""))
  }

  predicate AllPassed(vs: seq<Verdict>) {
    forall i :: 0 <= i < |vs| ==> vs[i].passed
  }

  /** What an undisturbed round of verification finds: its verdicts, and how it ends. */
  function VerifyOutcome(criteria: seq<string>, locked: map<string, Verdict>, check: CheckReport)
    : (seq<Verdict>, VerifyError)
  {
    var vs := if check.cannotCheck then [] else RoundVerdicts(criteria, locked, check.judged);
    (vs, if check.tampered then Tampered
         else if !check.cannotCheck && AllPassed(vs) then NoVerifyError
         else VerificationFailed)
  }

  /** Whether a failed round leaves the execute run before it good enough to verify again. */
  predicate ExecuteStillValid(reached: bool, ingestOk: bool, check: CheckReport, verdicts: seq<Verdict>) {
    && reached && ingestOk && check.reportValid && check.headMatches
    && forall i :: 0 <= i < |verdicts| && !verdicts[i].passed ==> verdicts[i].verifier !in {AgentSelf, VerifyAgent}
  }

  /** recordPassedCriterionVerdicts, as a function of the verdicts so far. */
  function Lock(locked: map<string, Verdict>, vs: seq<Verdict>): map<string, Verdict> {
    if vs == [] then locked
    else
      var v, before := vs[|vs| - 1], Lock(locked, vs[..|vs| - 1]);
      if v.passed && v.id !in before then before[v.id := v] else before
  }

  ghost predicate LockedPassed(locked: map<string, Verdict>) {
    forall id :: id in locked ==> locked[id].id == id && locked[id].passed
  }

  /** A locked verdict stays as it is; a new one is the first passing verdict on its criterion. */
  lemma {:induction false} LockKeepsFirst(locked: map<string, Verdict>, vs: seq<Verdict>)
    requires LockedPassed(locked)
    ensures var m := Lock(locked, vs);
            && LockedPassed(m)
            && (forall id :: id in locked ==> id in m && m[id] == locked[id])
            && (forall id :: id in m && id !in locked ==>
                  exists i :: 0 <= i < |vs| && vs[i] == m[id]
                    && forall j :: 0 <= j < i ==> !(vs[j].passed && vs[j].id == id))
            && (forall i :: 0 <= i < |vs| && vs[i].passed ==> vs[i].id in m)
    decreases |vs|
  {
    if vs != [] {
      var init := vs[..|vs| - 1];
      LockKeepsFirst(locked, init);
      var before, m := Lock(locked, init), Lock(locked, vs);
      forall id | id in m && id !in locked
        ensures exists i :: 0 <= i < |vs| && vs[i] == m[id]
                  && forall j :: 0 <= j < i ==> !(vs[j].passed && vs[j].id == id)
      {
        if id in before {
          var i :| 0 <= i < |init| && init[i] == before[id]
                 && forall j :: 0 <= j < i ==> !(init[j].passed && init[j].id == id);
          assert vs[i] == m[id] && forall j :: 0 <= j < i ==> vs[j] == init[j];
        } else {
          assert vs[|vs| - 1] == m[id] && forall j :: 0 <= j < |vs| - 1 ==> vs[j] == init[j];
        }
      }
      forall i | 0 <= i < |vs| && vs[i].passed ensures vs[i].id in m {
        if i < |init| { assert init[i] == vs[i]; }
      }
    }
  }

  /** The completions written are the old ones and some of the locked verdicts, unchanged. */
  ghost predicate CompletionsFrom(old_: map<string, Verdict>, new_: map<string, Verdict>,
                                  locked: map<string, Verdict>)
  {
    && (forall id :: id in old_ ==> id in new_ && (new_[id] == old_[id] || (id in locked && new_[id] == locked[id])))
    && (forall id :: id in new_ && id !in old_ ==> id in locked && new_[id] == locked[id])
  }

  /** Every locked verdict whose checklist item exists is written. */
  ghost predicate CompletionsFull(db: CycleDb, locked: map<string, Verdict>) {
    forall id :: id in locked && id in db.items ==> id in db.completions && db.completions[id] == locked[id]
  }

  // ----- what holds of the store at every moment, and after a clean closeout -----

  ghost predicate Inv(db: CycleDb) {
    && DbOk(db)
    && (db.runs == [] || db.runs == db.terminations)
    && (db.task == TaskDone ==> db.cycle == CycleSucceeded)
  }

  ghost predicate Closed(db: CycleDb) {
    && TerminalCycleStatus(db.cycle) && NoRunning(db.rows)
    && db.task == (if db.cycle == CycleSucceeded then TaskDone else TaskFailed)
    && db.runs == db.terminations
  }

  ghost predicate SameLedger(db: CycleDb, db': CycleDb) {
    db'.completions == db.completions && db'.items == db.items
  }

  class Harness {
    const faults: nat -> Fault
    const runs: nat -> RunReport
    const checks: nat -> CheckReport

    var db: CycleDb
    var calls: nat
    var executes: nat
    var verifies: nat
    ghost var rejected: nat

    // verifySnap
    const verifyEnabled: bool
    const maxRetries: int
    const criteria: seq<string>

    // processState
    var cycleStarted: bool
    var runningPhase: Phase
    var runningPhaseSeq: int
    var verifyAttempt: int
    var previouslyPassed: map<string, Verdict>
    var executeReachedVerify: bool
    var lastCommitIngestOK: bool
    ghost var lastVerifyPassed: bool

    constructor (faults: nat -> Fault, runs: nat -> RunReport, checks: nat -> CheckReport, db: CycleDb,
                 verifyEnabled: bool, maxRetries: int, criteria: seq<string>,
                 verifyAttempt: int, previouslyPassed: map<string, Verdict>)
      requires Inv(db) && db.cycle == CycleRunning && LockedPassed(previouslyPassed)
      ensures Ready() && !lastVerifyPassed && this.db == db
      ensures this.faults == faults && this.runs == runs && this.checks == checks
      ensures this.verifyEnabled == verifyEnabled && this.maxRetries == maxRetries && this.criteria == criteria
      ensures this.verifyAttempt == verifyAttempt && this.previouslyPassed == previouslyPassed && verifies == 0
                && rejected == 0
      ensures calls == 0 && executes == 0
    {
      this.faults, this.runs, this.checks, this.db := faults, runs, checks, db;
      this.verifyEnabled, this.maxRetries, this.criteria := verifyEnabled, maxRetries, criteria;
      this.verifyAttempt, this.previouslyPassed := verifyAttempt, previouslyPassed;
      calls, executes, verifies, rejected := 0, 0, 0, 0;
      cycleStarted, runningPhase, runningPhaseSeq := true, Unset, 0;
      executeReachedVerify, lastCommitIngestOK, lastVerifyPassed := false, false, false;
    }

    /** The store is sound, and what the state remembers of it is about this cycle. */
    ghost predicate Valid()
      reads this
    {
      && Inv(db) && LockedPassed(previouslyPassed)
      && (db.cycle == CycleSucceeded ==> lastVerifyPassed || !verifyEnabled)
    }

    ghost predicate Ready()
      reads this
    {
      Valid() && db.cycle == CycleRunning && db.runs == [] && cycleStarted && runningPhaseSeq == 0
    }

    /** No store call fails. */
    ghost predicate NoFaults() {
      forall k :: faults(k) == Fine
    }

    // ----- store calls -----

    method Next() returns (f: Fault)
      modifies `calls
      ensures f == faults(old(calls)) && calls == old(calls) + 1
    {
      f := faults(calls);
      calls := calls + 1;
    }

    /** One store call under its fault: what comes back, and what became of the rows. */
    method Call(op: StoreOp) returns (ok: bool, sig: Signal)
      requires Valid() && (op.OpSetTask? && op.taskStatus == TaskDone ==> db.cycle == CycleSucceeded)
      requires op.OpTerminate? && op.cycleStatus == CycleSucceeded ==> lastVerifyPassed || !verifyEnabled
      modifies `db, `calls, `rejected
      ensures Valid() && Extends(old(db), db) && db.runs == old(db.runs)
      ensures Attempt(old(db), op).Ok? ==> db == old(db) || db == Attempt(old(db), op).value
      ensures Attempt(old(db), op).Err? ==> db == old(db) && !ok
      ensures ok ==> sig == Going && Attempt(old(db), op).Ok? && db == Attempt(old(db), op).value
      ensures calls == old(calls) + 1 && rejected == old(rejected) + if Attempt(old(db), op).Ok? then 0 else 1
      ensures faults(old(calls)) == Fine ==> sig == Going && (ok <==> Attempt(old(db), op).Ok?)
      ensures faults(old(calls)) == Fails ==> sig == Going && !ok && db == old(db)
    {
      var f := Next();
      var result := Attempt(db, op);
      if result.Ok? {
        AttemptKeepsOk(db, op);
      }
      rejected := rejected + if result.Ok? then 0 else 1;
      if result.Ok? && f in {Fine, LosesReply, PanicsAfter, DiesAfter} {
        db := result.value;
      }
      ok := f == Fine && result.Ok?;
      sig := if f in {PanicsBefore, PanicsAfter} then Panicking
             else if f in {DiesBefore, DiesAfter} then Dead
             else Going;
    }

    method RecordRun(status: CycleStatus)
      requires Valid() && db.terminations == [status] && db.runs == []
      modifies `db
      ensures Valid() && db == old(db).(runs := [status])
    {
      db := db.(runs := db.runs + [status]);
    }

    // ----- closing -----

    /** The recorded running phase, if any, is the running row; without one no row is running. */
    ghost predicate Tracks()
      reads this
    {
      && Valid() && db.cycle == CycleRunning && cycleStarted
      && if runningPhaseSeq > 0 then !NoRunning(db.rows) && runningPhaseSeq == |db.rows| else NoRunning(db.rows)
    }

    method TerminateCycle(status: CycleStatus) returns (ok: bool, sig: Signal)
      requires Valid() && TerminalCycleStatus(status)
      requires status == CycleSucceeded ==> lastVerifyPassed || !verifyEnabled
      modifies `db, `calls, `rejected, `cycleStarted
      ensures Valid() && Extends(old(db), db) && SameLedger(old(db), db)
      ensures ok ==> sig == Going && db == old(db).(cycle := status, terminations := [status], runs := [status])
      ensures db.cycle in {old(db).cycle, status}
      ensures calls == old(calls) + 1 && rejected >= old(rejected)
      ensures old(db).cycle == CycleRunning && NoRunning(old(db).rows) ==>
                rejected == old(rejected) && (faults(old(calls)) == Fine ==> ok)
      ensures faults(old(calls)) == Fine ==> sig == Going
    {
      ok, sig := Call(OpTerminate(status));
      if sig != Going {
        return;
      }
      cycleStarted := false;
      if ok {
        RecordRun(status);
      }
    }

    method CloseRunningPhase(reason: string) returns (sig: Signal)
      requires Valid()
      modifies `db, `calls, `rejected, `runningPhase, `runningPhaseSeq
      ensures Valid() && Extends(old(db), db) && SameLedger(old(db), db) && db.cycle == old(db).cycle
      ensures sig == Going ==> runningPhaseSeq <= 0
      ensures calls >= old(calls) && rejected >= old(rejected)
      ensures old(runningPhaseSeq) == 0 ==>
                sig == Going && db == old(db) && calls == old(calls) && rejected == old(rejected)
      ensures NoFaults() && old(Tracks()) ==> sig == Going && Tracks() && rejected == old(rejected)
    {
      sig := Going;
      if runningPhaseSeq > 0 {
        if Tracks() {
          CompletesRunning(db, PhaseFailed, Some(reason));
        }
        var ok;
        ok, sig := Call(OpComplete(runningPhaseSeq, PhaseFailed, Some(reason)));
        if sig != Going {
          return;
        }
        runningPhase, runningPhaseSeq := Unset, 0;
      }
    }

    /** The writes that handleShutdownAfterRun (aborted), recoverFromPanic (failed) and
        bestEffortTerminate (failed) have in common, each skipped when already done. */
    method CloseOut(status: CycleStatus, reason: string) returns (sig: Signal)
      requires Valid() && status in {CycleFailed, CycleAborted}
      modifies `db, `calls, `rejected, `runningPhase, `runningPhaseSeq, `cycleStarted
      ensures Valid() && Extends(old(db), db) && SameLedger(old(db), db)
      ensures db.cycle in {old(db).cycle, status}
      ensures calls >= old(calls) && rejected >= old(rejected)
      ensures NoFaults() && old(Tracks()) ==>
                sig == Going && Closed(db) && db.cycle == status && rejected == old(rejected)
      ensures old(AtPhaseGap()) && faults(old(calls)) == Fine && faults(old(calls) + 1) == Fine ==>
                sig == Going && Closed(db) && db.cycle == status && rejected == old(rejected)
    {
      var ok: bool;
      sig := CloseRunningPhase(reason);
      if sig != Going {
        return;
      }
      if cycleStarted {
        ok, sig := TerminateCycle(status);
        if sig != Going {
          return;
        }
      }
      ok, sig := Call(OpSetTask(TaskFailed));
    }

    // ----- execute -----

    /** Between phases of a running cycle. */
    ghost predicate AtPhaseGap()
      reads this
    {
      Ready() && NoRunning(db.rows)
    }

    /** StartPhase with the state update of startExecutePhase and of the verify callback OnStarted. */
    method OpenPhase(phase: Phase) returns (seqNo: int, ok: bool, sig: Signal)
      requires Ready() && phase != Unset
      modifies `db, `calls, `rejected, `runningPhase, `runningPhaseSeq
      ensures Valid() && Extends(old(db), db) && SameLedger(old(db), db) && db.cycle == CycleRunning
      ensures ok ==> sig == Going && Tracks() && runningPhaseSeq == seqNo && seqNo > 0
      ensures ok ==> db.rows != [] && db.rows[|db.rows| - 1].phase == phase
      ensures !ok ==> runningPhaseSeq == 0
      ensures db.runs == old(db).runs && (db == old(db) || Start(old(db), phase) == Ok(db))
      ensures ok ==> Start(old(db), phase) == Ok(db)
      ensures calls == old(calls) + 1 && rejected == old(rejected) + if CanStart(old(db), phase) then 0 else 1
      ensures faults(old(calls)) == Fine ==> sig == Going && (ok <==> CanStart(old(db), phase))
      ensures faults(old(calls)) == Fails ==> sig == Going && !ok && db == old(db)
    {
      seqNo := NextSeq(db.rows);
      if db.rows != [] {
        assert RowLegal(db.rows, |db.rows| - 1);
      }
      ok, sig := Call(OpStart(phase));
      if ok {
        assert db.rows[|db.rows| - 1].status == PhaseRunning;
        runningPhase, runningPhaseSeq := phase, seqNo;
      }
    }

    /** CompletePhase with the state update of completeExecutePhase and of the verify callback OnEnded. */
    method ClosePhase(seqNo: int, status: PhaseStatus, summary: Option<string>) returns (ok: bool, sig: Signal)
      requires Tracks() && seqNo == runningPhaseSeq && seqNo > 0 && TerminalPhaseStatus(status)
      modifies `db, `calls, `rejected, `runningPhase, `runningPhaseSeq
      ensures Valid() && Extends(old(db), db) && SameLedger(old(db), db) && db.cycle == CycleRunning && cycleStarted
      ensures sig == Going ==> runningPhaseSeq == 0
      ensures ok ==> sig == Going && AtPhaseGap() && |db.rows| == |old(db).rows| > 0
      ensures ok ==> db.rows[|db.rows| - 1].status == status
      ensures ok ==> db.rows[|db.rows| - 1].phase == old(db).rows[|db.rows| - 1].phase
      ensures db.runs == old(db).runs && (db == old(db) || Complete(old(db), seqNo, status, summary) == Ok(db))
      ensures ok ==> Complete(old(db), seqNo, status, summary) == Ok(db)
      ensures calls == old(calls) + 1 && rejected == old(rejected)
      ensures faults(old(calls)) == Fine ==> ok
    {
      CompletesRunning(db, status, summary);
      ok, sig := Call(OpComplete(seqNo, status, summary));
      if sig != Going {
        return;
      }
      runningPhase, runningPhaseSeq := Unset, 0;
    }

    method TerminateAndTransition(status: CycleStatus, task: TaskStatus) returns (sig: Signal)
      requires Valid() && TerminalCycleStatus(status)
      requires task == if status == CycleSucceeded then TaskDone else TaskFailed
      requires status == CycleSucceeded ==> lastVerifyPassed || !verifyEnabled
      modifies `db, `calls, `rejected, `cycleStarted
      ensures Valid() && Extends(old(db), db) && SameLedger(old(db), db) && db.cycle in {old(db).cycle, status}
      ensures calls >= old(calls) && rejected >= old(rejected)
      ensures NoFaults() && old(AtPhaseGap()) ==>
                sig == Going && Closed(db) && db.cycle == status && rejected == old(rejected)
    {
      var ok: bool;
      ok, sig := TerminateCycle(status);
      if sig != Going || !ok {
        return;
      }
      ok, sig := Call(OpSetTask(task));
    }

    method ApplyExecuteEffects(effects: ExecuteEffects, seqNo: int, summary: string) returns (cont: bool, sig: Signal)
      requires Tracks() && seqNo == runningPhaseSeq && seqNo > 0
      requires db.rows != [] && db.rows[|db.rows| - 1].phase == Execute
      requires effects in {GO_ON, STOP, FAIL}
      modifies `db, `calls, `rejected, `runningPhase, `runningPhaseSeq, `cycleStarted
      ensures Valid() && Extends(old(db), db) && SameLedger(old(db), db)
      ensures db.cycle != CycleSucceeded
      ensures cont ==>
                sig == Going && effects == GO_ON && AtPhaseGap() && CanStart(db, Verify) && !CanStart(db, Execute)
      ensures calls >= old(calls) && rejected >= old(rejected)
      ensures effects == GO_ON && faults(old(calls)) == Fine ==>
                cont && calls == old(calls) + 1 && rejected == old(rejected)
      ensures NoFaults() ==>
                sig == Going && rejected == old(rejected) && (cont <==> effects == GO_ON) && (cont || Closed(db))
      ensures NoFaults() && !cont ==> db.cycle == if effects == STOP then CycleAborted else CycleFailed
    {
      cont := false;
      if effects.stopLoop {
        sig := CloseOut(CycleAborted, "shutdown");
        return;
      }
      var ok: bool;
      ok, sig := ClosePhase(seqNo, if effects.continueToVerify then PhaseSucceeded else PhaseFailed,
                            if summary != "" then Some(summary) else None);
      if sig != Going {
        return;
      }
      if !ok {
        sig := CloseOut(CycleFailed, "complete_phase_failed");
        return;
      }
      if effects.continueToVerify {
        cont := true;
        return;
      }
      if !effects.terminateFailed {
        return;
      }
      sig := TerminateAndTransition(CycleFailed, TaskFailed);
    }

    /** runCycleLoopExecute behind the start of its phase. */
    method RunStartedExecute(seqNo: int) returns (cont: bool, sig: Signal)
      requires Tracks() && seqNo == runningPhaseSeq && seqNo > 0
      requires db.rows != [] && db.rows[|db.rows| - 1].phase == Execute
      modifies `db, `calls, `rejected, `executes, `runningPhase, `runningPhaseSeq, `cycleStarted,
               `executeReachedVerify, `lastCommitIngestOK
      ensures Valid() && Extends(old(db), db) && SameLedger(old(db), db) && db.cycle != CycleSucceeded
      ensures cont ==> sig == Going && AtPhaseGap() && CanStart(db, Verify) && !CanStart(db, Execute)
      ensures calls >= old(calls) && rejected >= old(rejected)
      ensures cont ==>
                && executeReachedVerify && lastCommitIngestOK == IngestOk(runs(old(executes)))
                && executes == old(executes) + 1
      ensures GoesWell(runs(old(executes))) && faults(old(calls)) == Fine ==>
                cont && calls == old(calls) + 1 && rejected == old(rejected)
      ensures NoFaults() ==>
                && rejected == old(rejected) && sig != Dead && (sig == Panicking ==> Tracks())
                && (sig == Going ==> cont || Closed(db))
                && ExecuteEnds(runs(old(executes)), db.cycle, cont, sig)
    {
      hide DbOk, ExecuteDecision, IngestOk, LockedPassed;
      cont := false;
      var run := runs(executes);
      executes := executes + 1;
      if run.snapshotFails {
        sig := CloseOut(CycleFailed, "execute_git_snapshot_failed");
        return;
      }
      if run.planFails {
        sig := CloseOut(CycleFailed, "cursor_resume_plan_failed");
        return;
      }
      if run.panics {
        sig := Panicking;
        return;
      }
      cont, sig := ApplyExecuteEffects(ExecuteDecision(run), seqNo, run.summary);
      if cont {
        executeReachedVerify := true;
        lastCommitIngestOK := IngestOk(run);
      }
    }

    method RunCycleLoopExecute() returns (cont: bool, sig: Signal)
      requires Ready()
      modifies `db, `calls, `rejected, `executes, `runningPhase, `runningPhaseSeq, `cycleStarted,
               `executeReachedVerify, `lastCommitIngestOK
      ensures Valid() && Extends(old(db), db) && SameLedger(old(db), db)
      ensures db.cycle != CycleSucceeded
      ensures cont ==> sig == Going && AtPhaseGap() && CanStart(db, Verify) && !CanStart(db, Execute)
      ensures calls >= old(calls) && rejected >= old(rejected) + if CanStart(old(db), Execute) then 0 else 1
      ensures CanStart(old(db), Execute) && GoesWell(runs(old(executes)))
              && faults(old(calls)) == Fine && faults(old(calls) + 1) == Fine ==>
                cont && calls == old(calls) + 2 && rejected == old(rejected)
      ensures !CanStart(old(db), Execute) && old(AtPhaseGap())
              && faults(old(calls)) == Fine && faults(old(calls) + 1) == Fine && faults(old(calls) + 2) == Fine ==>
                sig == Going && !cont && Closed(db) && db.cycle == CycleFailed && rejected == old(rejected) + 1
      ensures NoFaults() && CanStart(old(db), Execute) ==>
                && rejected == old(rejected) && sig != Dead && (sig == Panicking ==> Tracks())
                && (sig == Going ==> cont || Closed(db))
      ensures cont ==>
                && executeReachedVerify && lastCommitIngestOK == IngestOk(runs(old(executes)))
                && executes == old(executes) + 1
      ensures NoFaults() && CanStart(old(db), Execute) ==> ExecuteEnds(runs(old(executes)), db.cycle, cont, sig)
    {
      hide DbOk, ExecuteDecision, IngestOk, LockedPassed, Attempt, Checkpoint, ExecuteEnds, GoesWell;
      cont := false;
      var seqNo, ok;
      seqNo, ok, sig := OpenPhase(Execute);
      if sig != Going {
        return;
      }
      if !ok {
        sig := CloseOut(CycleFailed, "execute_phase_start_failed");
        return;
      }
      cont, sig := RunStartedExecute(seqNo);
    }

    // ----- verify -----

    /** verify.Service.RunPipeline with the phase callbacks of runVerificationPipeline. */
    method RunPipeline(check: CheckReport) returns (verdicts: seq<Verdict>, err: VerifyError, sig: Signal)
      requires Ready() && verifyEnabled
      modifies `db, `calls, `rejected, `runningPhase, `runningPhaseSeq
      ensures Valid() && Extends(old(db), db) && SameLedger(old(db), db) && db.cycle == CycleRunning
      ensures sig == Going ==> Ready()
      ensures calls >= old(calls) && rejected == old(rejected) + if CanStart(old(db), Verify) then 0 else 1
      ensures if CanStart(old(db), Verify) then sig == Going && err != NoVerifyError ==> FailedVerifyLeft(old(db), db)
              else db == old(db)
      ensures faults(old(calls)) == Fails ==>
                sig == Going && (verdicts, err) == ([], VerificationFailed) && db == old(db) && calls == old(calls) + 1
      ensures sig == Going && err == NoVerifyError ==>
                verdicts == RoundVerdicts(criteria, previouslyPassed, check.judged) && PassesAll(verdicts, criteria)
      ensures NoFaults() && CanStart(old(db), Verify) ==>
                && rejected == old(rejected) && sig != Dead && Tracks()
                && (sig == Going ==> AtPhaseGap() && VerifyClosed(db, err))
      ensures sig == Going ==>
                (verdicts, err) in {VerifyOutcome(criteria, previouslyPassed, check), ([], VerificationFailed)}
      ensures NoFaults() && CanStart(old(db), Verify) ==>
                && (sig == Going <==> !check.panics)
                && (sig == Going ==> (verdicts, err) == VerifyOutcome(criteria, previouslyPassed, check))
    {
      hide DbOk, Complete, Attempt, FailedVerifyLeft, RoundVerdicts, AllPassed, PassesAll, LockedPassed;
      verdicts, err := [], VerificationFailed;
      var seqNo, ok;
      seqNo, ok, sig := OpenPhase(Verify);
      if sig != Going || !ok {
        if CanStart(old(db), Verify) { FailedRound(old(db), db, db, None); }
        return;
      }
      ghost var begun := db;
      if check.panics {
        sig := Panicking;
        return;
      }
      if !check.cannotCheck {
        verdicts := RoundVerdicts(criteria, previouslyPassed, check.judged);
        err := if AllPassed(verdicts) then NoVerifyError else VerificationFailed;
      }
      if check.tampered {
        err := Tampered;
      }
      assert (verdicts, err) == VerifyOutcome(criteria, previouslyPassed, check);
      OutcomePasses(criteria, previouslyPassed, check);
      ok, sig := ClosePhase(seqNo, if err == NoVerifyError then PhaseSucceeded else PhaseFailed, Some(check.summary));
      if err != NoVerifyError { FailedRound(old(db), begun, db, Some(check.summary)); }
    }

    method RecordPassedVerdicts(verdicts: seq<Verdict>)
      requires Valid()
      modifies `previouslyPassed
      ensures Valid() && previouslyPassed == Lock(old(previouslyPassed), verdicts)
      ensures Grows(old(previouslyPassed), previouslyPassed)
      ensures forall i :: 0 <= i < |verdicts| && verdicts[i].passed ==> verdicts[i].id in previouslyPassed
    {
      var i := 0;
      while i < |verdicts|
        invariant 0 <= i <= |verdicts|
        invariant previouslyPassed == Lock(old(previouslyPassed), verdicts[..i])
      {
        var v := verdicts[i];
        assert verdicts[..i + 1][..i] == verdicts[..i];
        if v.passed && v.id !in previouslyPassed {
          previouslyPassed := previouslyPassed[v.id := v];
        }
        i := i + 1;
      }
      assert verdicts[..i] == verdicts;
      LockKeepsFirst(old(previouslyPassed), verdicts);
    }

    method ApplyVerifyEffects(effects: VerifyEffects) returns (retry: bool, terminal: bool, sig: Signal)
      requires Ready() && !(effects.retryLoop && effects.tampered)
      modifies `db, `calls, `rejected, `cycleStarted, `verifyAttempt
      ensures Valid() && Extends(old(db), db) && SameLedger(old(db), db)
      ensures db.cycle != CycleSucceeded
      ensures retry <==> effects.retryLoop
      ensures retry ==> verifyAttempt == old(verifyAttempt) + 1 && db == old(db) && calls == old(calls)
      ensures !retry ==> verifyAttempt == old(verifyAttempt)
      ensures calls >= old(calls) && rejected >= old(rejected)
      ensures terminal <==> !retry && (effects.tampered || effects.terminalFailure)
      ensures !terminal ==> sig == Going && db == old(db) && cycleStarted && rejected == old(rejected)
      ensures NoFaults() && NoRunning(old(db).rows) ==>
                sig == Going && rejected == old(rejected) && (terminal ==> Closed(db))
    {
      retry, terminal, sig := false, false, Going;
      if effects.tampered {
        terminal := true;
        sig := TerminateAndTransition(CycleFailed, TaskFailed);
      } else if effects.retryLoop {
        verifyAttempt := verifyAttempt + 1;
        retry := true;
      } else if effects.terminalFailure {
        terminal := true;
        sig := TerminateAndTransition(CycleFailed, TaskFailed);
      }
    }

    /** The first half of runCycleLoopVerify: one round, and the locking of what it passed. */
    method VerifyRound(check: CheckReport) returns (verdicts: seq<Verdict>, err: VerifyError, sig: Signal)
      requires Ready() && verifyEnabled
      modifies `db, `calls, `rejected, `runningPhase, `runningPhaseSeq, `previouslyPassed, `lastVerifyPassed
      ensures Valid() && Extends(old(db), db) && SameLedger(old(db), db) && db.cycle == CycleRunning
      ensures Grows(old(previouslyPassed), previouslyPassed)
      ensures calls >= old(calls) && rejected == old(rejected) + if CanStart(old(db), Verify) then 0 else 1
      ensures if CanStart(old(db), Verify) then sig == Going && err != NoVerifyError ==> FailedVerifyLeft(old(db), db)
              else db == old(db)
      ensures faults(old(calls)) == Fails ==>
                sig == Going && (verdicts, err) == ([], VerificationFailed) && db == old(db) && calls == old(calls) + 1
      ensures sig == Going ==> Ready() && previouslyPassed == Lock(old(previouslyPassed), verdicts)
      ensures sig == Going && err == NoVerifyError ==>
                lastVerifyPassed && forall i :: 0 <= i < |criteria| ==> criteria[i] in previouslyPassed
      ensures NoFaults() && CanStart(old(db), Verify) ==>
                && rejected == old(rejected) && sig != Dead && Tracks()
                && (sig == Going ==> AtPhaseGap() && VerifyClosed(db, err))
      ensures if sig == Going then lastVerifyPassed == (err == NoVerifyError)
              else lastVerifyPassed == old(lastVerifyPassed) && previouslyPassed == old(previouslyPassed)
      ensures NoFaults() && CanStart(old(db), Verify) ==>
                (sig == Going <==> !check.panics)
                && (sig == Going ==> (verdicts, err) == VerifyOutcome(criteria, old(previouslyPassed), check))
    {
      verdicts, err, sig := RunPipeline(check);
      if sig != Going {
        return;
      }
      lastVerifyPassed := err == NoVerifyError;
      RecordPassedVerdicts(verdicts);
      assert err == NoVerifyError ==> forall i :: 0 <= i < |criteria| ==> verdicts[i].id == criteria[i];
    }

    /** The second half of runCycleLoopVerify: a failed round is classified, then retried or closed. */
    method HandleFailedVerify(verdicts: seq<Verdict>, err: VerifyError, check: CheckReport)
      returns (retry: bool, terminal: bool, skip: bool, sig: Signal)
      requires Ready() && err != NoVerifyError
      modifies `db, `calls, `rejected, `cycleStarted, `verifyAttempt
      ensures Valid() && Extends(old(db), db) && SameLedger(old(db), db)
      ensures db.cycle != CycleSucceeded
      ensures retry <==> err != Tampered && old(verifyAttempt) < maxRetries
      ensures terminal <==> !retry
      ensures skip <==> retry && ExecuteStillValid(executeReachedVerify, lastCommitIngestOK, check, verdicts)
      ensures verifyAttempt == old(verifyAttempt) + if retry then 1 else 0
      ensures retry ==> sig == Going && db == old(db) && cycleStarted && calls == old(calls)
      ensures calls >= old(calls) && rejected >= old(rejected) && (retry ==> rejected == old(rejected))
      ensures NoFaults() && NoRunning(old(db).rows) ==>
                sig == Going && rejected == old(rejected) && (terminal ==> Closed(db))
    {
      var onlyVerify := VerifyOnlyRetry(ClassifyInput(
        ClassifyFailureClass(verdicts, true), check.reportValid, check.headMatches, lastCommitIngestOK,
            executeReachedVerify));
      var effects := DecideVerifyRetryWithValidity(
        verifyAttempt, maxRetries, if err == Tampered then VerifyFailTampered else VerifyFailRetryable, onlyVerify);
      retry, terminal, sig := ApplyVerifyEffects(effects);
      skip := effects.skipNextExecute;
    }

    /** The verify-disabled branch of runCycleLoopVerify. */
    method CompleteChecklistLegacy(checklistFails: bool) returns (terminal: bool, sig: Signal)
      requires Ready()
      modifies `db, `calls, `rejected, `cycleStarted, `verifyAttempt
      ensures Valid() && Extends(old(db), db) && SameLedger(old(db), db) && db.cycle != CycleSucceeded
      ensures terminal == checklistFails && verifyAttempt == old(verifyAttempt)
      ensures calls >= old(calls) && rejected >= old(rejected)
      ensures !terminal ==> sig == Going && Ready() && db == old(db) && rejected == old(rejected)
      ensures NoFaults() && NoRunning(old(db).rows) ==>
                sig == Going && rejected == old(rejected) && (terminal ==> Closed(db))
    {
      var retry;
      retry, terminal, sig := ApplyVerifyEffects(VerifyEffects(false, false, checklistFails, false));
    }

    /** runCycleLoopVerify. */
    method RunCycleLoopVerify() returns (retry: bool, terminal: bool, skip: bool, sig: Signal)
      requires Ready()
      modifies `db, `calls, `rejected, `verifies, `runningPhase, `runningPhaseSeq, `cycleStarted,
               `verifyAttempt, `previouslyPassed, `lastVerifyPassed
      ensures Valid() && Extends(old(db), db) && SameLedger(old(db), db)
      ensures db.cycle != CycleSucceeded
      ensures sig == Going && !terminal ==> Ready()
      ensures sig == Going && retry ==>
                !terminal && old(verifyAttempt) < maxRetries && verifyAttempt == old(verifyAttempt) + 1
      ensures !retry ==> verifyAttempt == old(verifyAttempt)
      ensures sig == Going && !retry && !terminal ==> lastVerifyPassed || !verifyEnabled
      ensures verifies <= old(verifies) + 1 && (!verifyEnabled ==> verifies == old(verifies) && !retry)
      ensures Grows(old(previouslyPassed), previouslyPassed)
      ensures sig == Going && !retry && !terminal && verifyEnabled ==>
                forall i :: 0 <= i < |criteria| ==> criteria[i] in previouslyPassed
      ensures NoFaults() && CanStart(old(db), Verify) ==>
                && rejected == old(rejected) && sig != Dead && (sig == Panicking ==> Tracks())
                && (sig == Going && terminal ==> Closed(db))
                && (sig == Going && retry ==> AtPhaseGap() && CanStart(db, Execute) && CanStart(db, Verify))
                && (sig == Going && !retry && !terminal ==> AtPhaseGap())
      ensures calls >= old(calls)
      ensures rejected >= old(rejected) + if verifyEnabled && !CanStart(old(db), Verify) then 1 else 0
      ensures (CanStart(old(db), Verify) || !NoRunning(old(db).rows)) && retry ==> NextStartLegalIff(db, skip)
      ensures verifyEnabled && faults(old(calls)) == Fails && old(verifyAttempt) < maxRetries
                && CanStart(old(db), Verify) ==>
                && sig == Going && retry && db == old(db) && calls == old(calls) + 1 && rejected == old(rejected)
                && (skip <==> ExecuteStillValid(executeReachedVerify, lastCommitIngestOK, checks(old(verifies)), []))
      ensures !verifyEnabled ==> terminal == checks(old(verifies)).checklistFails && !retry
      ensures verifyEnabled && NoFaults() && CanStart(old(db), Verify) ==>
                var check := checks(old(verifies));
                var (verdicts, err) := VerifyOutcome(criteria, old(previouslyPassed), check);
                && (sig == Panicking <==> check.panics)
                && (sig == Going ==>
                      && previouslyPassed == Lock(old(previouslyPassed), verdicts)
                      && (!retry && !terminal <==> err == NoVerifyError)
                      && (retry <==> err == VerificationFailed && old(verifyAttempt) < maxRetries)
                      && (skip <==>
                            retry && ExecuteStillValid(executeReachedVerify, lastCommitIngestOK, check, verdicts)))
      ensures verifyEnabled && !old(lastVerifyPassed) && lastVerifyPassed ==> sig == Going && !retry && !terminal
    {
      hide DbOk, VerifyOutcome, ExecuteStillValid, Lock, Closed, CanStart, VerifyClosed, NextStartLegalIff,
          FailedVerifyLeft;
      StartableIsQuiet(db, Verify);
      retry, terminal, skip := false, false, false;
      var check := checks(verifies);
      if !verifyEnabled {
        terminal, sig := CompleteChecklistLegacy(check.checklistFails);
        return;
      }
      verifies := verifies + 1;
      var verdicts, err;
      verdicts, err, sig := VerifyRound(check);
      if sig != Going || err == NoVerifyError {
        return;
      }
      FailedVerifyReopens(db, err);
      ghost var failed := db;
      if CanStart(old(db), Verify) { LegalEitherWay(old(db), failed); }
      BehindRunningIsIllegal(failed);
      retry, terminal, skip, sig := HandleFailedVerify(verdicts, err, check);
    }

    // ----- success -----

    /** One SetChecklistItemDoneWithEvidence; a missing item is not a failure. */
    method CompleteItem(v: Verdict) returns (failed: bool, sig: Signal)
      requires Valid()
      modifies `db, `calls, `rejected
      ensures Valid()
      ensures db in {old(db), old(db).(completions := old(db).completions[v.id := v])}
      ensures sig == Going && !failed && v.id in db.items ==> v.id in db.completions && db.completions[v.id] == v
      ensures NoFaults() ==> sig == Going && !failed && (v.id in db.items ==> rejected == old(rejected))
    {
      var known := v.id in db.items;
      var ok;
      ok, sig := Call(OpSetItemDone(v));
      failed := !ok && known;
    }

    /** ApplyVerifiedCompletions over the locked verdicts, in whatever order the map yields them. */
    method ApplyVerifiedCompletions() returns (failed: bool, sig: Signal)
      requires Valid()
      modifies `db, `calls, `rejected
      ensures Valid() && Extends(old(db), db) && db.items == old(db).items && db.cycle == old(db).cycle
                && db.rows == old(db).rows
      ensures db.runs == old(db).runs && CompletionsFrom(old(db).completions, db.completions, previouslyPassed)
      ensures sig == Going && !failed ==> CompletionsFull(db, previouslyPassed)
      ensures NoFaults() ==> sig == Going && !failed
      ensures NoFaults() && previouslyPassed.Keys <= db.items ==> rejected == old(rejected)
    {
      hide Inv;
      failed, sig := false, Going;
      var todo := previouslyPassed.Keys;
      while todo != {}
        invariant sig == Going && !failed
        invariant Valid() && db.items == old(db).items && db.cycle == old(db).cycle && db.rows == old(db).rows
        invariant db.runs == old(db).runs && CompletionsFrom(old(db).completions, db.completions, previouslyPassed)
        invariant todo <= previouslyPassed.Keys
        invariant forall id :: id in previouslyPassed && id !in todo && id in db.items ==>
                    id in db.completions && db.completions[id] == previouslyPassed[id]
        invariant NoFaults() && previouslyPassed.Keys <= db.items ==> rejected == old(rejected)
      {
        var id :| id in todo;
        todo := todo - {id};
        failed, sig := CompleteItem(previouslyPassed[id]);
        if sig != Going || failed {
          return;
        }
      }
    }

    /** runCycleLoopFinalizeSuccess. */
    method RunCycleLoopFinalizeSuccess() returns (sig: Signal)
      requires Ready() && (lastVerifyPassed || !verifyEnabled)
      modifies `db, `calls, `rejected, `cycleStarted
      ensures Valid() && Extends(old(db), db) && db.items == old(db).items
      ensures CompletionsFrom(old(db).completions, db.completions, previouslyPassed)
      ensures db.cycle == CycleSucceeded ==> CompletionsFull(db, previouslyPassed)
      ensures NoFaults() && NoRunning(old(db).rows) ==>
                && sig == Going && Closed(db) && db.cycle == CycleSucceeded
                && (previouslyPassed.Keys <= db.items ==> rejected == old(rejected))
    {
      var failed;
      failed, sig := ApplyVerifiedCompletions();
      if sig != Going {
        return;
      }
      var effects := DecideFinalizeSuccess(failed);
      sig := TerminateAndTransition(effects.cycleStatus, effects.taskStatus);
    }

    // ----- the loop -----

    /** The next execute goes well, the start of the verify behind it is lost, attempts are left, and
        the check does not find the execute still valid. */
    ghost predicate LosesVerifyStart()
      reads this
    {
      && verifyEnabled && verifyAttempt < maxRetries && CanStart(db, Execute) && GoesWell(runs(executes))
      && faults(calls) == Fine && faults(calls + 1) == Fine && faults(calls + 2) == Fails
      && !ExecuteStillValid(true, IngestOk(runs(executes)), checks(verifies), [])
    }

    /** ... and the next three store calls work. */
    ghost predicate ThenWorks()
      reads this
    {
      faults(calls + 3) == Fine && faults(calls + 4) == Fine && faults(calls + 5) == Fine
    }

    /** The body of the loop up to finalization: execute unless skipped, then verify. */
    method RunIteration(skipExecute: bool) returns (retry: bool, finish: bool, skipNext: bool, sig: Signal)
      requires Ready()
      modifies this
      ensures Valid() && Extends(old(db), db) && SameLedger(old(db), db) && db.cycle != CycleSucceeded
      ensures Grows(old(previouslyPassed), previouslyPassed)
      ensures verifies <= old(verifies) + 1
      ensures retry ==> old(verifyAttempt) < maxRetries && verifyAttempt == old(verifyAttempt) + 1
      ensures retry || finish ==> Ready() && sig == Going
      ensures verifyEnabled && !old(lastVerifyPassed) && lastVerifyPassed ==> finish
      ensures calls >= old(calls)
      ensures rejected >= old(rejected)
              + if (!skipExecute || verifyEnabled) && !CanStart(old(db), PhaseAfter(skipExecute)) then 1 else 0
      ensures EntryOk(old(db), skipExecute) && retry ==> NextStartLegalIff(db, skipNext) && EntryOk(db, skipNext)
      ensures old(LosesVerifyStart()) && !skipExecute ==>
                retry && !skipNext && calls == old(calls) + 3 && rejected == old(rejected)
                && NoRunning(db.rows) && !CanStart(db, Execute)
      ensures !skipExecute && !CanStart(old(db), Execute) && old(AtPhaseGap())
              && faults(old(calls)) == Fine && faults(old(calls) + 1) == Fine && faults(old(calls) + 2) == Fine ==>
                && sig == Going && !retry && !finish && Closed(db) && db.cycle == CycleFailed
                && rejected == old(rejected) + 1
      ensures finish ==> !retry && (lastVerifyPassed || !verifyEnabled)
      ensures finish && verifyEnabled ==> forall i :: 0 <= i < |criteria| ==> criteria[i] in previouslyPassed
      ensures NoFaults() && CanStart(old(db), if skipExecute then Verify else Execute) ==>
                && rejected == old(rejected) && sig != Dead && (sig == Panicking ==> Tracks())
                && (sig == Going && !retry && !finish ==> Closed(db))
                && (retry ==> CanStart(db, Execute) && CanStart(db, Verify))
                && (finish ==> NoRunning(db.rows))
    {
      hide DbOk, NextStartLegalIff, GoesWell, Closed, ExecuteEnds, VerifyOutcome, LockedPassed, Lock, Extends, Inv;
      retry, finish, skipNext := false, false, false;
      if !skipExecute {
        var cont;
        cont, sig := RunCycleLoopExecute();
        if sig != Going || !cont {
          return;
        }
      }
      ghost var executed := db;
      var terminal;
      retry, terminal, skipNext, sig := RunCycleLoopVerify();
      if !skipExecute { ExtendsTransitive(old(db), executed, db); }
      LegalIsEntry(db, skipNext);
      retry, finish := sig == Going && retry, sig == Going && !retry && !terminal;
    }

    /** runCycleLoop. */
    method RunCycleLoop(skipFirstExecute: bool) returns (sig: Signal)
      requires Ready()
      modifies this
      ensures Valid() && Extends(old(db), db) && db.items == old(db).items
      ensures Grows(old(previouslyPassed), previouslyPassed)
      ensures verifies <= old(verifies) + 1 + Max(0, maxRetries - old(verifyAttempt))
      ensures CompletionsFrom(old(db).completions, db.completions, previouslyPassed)
      ensures db.completions != old(db).completions ==> lastVerifyPassed || !verifyEnabled
      ensures db.cycle == CycleSucceeded ==> CompletionsFull(db, previouslyPassed)
      ensures db.cycle == CycleSucceeded && verifyEnabled ==>
                forall i :: 0 <= i < |criteria| ==> criteria[i] in previouslyPassed
      ensures old(LosesVerifyStart() && ThenWorks()) && !skipFirstExecute ==>
                sig == Going && rejected == old(rejected) + 1 && Closed(db) && db.cycle == CycleFailed
      ensures NoFaults() && CanStart(old(db), if skipFirstExecute then Verify else Execute) ==>
                && sig != Dead && (sig == Panicking ==> Tracks()) && (sig == Going ==> Closed(db))
                && (previouslyPassed.Keys <= db.items ==> rejected == old(rejected))
                && (verifyEnabled && !old(lastVerifyPassed) ==> sig == Going || !lastVerifyPassed)
                && (verifyEnabled && !old(lastVerifyPassed) && sig == Going ==>
                     (db.cycle == CycleSucceeded <==> lastVerifyPassed))
    {
      hide DbOk, NextStartLegalIff, GoesWell, ExecuteStillValid, VerifyOutcome, LockedPassed, CanStart, Closed,
          LosesVerifyStart, EntryOk, Inv, Extends;
      ExtendsItself(db);
      var skipExecute := skipFirstExecute;
      ghost var first := true;
      while true
        invariant Ready() && Extends(old(db), db) && SameLedger(old(db), db)
        invariant Grows(old(previouslyPassed), previouslyPassed)
        invariant verifyAttempt >= old(verifyAttempt)
                    && verifies <= old(verifies) + (verifyAttempt - old(verifyAttempt))
        invariant verifyAttempt > old(verifyAttempt) ==> verifyAttempt <= maxRetries
        invariant verifyEnabled && !old(lastVerifyPassed) ==> !lastVerifyPassed
        invariant rejected >= old(rejected) && (EntryOk(old(db), skipFirstExecute) ==> EntryOk(db, skipExecute))
        invariant first ==> unchanged(this) && skipExecute == skipFirstExecute
        invariant !first && old(LosesVerifyStart() && ThenWorks()) && !skipFirstExecute ==>
                    && calls == old(calls) + 3 && !skipExecute && AtPhaseGap() && !CanStart(db, Execute)
                    && rejected == old(rejected)
        invariant NoFaults() && CanStart(old(db), if skipFirstExecute then Verify else Execute) ==>
                    rejected == old(rejected) && CanStart(db, if skipExecute then Verify else Execute)
        decreases maxRetries - verifyAttempt
      {
        ghost var before := db;
        var retry, finish, skipNext;
        retry, finish, skipNext, sig := RunIteration(skipExecute);
        ExtendsTransitive(old(db), before, db);
        if finish {
          ghost var verified := db;
          sig := RunCycleLoopFinalizeSuccess();
          ExtendsTransitive(old(db), verified, db);
          return;
        }
        if !retry {
          return;
        }
        skipExecute := skipNext;
        first := false;
      }
    }

    /** A run from runCycleLoop entry, with the deferred recoverFromPanic. */
    method Run(skipFirstExecute: bool) returns (sig: Signal)
      requires Ready()
      modifies this
      ensures Valid() && Extends(old(db), db)
      ensures Grows(old(previouslyPassed), previouslyPassed)
      ensures verifies <= old(verifies) + 1 + Max(0, maxRetries - old(verifyAttempt))
      ensures CompletionsFrom(old(db).completions, db.completions, previouslyPassed)
      ensures db.completions != old(db).completions ==> lastVerifyPassed || !verifyEnabled
      ensures db.cycle == CycleSucceeded ==> CompletionsFull(db, previouslyPassed)
      ensures db.cycle == CycleSucceeded && verifyEnabled ==>
                forall i :: 0 <= i < |criteria| ==> criteria[i] in previouslyPassed
      ensures old(LosesVerifyStart() && ThenWorks()) && !skipFirstExecute ==>
                sig == Going && rejected == old(rejected) + 1 && Closed(db) && db.cycle == CycleFailed
      ensures NoFaults() && CanStart(old(db), if skipFirstExecute then Verify else Execute) ==>
                && sig == Going && Closed(db) && (previouslyPassed.Keys <= db.items ==> rejected == old(rejected))
                && (verifyEnabled && !old(lastVerifyPassed) ==> (db.cycle == CycleSucceeded <==> lastVerifyPassed))
    {
      sig := RunCycleLoop(skipFirstExecute);
      if sig == Panicking {
        sig := CloseOut(CycleFailed, "panic");
      }
    }

    /** Harness.Resume: when the checkpoint cannot be read, or there is none, the cycle only has its
        task failed and stays open. */
    method Resume(readFails: bool) returns (sig: Signal)
      requires Ready() && !lastVerifyPassed
      modifies this
      ensures Valid() && Extends(old(db), db)
      ensures NoFaults() ==> sig == Going && (Closed(db) <==> !readFails && Checkpoint(old(db)).Some?)
      ensures NoFaults() && (readFails || Checkpoint(old(db)).None?) ==> db == old(db).(task := TaskFailed)
    {
      var entry := Checkpoint(db);
      if readFails || entry.None? {
        var ok;
        ok, sig := Call(OpSetTask(TaskFailed));
        return;
      }
      CrashThenFinalizeReopens(db);
      sig := Run(SkipsExecute(entry.value));
    }
  }

  /** A restart after a process died anywhere in a run: finalize, then Resume in a new process.
      When no store call fails and the checkpoint can be read, the cycle is closed out exactly when
      the dead process left a running, interrupted or succeeded-execute row last. */
  method Restart(died: Harness, faults: nat -> Fault, runs: nat -> RunReport, checks: nat -> CheckReport,
                 verifyAttempt: int, locked: map<string, Verdict>, readFails: bool) returns (h: Harness, sig: Signal)
    requires died.Valid() && died.db.cycle == CycleRunning && LockedPassed(locked)
    ensures h.Valid() && |died.db.rows| <= |h.db.rows| && |h.db.terminations| <= 1
    ensures (forall k :: faults(k) == Fine) ==>
              (Closed(h.db) <==> !readFails && died.db.rows != [] && Resumable(died.db.rows[|died.db.rows| - 1]))
  {
    FinalizedKeepsOk(died.db);
    CrashThenFinalizeReopens(died.db);
    h := new Harness(faults, runs, checks, Finalized(died.db),
                     died.verifyEnabled, died.maxRetries, died.criteria, verifyAttempt, locked);
    sig := h.Resume(readFails);
  }

  /** A run in which the start of the verify phase fails, the head has moved, and everything else works:
      the loop asks for an execute behind an execute, is refused, and the cycle fails although attempts are left. */
  method LostVerifyStart(criteria: seq<string>) returns (h: Harness, sig: Signal)
    ensures sig == Going && h.rejected == 1 && Closed(h.db) && h.db.cycle == CycleFailed
  {
    hide Closed, Extends, CompletionsFrom, CompletionsFull, Grows;
    var run := RunReport(false, false, false, NoRunError, NoRunError, false, false, false, false, "", "done");
    var check := CheckReport(false, false, map[], false, true, false, false, "");
    var db := CycleDb([], CycleRunning, TaskRunning, {}, map[], [], []);
    h := new Harness(k => if k == 2 then Fails else Fine, _ => run, _ => check, db, true, 2, criteria, 0, map[]);
    assert h.LosesVerifyStart() && h.ThenWorks();
    sig := h.Run(false);
  }

  function Max(a: int, b: int): int {
    if a < b then b else a
  }

  ghost predicate Grows(a: map<string, Verdict>, b: map<string, Verdict>) {
    forall id :: id in a ==> id in b && b[id] == a[id]
  }

  lemma OutcomePasses(criteria: seq<string>, locked: map<string, Verdict>, check: CheckReport)
    requires LockedPassed(locked)
    ensures var (verdicts, err) := VerifyOutcome(criteria, locked, check);
            err == NoVerifyError ==>
              verdicts == RoundVerdicts(criteria, locked, check.judged) && PassesAll(verdicts, criteria)
  {
  }

  /** The loop is entered so that the start it asks for is legal, or behind a row left running, or
      with a full execute. */
  predicate EntryOk(db: CycleDb, skipExecute: bool) {
    skipExecute ==> CanStart(db, Verify) || !NoRunning(db.rows)
  }

  /** The two writes of a failed verify round, put together. */
  lemma FailedRound(db: CycleDb, begun: CycleDb, after: CycleDb, summary: Option<string>)
    requires DbOk(db) && CanStart(db, Verify) && (begun == db || Start(db, Verify) == Ok(begun))
    requires after == begun
               || (begun != db && Complete(begun, |begun.rows|, PhaseFailed, summary) == Ok(after) && summary.Some?)
    ensures FailedVerifyLeft(db, after)
  {
    if begun == db {
      assert after == AfterFailedVerify(db, false, false, None);
    } else if after == begun {
      assert after == AfterFailedVerify(db, true, false, None);
    } else {
      assert after == AfterFailedVerify(db, true, true, summary);
    }
  }

  lemma BehindRunningIsIllegal(db: CycleDb)
    ensures !NoRunning(db.rows) ==> NextStartLegalIff(db, true) && NextStartLegalIff(db, false)
  {
  }

  lemma LegalIsEntry(db: CycleDb, skipExecute: bool)
    ensures NextStartLegalIff(db, skipExecute) ==> EntryOk(db, skipExecute)
  {
  }

  lemma LegalEitherWay(db: CycleDb, after: CycleDb)
    requires DbOk(db) && CanStart(db, Verify) && FailedVerifyLeft(db, after)
    ensures NextStartLegalIff(after, true) && NextStartLegalIff(after, false)
  {
    FailedRoundLegality(db, after, true);
    FailedRoundLegality(db, after, false);
  }

  lemma ExtendsItself(db: CycleDb)
    ensures Extends(db, db)
  {
  }

  lemma StartableIsQuiet(db: CycleDb, phase: Phase)
    ensures CanStart(db, phase) ==> NoRunning(db.rows) && db.cycle == CycleRunning
  {
  }

  /** After a failed verify both phases may be begun. */
  lemma FailedVerifyReopens(db: CycleDb, err: VerifyError)
    ensures err != NoVerifyError && VerifyClosed(db, err) && NoRunning(db.rows) && db.cycle == CycleRunning ==>
              CanStart(db, Execute) && CanStart(db, Verify)
  {
  }

  /** An execute run that leads on to verify. */
  predicate GoesWell(run: RunReport) {
    !run.snapshotFails && !run.planFails && !run.panics && ExecuteDecision(run) == GO_ON
  }

  /** How an execute run ends when no store call fails. */
  ghost predicate ExecuteEnds(run: RunReport, cycle: CycleStatus, cont: bool, sig: Signal) {
    if run.snapshotFails || run.planFails then sig == Going && !cont && cycle == CycleFailed
    else if run.panics then sig == Panicking && !cont && cycle == CycleRunning
    else
      && sig == Going && (cont <==> ExecuteDecision(run) == GO_ON)
      && cycle == if cont then CycleRunning else if ExecuteDecision(run) == STOP then CycleAborted else CycleFailed
  }

  /** The last row is the verify phase just closed, with the status err stands for. */
  ghost predicate VerifyClosed(db: CycleDb, err: VerifyError) {
    && db.rows != []
    && db.rows[|db.rows| - 1].phase == Verify
    && db.rows[|db.rows| - 1].status == if err == NoVerifyError then PhaseSucceeded else PhaseFailed
  }

  /** Criterion by criterion, a passing verdict. */
  ghost predicate PassesAll(verdicts: seq<Verdict>, criteria: seq<string>) {
    && |verdicts| == |criteria|
    && forall i :: 0 <= i < |criteria| ==> verdicts[i].passed && verdicts[i].id == criteria[i]
  }

  /** Completing the running row is accepted and leaves none running. */
  lemma CompletesRunning(db: CycleDb, status: PhaseStatus, summary: Option<string>)
    requires DbOk(db) && !NoRunning(db.rows) && TerminalPhaseStatus(status)
    ensures db.rows != [] && Complete(db, |db.rows|, status, summary).Ok?
    ensures var rows, n := Complete(db, |db.rows|, status, summary).value.rows, |db.rows|;
            NoRunning(rows) && |rows| == n && rows[n - 1].phase == db.rows[n - 1].phase && rows[n - 1].status == status
  {
    var i :| 0 <= i < |db.rows| && db.rows[i].status == PhaseRunning;
    assert RowLegal(db.rows, i);
    CompleteKeepsOk(db, |db.rows|, status, summary);
  }
}
