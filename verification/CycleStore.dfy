/** The rows one cycle and its task have in the store, with the guards of
    pkgs/tasks/store/internal/cycles (StartPhase, CompletePhase, Terminate). Each operation is
    one transaction: it takes effect as a whole or is rejected and changes nothing. */
module CycleStore {
  import opened Wrappers
  import opened PhaseRules

  datatype TaskStatus = TaskReady | TaskRunning | TaskDone | TaskFailed

  datatype VerifierKind = AgentSelf | VerifyAgent | DeterministicCheck | HumanOverride | Legacy

  datatype Verdict = Verdict(id: string, passed: bool, verifier: VerifierKind, evidence: string)

  datatype CycleDb = CycleDb(
    rows: seq<PhaseRow>,
    cycle: CycleStatus,
    task: TaskStatus,
    items: set<string>,                  // checklist items that exist
    completions: map<string, Verdict>,   // items marked done, with their evidence
    terminations: seq<CycleStatus>,      // every successful Terminate
    runs: seq<CycleStatus>)              // every RecordRun observation

  datatype Rejection = InvalidInput | NotFound

  predicate NoRunning(rows: seq<PhaseRow>) {
    forall i :: 0 <= i < |rows| ==> rows[i].status != PhaseRunning
  }

  function LastRow(rows: seq<PhaseRow>): Option<PhaseRow> {
    if rows == [] then None else Some(rows[|rows| - 1])
  }

  predicate StartAllowed(rows: seq<PhaseRow>, next: Phase) {
    var last := LastRow(rows);
    var prev := if last == None then Unset else last.value.phase;
    || ValidPhaseTransition(prev, next)
    || ValidInterruptResumeTransition(last, next)
    || ValidVerifyOnlyRetryTransition(last, next)
  }

  predicate CanStart(db: CycleDb, phase: Phase) {
    phase != Unset && !TerminalCycleStatus(db.cycle) && NoRunning(db.rows) && StartAllowed(db.rows, phase)
  }

  function NextSeq(rows: seq<PhaseRow>): int {
    if rows == [] then 1 else rows[|rows| - 1].seqNo + 1
  }

  function Start(db: CycleDb, phase: Phase): Result<CycleDb, Rejection> {
    if CanStart(db, phase)
    then Ok(db.(rows := db.rows + [PhaseRow(phase, NextSeq(db.rows), PhaseRunning, None)]))
    else Err(InvalidInput)
  }

  function Find(rows: seq<PhaseRow>, seqNo: int): (k: Option<nat>)
    ensures k.Some? ==> k.value < |rows| && rows[k.value].seqNo == seqNo
    ensures k.None? ==> forall i :: 0 <= i < |rows| ==> rows[i].seqNo != seqNo
  {
    if rows == [] then None
    else if rows[|rows| - 1].seqNo == seqNo then Some(|rows| - 1)
    else Find(rows[..|rows| - 1], seqNo)
  }

  function Complete(db: CycleDb, seqNo: int, status: PhaseStatus, summary: Option<string>): Result<CycleDb, Rejection> {
    if seqNo <= 0 || !TerminalPhaseStatus(status) then Err(InvalidInput)
    else match Find(db.rows, seqNo)
      case None => Err(NotFound)
      case Some(k) =>
        if TerminalPhaseStatus(db.rows[k].status) then Err(InvalidInput)
        else
          var row := db.rows[k];
          var closed := row.(status := status, summary := if summary.Some? then summary else row.summary);
          Ok(db.(rows := db.rows[k := closed]))
  }

  function Terminate(db: CycleDb, status: CycleStatus): Result<CycleDb, Rejection> {
    if !TerminalCycleStatus(status) || TerminalCycleStatus(db.cycle) || !NoRunning(db.rows) then Err(InvalidInput)
    else Ok(db.(cycle := status, terminations := db.terminations + [status]))
  }

  function SetTask(db: CycleDb, status: TaskStatus): Result<CycleDb, Rejection> {
    Ok(db.(task := status))
  }

  function SetItemDone(db: CycleDb, v: Verdict): Result<CycleDb, Rejection> {
    if v.id !in db.items then Err(NotFound)
    else Ok(db.(completions := db.completions[v.id := v]))
  }

  // ----- what no sequence of operations can break -----

  /** The row at i may follow the rows before it. */
  ghost predicate RowLegal(rows: seq<PhaseRow>, i: nat)
    requires i < |rows|
  {
    && rows[i].seqNo == i + 1
    && (i < |rows| - 1 ==> TerminalPhaseStatus(rows[i].status))
    && match rows[i].phase
       case Unset => false
       case Execute =>
         || i == 0
         || rows[i - 1].phase == Verify
         || (rows[i - 1].status == PhaseFailed && rows[i - 1].summary == Some(INTERRUPT_REASON))
       case Verify =>
         i > 0 && (rows[i - 1].phase == Verify ==> rows[i - 1].status == PhaseFailed)
  }

  /** Rows are numbered 1, 2, ...; only the last may be running; the first is an execute; execute
      follows execute only after an interrupt, and verify follows verify only after a failed one. */
  ghost predicate LogOk(rows: seq<PhaseRow>) {
    forall i :: 0 <= i < |rows| ==> RowLegal(rows, i)
  }

  ghost predicate DbOk(db: CycleDb) {
    && LogOk(db.rows)
    && (TerminalCycleStatus(db.cycle) ==> NoRunning(db.rows))
    && db.terminations == if TerminalCycleStatus(db.cycle) then [db.cycle] else []
  }

  /** Rows are never dropped or renamed, a terminal row never changes, nor does a terminal cycle. */
  ghost predicate Extends(db: CycleDb, db': CycleDb) {
    && |db.rows| <= |db'.rows|
    && (forall i :: 0 <= i < |db.rows| ==>
          && db'.rows[i].phase == db.rows[i].phase
          && (TerminalPhaseStatus(db.rows[i].status) ==> db'.rows[i] == db.rows[i]))
    && (TerminalCycleStatus(db.cycle) ==> db'.cycle == db.cycle && db'.rows == db.rows)
  }

  lemma ExtendsTransitive(a: CycleDb, b: CycleDb, c: CycleDb)
    requires Extends(a, b) && Extends(b, c)
    ensures Extends(a, c)
  {
  }

  lemma StartKeepsOk(db: CycleDb, phase: Phase)
    requires DbOk(db) && Start(db, phase).Ok?
    ensures DbOk(Start(db, phase).value) && Extends(db, Start(db, phase).value)
  {
    var rows := Start(db, phase).value.rows;
    forall i | 0 <= i < |rows| ensures RowLegal(rows, i) {
      if i < |db.rows| { assert RowLegal(db.rows, i); }
      if i == |db.rows| && i > 0 { assert RowLegal(db.rows, i - 1); }
    }
  }

  lemma CompleteKeepsOk(db: CycleDb, seqNo: int, status: PhaseStatus, summary: Option<string>)
    requires DbOk(db) && Complete(db, seqNo, status, summary).Ok?
    ensures DbOk(Complete(db, seqNo, status, summary).value) && Extends(db, Complete(db, seqNo, status, summary).value)
    ensures seqNo == |db.rows| && NoRunning(Complete(db, seqNo, status, summary).value.rows)
  {
    var k := Find(db.rows, seqNo).value;
    assert RowLegal(db.rows, k);
    var rows := Complete(db, seqNo, status, summary).value.rows;
    forall i | 0 <= i < |rows| ensures RowLegal(rows, i) && rows[i].status != PhaseRunning {
      assert RowLegal(db.rows, i);
    }
  }

  datatype StoreOp =
    | OpStart(phase: Phase)
    | OpComplete(seqNo: int, phaseStatus: PhaseStatus, summary: Option<string>)
    | OpTerminate(cycleStatus: CycleStatus)
    | OpSetTask(taskStatus: TaskStatus)
    | OpSetItemDone(verdict: Verdict)

  function Attempt(db: CycleDb, op: StoreOp): Result<CycleDb, Rejection> {
    match op
    case OpStart(phase) => Start(db, phase)
    case OpComplete(seqNo, status, summary) => Complete(db, seqNo, status, summary)
    case OpTerminate(status) => Terminate(db, status)
    case OpSetTask(status) => SetTask(db, status)
    case OpSetItemDone(v) => SetItemDone(db, v)
  }

  lemma AttemptKeepsOk(db: CycleDb, op: StoreOp)
    requires DbOk(db) && Attempt(db, op).Ok?
    ensures DbOk(Attempt(db, op).value) && Extends(db, Attempt(db, op).value)
  {
    match op
    case OpStart(phase) => StartKeepsOk(db, phase);
    case OpComplete(seqNo, status, summary) => CompleteKeepsOk(db, seqNo, status, summary);
    case OpTerminate(_) =>
      forall i | 0 <= i < |db.rows| ensures TerminalPhaseStatus(db.rows[i].status) {
        assert RowLegal(db.rows, i);
      }
    case _ =>
  }

  /** Any sequence of requests, from any number of callers and processes, rejected ones included. */
  function Replay(db: CycleDb, ops: seq<StoreOp>): CycleDb
    decreases |ops|
  {
    if ops == [] then db
    else
      var r := Attempt(db, ops[0]);
      Replay(if r.Ok? then r.value else db, ops[1..])
  }

  lemma {:induction false} ReplayKeepsOk(db: CycleDb, ops: seq<StoreOp>)
    requires DbOk(db)
    ensures DbOk(Replay(db, ops)) && Extends(db, Replay(db, ops)) && |Replay(db, ops).terminations| <= 1
    decreases |ops|
  {
    if ops != [] {
      var r := Attempt(db, ops[0]);
      if r.Ok? {
        AttemptKeepsOk(db, ops[0]);
        ReplayKeepsOk(r.value, ops[1..]);
      } else {
        ReplayKeepsOk(db, ops[1..]);
      }
    }
  }

  // ----- interruption: finalize, then reopen -----

  /** FinalizeInterruptedPhases on this cycle: close the running row, if any, as interrupted. */
  function Finalized(db: CycleDb): CycleDb {
    if db.rows == [] || db.rows[|db.rows| - 1].status != PhaseRunning then db
    else
      var row := db.rows[|db.rows| - 1];
      db.(rows := db.rows[|db.rows| - 1 := row.(status := PhaseFailed, summary := Some(INTERRUPT_REASON))])
  }

  /** Where Resume re-enters the loop (resume/checkpoint.go). */
  datatype Entry = EntryExecute | EntryVerifyOnly | EntryAfterExecuteSuccess

  predicate IsInterruptRow(row: PhaseRow) {
    row.status == PhaseFailed && row.summary == Some(INTERRUPT_REASON)
  }

  function Checkpoint(db: CycleDb): Option<Entry> {
    if db.cycle != CycleRunning || db.rows == [] || !NoRunning(db.rows) then None
    else
      var last := db.rows[|db.rows| - 1];
      if IsInterruptRow(last) then
        (match last.phase
         case Execute => Some(EntryExecute)
         case Verify => Some(EntryVerifyOnly)
         case Unset => None)
      else if last.phase == Execute && last.status == PhaseSucceeded then Some(EntryAfterExecuteSuccess)
      else None
  }

  predicate Resumable(last: PhaseRow) {
    last.status == PhaseRunning || IsInterruptRow(last) || (last.phase == Execute && last.status == PhaseSucceeded)
  }

  predicate SkipsExecute(entry: Entry) {
    entry != EntryExecute
  }

  lemma RunningIsLast(db: CycleDb)
    requires DbOk(db)
    ensures !NoRunning(db.rows) ==> db.rows != [] && db.rows[|db.rows| - 1].status == PhaseRunning
    ensures forall i :: 0 <= i < |db.rows| - 1 ==> TerminalPhaseStatus(db.rows[i].status)
  {
    forall i | 0 <= i < |db.rows| ensures i < |db.rows| - 1 ==> TerminalPhaseStatus(db.rows[i].status) {
      assert RowLegal(db.rows, i);
    }
  }

  /** Closing the last row as interrupted keeps every row legal. */
  lemma ClosedRowsLegal(rows: seq<PhaseRow>, i: nat, last: PhaseRow)
    requires LogOk(rows) && i < |rows|
    requires last == rows[|rows| - 1].(status := PhaseFailed, summary := Some(INTERRUPT_REASON))
    ensures RowLegal(rows[|rows| - 1 := last], i)
  {
    assert RowLegal(rows, i);
  }

  lemma FinalizedKeepsOk(db: CycleDb)
    requires DbOk(db) && db.cycle == CycleRunning
    ensures DbOk(Finalized(db)) && Extends(db, Finalized(db)) && NoRunning(Finalized(db).rows)
    ensures !NoRunning(db.rows) ==> db.rows != [] && db.rows[|db.rows| - 1].status == PhaseRunning
  {
    RunningIsLast(db);
    hide RowLegal;
    if db.rows != [] && db.rows[|db.rows| - 1].status == PhaseRunning {
      var last := db.rows[|db.rows| - 1].(status := PhaseFailed, summary := Some(INTERRUPT_REASON));
      forall i | 0 <= i < |db.rows| ensures RowLegal(Finalized(db).rows, i) {
        ClosedRowsLegal(db.rows, i, last);
      }
    }
  }

  /** Wherever the process died, after finalize the interrupted phase kind may be opened again,
      and so may the phase a checkpoint begins with. A checkpoint exists exactly when the last row
      was running, interrupted before, or a succeeded execute. */
  lemma CrashThenFinalizeReopens(db: CycleDb)
    requires DbOk(db) && db.cycle == CycleRunning
    ensures var f := Finalized(db);
            && (!NoRunning(db.rows) ==> db.rows != [] && CanStart(f, db.rows[|db.rows| - 1].phase))
            && (Checkpoint(f).Some? ==> CanStart(f, if SkipsExecute(Checkpoint(f).value) then Verify else Execute))
            && (Checkpoint(f).Some? <==> (db.rows != [] && Resumable(db.rows[|db.rows| - 1])))
  {
    FinalizedKeepsOk(db);
    if db.rows != [] {
      assert RowLegal(db.rows, |db.rows| - 1);
    }
  }

  /** What a failed verify round leaves behind, given whether its two writes took effect. */
  function AfterFailedVerify(db: CycleDb, startLands: bool, completeLands: bool, summary: Option<string>): CycleDb
    requires CanStart(db, Verify)
  {
    if !startLands then db
    else
      var row := PhaseRow(Verify, NextSeq(db.rows), PhaseRunning, None);
      db.(rows := db.rows + [if completeLands then row.(status := PhaseFailed, summary := summary) else row])
  }

  /** `db'` is what some failed verify round makes of `db`. */
  ghost predicate FailedVerifyLeft(db: CycleDb, db': CycleDb)
    requires CanStart(db, Verify)
  {
    exists startLands, completeLands, summary :: db' == AfterFailedVerify(db, startLands, completeLands, summary)
  }

  function PhaseAfter(skipExecute: bool): Phase {
    if skipExecute then Verify else Execute
  }

  predicate LastReopensExecute(db: CycleDb) {
    db.rows != [] && var last := db.rows[|db.rows| - 1]; last.phase == Verify || IsInterruptRow(last)
  }

  /** The start that the loop asks for next is legal exactly if no row was left running and either
      execute is skipped or the last row is a verify (or was interrupted). */
  predicate NextStartLegalIff(db: CycleDb, skipExecute: bool) {
    CanStart(db, PhaseAfter(skipExecute)) <==> NoRunning(db.rows) && (skipExecute || LastReopensExecute(db))
  }

  /** When the loop's next request after a failed round is legal. After an execute: when both writes of
      the round took effect, or when neither did and execute is skipped. So a lost start followed by a
      full re-execute, and any lost completion, end in a refused request. */
  lemma RetryRequestLegal(db: CycleDb, startLands: bool, completeLands: bool, summary: Option<string>,
                          skipExecute: bool)
    requires DbOk(db) && CanStart(db, Verify)
    ensures var after, next := AfterFailedVerify(db, startLands, completeLands, summary), PhaseAfter(skipExecute);
            && NextStartLegalIff(after, skipExecute)
            && (CanStart(after, next) <==> (if startLands then completeLands else CanStart(db, next)))
            && (LastRow(db.rows).value.phase == Execute && LastRow(db.rows).value.status == PhaseSucceeded ==>
                  (CanStart(after, next) <==> (if startLands then completeLands else skipExecute)))
  {
    var after := AfterFailedVerify(db, startLands, completeLands, summary);
    if startLands {
      assert after.rows[|db.rows|].phase == Verify;
      assert !completeLands ==> after.rows[|db.rows|].status == PhaseRunning;
      forall i | 0 <= i < |db.rows| ensures after.rows[i].status != PhaseRunning {
        assert after.rows[i] == db.rows[i];
      }
    }
  }

  /** Whatever became of the two writes, the next request is legal exactly under that condition. */
  lemma FailedRoundLegality(db: CycleDb, db': CycleDb, skipExecute: bool)
    requires DbOk(db) && CanStart(db, Verify) && FailedVerifyLeft(db, db')
    ensures NextStartLegalIff(db', skipExecute)
  {
    var startLands, completeLands, summary :| db' == AfterFailedVerify(db, startLands, completeLands, summary);
    RetryRequestLegal(db, startLands, completeLands, summary, skipExecute);
  }
}
