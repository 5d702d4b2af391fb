/** The pure decisions of pkgs/agents/harness/internal/orchestration and the adapters that feed them. */
module Orchestration {
  import opened PhaseRules
  import opened CycleStore

  datatype RunError =
    | NoRunError | ErrStale | ErrTimeout | ErrNonZeroExit | ErrInvalidOutput | ErrResumeSession | ErrOther

  datatype RunnerOutcome = OutcomeOk | OutcomeTimeout | OutcomeNonZeroExit | OutcomeInvalidOutput | OutcomeError

  datatype IngestSummary = IngestSummary(snapshotSkipped: bool, attempted: bool, failed: bool, failReason: string)

  datatype ExecuteInput = ExecuteInput(
    outcome: RunnerOutcome,
    operatorCancelled: bool,
    contextCancelled: bool,
    evidenceRecovery: bool,
    ingest: IngestSummary)

  /** `failTask` is TransitionTask set to failed. */
  datatype ExecuteEffects =
    ExecuteEffects(continueToVerify: bool, stopLoop: bool, terminateFailed: bool, failTask: bool)

  const GO_ON := ExecuteEffects(true, false, false, false)
  const STOP := ExecuteEffects(false, true, false, false)
  const FAIL := ExecuteEffects(false, false, true, true)

  function MapRunnerOutcome(err: RunError): RunnerOutcome {
    match err
    case NoRunError => OutcomeOk
    case ErrStale => OutcomeOk
    case ErrTimeout => OutcomeTimeout
    case ErrNonZeroExit => OutcomeNonZeroExit
    case ErrInvalidOutput => OutcomeInvalidOutput
    case _ => OutcomeError
  }

  function DecideExecuteIngest(ingest: IngestSummary): ExecuteEffects {
    if ingest.snapshotSkipped || !ingest.attempted then GO_ON
    else if ingest.failed || ingest.failReason != "" then FAIL
    else GO_ON
  }

  /** Exactly one of continue, terminate and stop; a termination always fails the task; and going
      on to verify takes an undisturbed run whose commits, if looked at, were all admitted. */
  function DecideExecutePostRun(x: ExecuteInput): (e: ExecuteEffects)
    ensures e.stopLoop <==> x.contextCancelled
    ensures e.continueToVerify <==>
              && !x.contextCancelled && !x.operatorCancelled
              && (x.evidenceRecovery || x.outcome == OutcomeOk)
              && (x.ingest.snapshotSkipped || !x.ingest.attempted || (!x.ingest.failed && x.ingest.failReason == ""))
    ensures e.terminateFailed <==> !e.stopLoop && !e.continueToVerify
    ensures e.failTask <==> e.terminateFailed
  {
    if x.contextCancelled then STOP
    else if x.evidenceRecovery then
      if x.operatorCancelled then FAIL else DecideExecuteIngest(x.ingest)
    else if x.outcome != OutcomeOk then FAIL
    else if x.operatorCancelled then FAIL
    else DecideExecuteIngest(x.ingest)
  }

  datatype VerifyResult = VerifyPass | VerifyFailRetryable | VerifyFailTampered

  datatype VerifyEffects = VerifyEffects(retryLoop: bool, skipNextExecute: bool, terminalFailure: bool, tampered: bool)

  function DecideVerifyRetry(attempt: int, maxRetries: int, result: VerifyResult): VerifyEffects {
    match result
    case VerifyPass => VerifyEffects(false, false, false, false)
    case VerifyFailTampered => VerifyEffects(false, false, true, true)
    case VerifyFailRetryable =>
      if attempt < maxRetries then VerifyEffects(true, false, false, false)
      else VerifyEffects(false, false, true, false)
  }

  /** The loop goes round again only while attempts are left; any other failure is terminal; and an
      execute is skipped only on the way into another round. */
  function DecideVerifyRetryWithValidity(attempt: int, maxRetries: int, result: VerifyResult, executeStillValid: bool)
    : (e: VerifyEffects)
    ensures e.retryLoop ==> attempt < maxRetries && result == VerifyFailRetryable
    ensures e.skipNextExecute ==> e.retryLoop
    ensures e.terminalFailure <==> result != VerifyPass && !e.retryLoop
    ensures e.tampered ==> e.terminalFailure
  {
    var e := DecideVerifyRetry(attempt, maxRetries, result);
    if e.retryLoop && executeStillValid then e.(skipNextExecute := true) else e
  }

  datatype FailureClass = Infra | Implementation

  datatype ClassifyInput = ClassifyInput(
    failureClass: FailureClass,
    reportValid: bool,
    headMatches: bool,
    ingestOk: bool,
    reachedVerify: bool)

  function ClassifyFailureClass(verdicts: seq<Verdict>, pipelineFailed: bool): FailureClass {
    if exists i :: 0 <= i < |verdicts| && !verdicts[i].passed && verdicts[i].verifier in {AgentSelf, VerifyAgent}
    then Implementation
    else if pipelineFailed then Infra
    else Implementation
  }

  /** ClassifyVerifyRetryMode: true for a verify-only retry. */
  predicate VerifyOnlyRetry(x: ClassifyInput) {
    if !x.reachedVerify then false
    else if !x.reportValid then false
    else if !x.headMatches then false
    else if !x.ingestOk then false
    else x.failureClass != Implementation
  }

  datatype FinalizeEffects = FinalizeEffects(cycleStatus: CycleStatus, taskStatus: TaskStatus)

  /** A cycle succeeds together with its task, and fails together with it. */
  function DecideFinalizeSuccess(completionFailed: bool): (e: FinalizeEffects)
    ensures TerminalCycleStatus(e.cycleStatus) && e.cycleStatus != CycleAborted
    ensures e.cycleStatus == CycleSucceeded <==> e.taskStatus == TaskDone
    ensures e.cycleStatus == CycleFailed <==> e.taskStatus == TaskFailed
  {
    if completionFailed then FinalizeEffects(CycleFailed, TaskFailed)
    else FinalizeEffects(CycleSucceeded, TaskDone)
  }
}
