/** The phase and cycle state rules of pkgs/tasks/domain/cycle_state.go. */
module PhaseRules {
  import opened Wrappers

  /** `Unset` is the empty phase: no prior phase. */
  datatype Phase = Unset | Execute | Verify

  datatype PhaseStatus = PhaseRunning | PhaseSucceeded | PhaseFailed | PhaseSkipped

  datatype CycleStatus = CycleRunning | CycleSucceeded | CycleFailed | CycleAborted

  datatype PhaseRow = PhaseRow(phase: Phase, seqNo: int, status: PhaseStatus, summary: Option<string>)

  const INTERRUPT_REASON := "process_restart"

  predicate ValidPhaseTransition(prev: Phase, next: Phase) {
    if next == Unset then false
    else if prev == Unset then next == Execute
    else match prev
      case Execute => next == Verify
      case Verify => next == Execute
      case Unset => false
  }

  predicate TerminalPhaseStatus(s: PhaseStatus) {
    s == PhaseSucceeded || s == PhaseFailed || s == PhaseSkipped
  }

  predicate TerminalCycleStatus(s: CycleStatus) {
    s == CycleSucceeded || s == CycleFailed || s == CycleAborted
  }

  predicate ValidInterruptResumeTransition(last: Option<PhaseRow>, next: Phase) {
    if last == None || next == Unset then false
    else if last.value.phase != next then false
    else if !TerminalPhaseStatus(last.value.status) || last.value.status != PhaseFailed then false
    else last.value.summary == Some(INTERRUPT_REASON)
  }

  predicate ValidVerifyOnlyRetryTransition(last: Option<PhaseRow>, next: Phase) {
    if last == None || next != Verify then false
    else if last.value.phase != Verify then false
    else TerminalPhaseStatus(last.value.status) && last.value.status == PhaseFailed
  }
}
