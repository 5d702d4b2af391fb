/** The startup sweep of pkgs/agents/worker/sweep.go over the rows of every cycle. */
module Sweep {
  import opened Wrappers
  import opened PhaseRules
  import opened CycleStore

  /** What ListRunningCyclePhases returns: cycle id and number of running rows, none twice ... */
  ghost predicate ListsOnlyRunning(cycles: map<string, CycleDb>, listing: seq<(string, int)>) {
    && (forall i :: 0 <= i < |listing| ==> listing[i].0 in cycles && Interrupted(cycles[listing[i].0], listing[i].1))
    && (forall i, j :: 0 <= i < j < |listing| ==> listing[i].0 != listing[j].0)
  }

  /** ... and of every running row. */
  ghost predicate ListsAllRunning(cycles: map<string, CycleDb>, listing: seq<(string, int)>) {
    forall id :: id in cycles && !NoRunning(cycles[id].rows) ==> exists i :: 0 <= i < |listing| && listing[i].0 == id
  }

  /** Row seqNo is the running one. */
  ghost predicate Interrupted(db: CycleDb, seqNo: int) {
    DbOk(db) && !NoRunning(db.rows) && seqNo == |db.rows|
  }

  /** Closing the running row as interrupted is what Finalized describes. */
  lemma ClosingFinalizes(db: CycleDb)
    requires DbOk(db) && !NoRunning(db.rows)
    ensures Complete(db, |db.rows|, PhaseFailed, Some(INTERRUPT_REASON)) == Ok(Finalized(db)) && Finalized(db) != db
  {
    var i :| 0 <= i < |db.rows| && db.rows[i].status == PhaseRunning;
    assert RowLegal(db.rows, i);
    assert Finalized(db).rows[i] != db.rows[i];
  }

  /** One CompletePhase of the sweep; a failed write is only logged. */
  method CloseInterrupted(db: CycleDb, seqNo: int, writeFails: bool) returns (after: CycleDb, closed: bool)
    requires Interrupted(db, seqNo)
    ensures closed <==> !writeFails
    ensures after == if closed then Finalized(db) else db
    ensures closed <==> after != db
  {
    ClosingFinalizes(db);
    var result := Complete(db, seqNo, PhaseFailed, Some(INTERRUPT_REASON));
    after, closed := db, false;
    if result.Ok? && !writeFails {
      after, closed := result.value, true;
    }
  }

  /** Every cycle is finalized or as it was. */
  ghost predicate Swept(cycles: map<string, CycleDb>, after: map<string, CycleDb>) {
    after.Keys == cycles.Keys && forall id :: id in cycles ==> after[id] in {cycles[id], Finalized(cycles[id])}
  }

  ghost function Changed(cycles: map<string, CycleDb>, after: map<string, CycleDb>): set<string> {
    set id | id in cycles && id in after && after[id] != cycles[id]
  }

  lemma NothingChanged(cycles: map<string, CycleDb>)
    ensures Changed(cycles, cycles) == {}
  {
  }

  lemma OneMoreChanged(cycles: map<string, CycleDb>, after: map<string, CycleDb>, id: string, db: CycleDb)
    requires id in cycles && db != cycles[id]
    ensures Changed(cycles, after[id := db]) == Changed(cycles, after) + {id}
  {
  }

  /** What a sweep has not changed is as it was. */
  lemma UnchangedIsOld(cycles: map<string, CycleDb>, after: map<string, CycleDb>, id: string)
    requires Swept(cycles, after) && id in cycles && id !in Changed(cycles, after)
    ensures id in after && after[id] == cycles[id]
  {
  }

  /** `writeFails(i)` and `cancelled(i)` say what befalls the i-th listed row. Only listed cycles
      change, and all of them do when nothing goes wrong; the count is that of the changed ones. */
  method FinalizeInterruptedPhases(cycles: map<string, CycleDb>, listing: seq<(string, int)>,
                                   writeFails: nat -> bool, cancelled: nat -> bool)
    returns (after: map<string, CycleDb>, phasesFinalized: nat, err: bool)
    requires ListsOnlyRunning(cycles, listing)
    ensures Swept(cycles, after) && phasesFinalized == |Changed(cycles, after)|
    ensures forall id :: id in Changed(cycles, after) ==> exists i :: 0 <= i < |listing| && listing[i].0 == id
    ensures (forall i :: !writeFails(i) && !cancelled(i)) ==>
              && !err && phasesFinalized == |listing|
              && forall i :: 0 <= i < |listing| ==> listing[i].0 in Changed(cycles, after)
  {
    hide Finalized, Interrupted, DbOk, Changed, NoRunning;
    NothingChanged(cycles);
    after, phasesFinalized, err := cycles, 0, false;
    ghost var changed: set<string> := {};
    var i := 0;
    while i < |listing|
      invariant 0 <= i <= |listing| && !err
      invariant Swept(cycles, after) && phasesFinalized == |changed| && changed == Changed(cycles, after)
      invariant forall k :: i <= k < |listing| ==> listing[k].0 !in changed
      invariant forall id :: id in changed ==> exists k :: 0 <= k < i && listing[k].0 == id
      invariant (forall k :: !writeFails(k) && !cancelled(k)) ==>
                  phasesFinalized == i && forall k :: 0 <= k < i ==> listing[k].0 in changed
    {
      if cancelled(i) {
        err := true;
        break;
      }
      var (id, seqNo) := listing[i];
      UnchangedIsOld(cycles, after, id);
      var db, closed := CloseInterrupted(after[id], seqNo, writeFails(i));
      if closed {
        OneMoreChanged(cycles, after, id, db);
        after := after[id := db];
        phasesFinalized := phasesFinalized + 1;
        changed := changed + {id};
      }
      i := i + 1;
    }
  }

  /** A sweep that changed every listed cycle leaves no row running, so that a second one finds none. */
  lemma SweptLeavesNoneRunning(cycles: map<string, CycleDb>, listing: seq<(string, int)>, after: map<string, CycleDb>)
    requires (forall id :: id in cycles ==> DbOk(cycles[id])) && ListsAllRunning(cycles, listing)
    requires Swept(cycles, after) && forall i :: 0 <= i < |listing| ==> listing[i].0 in Changed(cycles, after)
    ensures forall id :: id in after ==> NoRunning(after[id].rows)
    ensures ListsAllRunning(after, [])
  {
    forall id | id in after ensures NoRunning(after[id].rows) {
      if id in Changed(cycles, after) { FinalizedLeavesNoneRunning(cycles[id]); }
    }
  }

  lemma FinalizedLeavesNoneRunning(db: CycleDb)
    requires DbOk(db)
    ensures NoRunning(Finalized(db).rows)
  {
    forall i | 0 <= i < |db.rows| ensures Finalized(db).rows[i].status != PhaseRunning {
      assert RowLegal(db.rows, i);
    }
  }
}
