/** The paginated reconcile of pkgs/agents/reconcile.go over the ready-task listing of
    pkgs/tasks/store/internal/ready/ready.go, which is stable while it runs. */
module Reconcile {
  import opened Wrappers
  import opened TextOrder
  import opened MemoryQueue

  /** A ready task with its sort key: creation time, event row id (0 outside SQLite) and task id. */
  datatype Candidate = Candidate(task: Task, createdAt: int, eventRowID: nat)

  const MAX_LIMIT := 500
  const DEFAULT_LIMIT := 200

  /** The keyset condition `(at, row, id) > cursor`; without row ids `(at, id) > cursor`. */
  predicate After(useRow: bool, c: Candidate, cursor: Candidate) {
    if useRow && cursor.eventRowID > 0 then
      || c.createdAt > cursor.createdAt
      || (c.createdAt == cursor.createdAt && c.eventRowID > cursor.eventRowID)
      || (c.createdAt == cursor.createdAt && c.eventRowID == cursor.eventRowID && Less(cursor.task.id, c.task.id))
    else
      c.createdAt > cursor.createdAt || (c.createdAt == cursor.createdAt && Less(cursor.task.id, c.task.id))
  }

  /** The listing order; row ids are used for all rows or for none. */
  ghost predicate Listed(useRow: bool, cs: seq<Candidate>) {
    && (forall i :: 0 <= i < |cs| ==> (useRow <==> cs[i].eventRowID > 0))
    && (forall i, j :: 0 <= i < j < |cs| ==> After(useRow, cs[j], cs[i]))
    && (forall i, j :: 0 <= i < j < |cs| ==> cs[i].task.id != cs[j].task.id)
  }

  function Following(useRow: bool, cs: seq<Candidate>, cursor: Option<Candidate>): seq<Candidate> {
    if cs == [] then []
    else
      var rest := Following(useRow, cs[1..], cursor);
      if cursor.Some? && !After(useRow, cs[0], cursor.value) then rest else [cs[0]] + rest
  }

  function Clamp(limit: int): nat {
    if limit <= 0 then DEFAULT_LIMIT else if limit > MAX_LIMIT then MAX_LIMIT else limit
  }

  function Take<T>(s: seq<T>, n: int): seq<T> {
    if n <= 0 then [] else if n < |s| then s[..n] else s
  }

  /** ListQueueCandidates: at most 500 rows, whatever the caller asks for. */
  function ListQueueCandidates(useRow: bool, cs: seq<Candidate>, limit: int, cursor: Option<Candidate>)
    : seq<Candidate>
  {
    Take(Following(useRow, cs, cursor), Clamp(limit))
  }

  lemma {:induction false} AfterIsStrict(useRow: bool, a: Candidate, b: Candidate)
    requires After(useRow, b, a) && (useRow <==> a.eventRowID > 0) && (useRow <==> b.eventRowID > 0)
    ensures !After(useRow, a, b)
  {
    LessTrichotomy(a.task.id, b.task.id);
  }

  /** Resuming after the k-th row continues with the row that follows it. */
  lemma {:induction false} FollowingIsSuffix(useRow: bool, cs: seq<Candidate>, lo: nat, k: nat)
    requires Listed(useRow, cs) && lo <= |cs| && 0 < k <= |cs|
    ensures Following(useRow, cs[lo..], Some(cs[k - 1])) == if lo < k then cs[k..] else cs[lo..]
    decreases |cs| - lo
  {
    if lo < |cs| {
      FollowingIsSuffix(useRow, cs, lo + 1, k);
      assert cs[lo..][1..] == cs[lo + 1..] && cs[lo..] == [cs[lo]] + cs[lo + 1..];
      if lo < k - 1 {
        AfterIsStrict(useRow, cs[lo], cs[k - 1]);
      } else if lo == k - 1 {
        LessTrichotomy(cs[lo].task.id, cs[lo].task.id);
      }
    }
  }

  lemma {:induction false} FollowingNone(useRow: bool, cs: seq<Candidate>)
    ensures Following(useRow, cs, None) == cs
    decreases |cs|
  {
    if cs != [] {
      FollowingNone(useRow, cs[1..]);
    }
  }

  // ----- one simple pass -----

  /** The candidates that are not among the given ids, in order. */
  function Fresh(cs: seq<Candidate>, queued: set<string>): seq<Task> {
    if cs == [] then []
    else
      var before, c := Fresh(cs[..|cs| - 1], queued), cs[|cs| - 1];
      if c.task.id in queued then before else before + [c.task]
  }

  /** The queue after offering every candidate once: the new ones, as far as there is room. */
  function Pass(ch: seq<Task>, bufCap: nat, cs: seq<Candidate>): seq<Task> {
    ch + Take(Fresh(cs, Ids(ch)), bufCap - |ch|)
  }

  lemma {:induction false} FreshSplits(a: seq<Candidate>, b: seq<Candidate>, queued: set<string>)
    ensures Fresh(a + b, queued) == Fresh(a, queued) + Fresh(b, queued)
    decreases |b|
  {
    if b == [] {
      assert a + b == a;
    } else {
      FreshSplits(a, b[..|b| - 1], queued);
      assert (a + b)[..|a + b| - 1] == a + b[..|b| - 1];
    }
  }

  lemma {:induction false} FreshIds(cs: seq<Candidate>, queued: set<string>, id: string)
    ensures (exists i :: 0 <= i < |Fresh(cs, queued)| && Fresh(cs, queued)[i].id == id)
       <==> (exists i :: 0 <= i < |cs| && cs[i].task.id == id && id !in queued)
    decreases |cs|
  {
    if cs != [] {
      var init, f := cs[..|cs| - 1], Fresh(cs, queued);
      FreshIds(init, queued, id);
      var g := Fresh(init, queued);
      assert forall i :: 0 <= i < |g| ==> f[i] == g[i];
      assert forall i :: 0 <= i < |init| ==> cs[i] == init[i];
      if cs[|cs| - 1].task.id !in queued { assert f[|g|] == cs[|cs| - 1].task; }
    }
  }

  datatype ReconcileResult =
    ReconcileResult(scanned: nat, enqueued: nat, skippedAlreadyQueued: nat, stoppedOnQueueFull: bool)

  datatype ReconcileError = ListFailed | NotifyFailed(cause: QueueError)

  /** What the paging loop gets to see: with a page size over 500 the first page comes back
      short, which is taken for the last one. */
  function Visible(cs: seq<Candidate>, pageSize: int): seq<Candidate> {
    if pageSize > MAX_LIMIT then Take(cs, MAX_LIMIT) else cs
  }

  /** After the first k visible candidates have been offered. */
  ghost predicate Offered(ch0: seq<Task>, ch: seq<Task>, cs: seq<Candidate>, enqueued: nat, skipped: nat) {
    var k := enqueued + skipped;
    && k <= |cs|
    && ch == ch0 + Fresh(cs[..k], Ids(ch0))
    && enqueued == |Fresh(cs[..k], Ids(ch0))|
  }

  lemma OfferedIds(ch0: seq<Task>, ch: seq<Task>, cs: seq<Candidate>, enqueued: nat, skipped: nat, useRow: bool)
    requires Offered(ch0, ch, cs, enqueued, skipped) && Listed(useRow, cs)
    ensures forall i :: 0 <= i < enqueued + skipped ==> cs[i].task.id in Ids(ch)
    ensures var k := enqueued + skipped; k < |cs| ==> (cs[k].task.id in Ids(ch) <==> cs[k].task.id in Ids(ch0))
  {
    var k := enqueued + skipped;
    var f := Fresh(cs[..k], Ids(ch0));
    IdsOfConcat(ch0, f);
    forall i | 0 <= i < k ensures cs[i].task.id in Ids(ch) {
      FreshIds(cs[..k], Ids(ch0), cs[i].task.id);
      assert cs[..k][i].task.id == cs[i].task.id;
      IdsHave(f, cs[i].task.id);
    }
    if k < |cs| {
      FreshIds(cs[..k], Ids(ch0), cs[k].task.id);
      IdsHave(f, cs[k].task.id);
    }
  }

  lemma IdsHave(buf: seq<Task>, id: string)
    ensures id in Ids(buf) <==> exists i :: 0 <= i < |buf| && buf[i].id == id
  {
  }

  lemma IdsOfConcat(a: seq<Task>, b: seq<Task>)
    ensures Ids(a + b) == Ids(a) + Ids(b)
  {
    forall id ensures id in Ids(a + b) <==> id in Ids(a) || id in Ids(b) {
      if id in Ids(a) {
        var i :| 0 <= i < |a| && a[i].id == id;
        assert (a + b)[i].id == id;
      }
      if id in Ids(b) {
        var i :| 0 <= i < |b| && b[i].id == id;
        assert (a + b)[|a| + i].id == id;
      }
    }
  }

  /** One NotifyReadyTask of the scan. */
  lemma OfferOne(ch0: seq<Task>, ch: seq<Task>, cs: seq<Candidate>, enqueued: nat, skipped: nat, useRow: bool)
    requires Offered(ch0, ch, cs, enqueued, skipped) && Listed(useRow, cs) && enqueued + skipped < |cs|
    ensures var task := cs[enqueued + skipped].task;
            if task.id in Ids(ch) then Offered(ch0, ch, cs, enqueued, skipped + 1)
            else Offered(ch0, ch + [task], cs, enqueued + 1, skipped)
  {
    var k := enqueued + skipped;
    OfferedIds(ch0, ch, cs, enqueued, skipped, useRow);
    assert cs[..k + 1][..k] == cs[..k];
  }

  /** Offering a prefix until a candidate meets a full queue, or everything, is the pass. */
  lemma OfferedIsPass(ch0: seq<Task>, ch: seq<Task>, cs: seq<Candidate>, enqueued: nat, skipped: nat, useRow: bool,
                      bufCap: nat)
    requires Offered(ch0, ch, cs, enqueued, skipped) && Listed(useRow, cs) && |ch| <= bufCap
    requires var k := enqueued + skipped; k == |cs| || (|ch| == bufCap && cs[k].task.id !in Ids(ch))
    ensures ch == Pass(ch0, bufCap, cs)
    ensures enqueued + skipped < |cs| <==> |Fresh(cs, Ids(ch0))| > bufCap - |ch0|
  {
    hide Fresh, Listed, Ids, Pass;
    var k := enqueued + skipped;
    if k < |cs| {
      OfferedIds(ch0, ch, cs, enqueued, skipped, useRow);
      FreshStarts(cs[k..], Ids(ch0));
    } else {
      FreshAtMost(cs[k..], Ids(ch0));
    }
    FreshSplitsAt(cs, k, Ids(ch0));
    PassFromParts(ch0, ch, cs, Fresh(cs[..k], Ids(ch0)), Fresh(cs[k..], Ids(ch0)), bufCap);
  }

  lemma FreshSplitsAt(cs: seq<Candidate>, k: nat, queued: set<string>)
    requires k <= |cs|
    ensures Fresh(cs, queued) == Fresh(cs[..k], queued) + Fresh(cs[k..], queued)
  {
    hide Fresh;
    assert cs == cs[..k] + cs[k..];
    FreshSplits(cs[..k], cs[k..], queued);
  }

  lemma PassFromParts(ch0: seq<Task>, ch: seq<Task>, cs: seq<Candidate>, a: seq<Task>, b: seq<Task>, bufCap: nat)
    requires Fresh(cs, Ids(ch0)) == a + b && ch == ch0 + a && |ch| <= bufCap && (b == [] || |ch| == bufCap)
    ensures ch == Pass(ch0, bufCap, cs) && (|Fresh(cs, Ids(ch0))| > bufCap - |ch0| <==> b != [])
  {
    hide Fresh, Ids, Take;
    TakeFront(a, b, bufCap - |ch0|);
  }

  lemma TakeFront(a: seq<Task>, b: seq<Task>, room: nat)
    requires |a| <= room && (b == [] || |a| == room)
    ensures Take(a + b, room) == a && (|a + b| > room <==> b != [])
  {
    assert b == [] ==> a + b == a;
  }

  lemma FreshStarts(cs: seq<Candidate>, queued: set<string>)
    requires cs != [] && cs[0].task.id !in queued
    ensures Fresh(cs, queued) != []
  {
    hide Fresh;
    assert cs == [cs[0]] + cs[1..];
    FreshSplits([cs[0]], cs[1..], queued);
    FreshOne(cs[0], queued);
  }

  lemma FreshOne(c: Candidate, queued: set<string>)
    requires c.task.id !in queued
    ensures Fresh([c], queued) == [c.task]
  {
    assert [c][..0] == [];
  }

  /** How a scan ended: with everything offered, at a full queue, or by an error. */
  datatype ScanEnd = GoOn | QueueFull | Failed(cause: QueueError)

  /** The counters and the queue at the end of a scan of the visible candidates. */
  ghost predicate ScanState(ch0: seq<Task>, ch: seq<Task>, cs: seq<Candidate>, bufCap: nat, res: ReconcileResult,
                            end: ScanEnd)
  {
    var k := res.enqueued + res.skippedAlreadyQueued;
    && Offered(ch0, ch, cs, res.enqueued, res.skippedAlreadyQueued) && |ch| <= bufCap
    && (res.stoppedOnQueueFull <==> end.QueueFull?)
    && res.scanned == k + (if end.GoOn? then 0 else 1)
    && (end.QueueFull? ==> k < |cs| && |ch| == bufCap && cs[k].task.id !in Ids(ch))
  }

  method OfferRow(row: Candidate, q: Queue, res0: ReconcileResult, contextDone: nat -> bool,
                  ghost ch0: seq<Task>, ghost cs: seq<Candidate>, ghost useRow: bool)
    returns (res: ReconcileResult, end: ScanEnd)
    requires q.Valid() && Listed(useRow, cs) && ScanState(ch0, q.ch, cs, q.bufCap, res0, GoOn)
    requires res0.scanned < |cs| && row == cs[res0.scanned]
    modifies q
    ensures q.Valid() && ScanState(ch0, q.ch, cs, q.bufCap, res, end) && res.scanned == res0.scanned + 1
  {
    hide Offered, Listed, Ids;
    OfferOne(ch0, q.ch, cs, res0.enqueued, res0.skippedAlreadyQueued, useRow);
    res := res0.(scanned := res0.scanned + 1);
    var err := q.NotifyReadyTask(contextDone(res0.scanned), row.task);
    match err {
      case None => res, end := res.(enqueued := res.enqueued + 1), GoOn;
      case Some(ErrAlreadyQueued) => res, end := res.(skippedAlreadyQueued := res.skippedAlreadyQueued + 1), GoOn;
      case Some(ErrQueueFull) => res, end := res.(stoppedOnQueueFull := true), QueueFull;
      case Some(cause) => end := Failed(cause);
    }
  }

  /** The inner loop over one page. */
  method OfferPage(batch: seq<Candidate>, q: Queue, res0: ReconcileResult, contextDone: nat -> bool,
                   ghost ch0: seq<Task>, ghost cs: seq<Candidate>, ghost useRow: bool)
    returns (res: ReconcileResult, end: ScanEnd)
    requires q.Valid() && Listed(useRow, cs) && ScanState(ch0, q.ch, cs, q.bufCap, res0, GoOn)
    requires res0.scanned + |batch| <= |cs| && batch == cs[res0.scanned..res0.scanned + |batch|]
    modifies q
    ensures q.Valid() && ScanState(ch0, q.ch, cs, q.bufCap, res, end)
    ensures end.GoOn? ==> res.scanned == res0.scanned + |batch|
  {
    res, end := res0, GoOn;
    var i := 0;
    while i < |batch|
      invariant 0 <= i <= |batch| && res.scanned == res0.scanned + i && end.GoOn?
      invariant q.Valid() && ScanState(ch0, q.ch, cs, q.bufCap, res, end)
    {
      res, end := OfferRow(batch[i], q, res, contextDone, ch0, cs, useRow);
      if !end.GoOn? {
        return;
      }
      i := i + 1;
    }
  }

  function PageSize(pageSize: int): nat {
    if pageSize <= 0 then DEFAULT_LIMIT else pageSize
  }

  /** What remains to be listed after the first k candidates. */
  ghost predicate AtCursor(useRow: bool, cs: seq<Candidate>, pageSize: nat, cursor: Option<Candidate>, k: nat) {
    k <= |cs| && Following(useRow, cs, cursor) == cs[k..] && (k > 0 ==> pageSize <= MAX_LIMIT)
  }

  /** A page is the next slice of the visible candidates; a short one is the last; a full one ends
      in the cursor of the next. */
  lemma PageIsSlice(useRow: bool, cs: seq<Candidate>, pageSize: int, cursor: Option<Candidate>, k: nat)
    requires Listed(useRow, cs) && AtCursor(useRow, cs, PageSize(pageSize), cursor, k)
    ensures var batch, visible := ListQueueCandidates(useRow, cs, PageSize(pageSize), cursor), Visible(cs, pageSize);
            && k + |batch| <= |visible| && batch == visible[k..k + |batch|]
            && (|batch| < PageSize(pageSize) ==> k + |batch| == |visible|)
            && (|batch| >= PageSize(pageSize) ==>
                  batch != [] && AtCursor(useRow, cs, PageSize(pageSize), Some(batch[|batch| - 1]), k + |batch|))
  {
    hide Following, Listed;
    var batch := ListQueueCandidates(useRow, cs, PageSize(pageSize), cursor);
    assert batch == Take(cs[k..], Clamp(PageSize(pageSize)));
    assert batch == cs[k..k + |batch|];
    if |batch| >= PageSize(pageSize) {
      FollowingIsSuffix(useRow, cs, 0, k + |batch|);
      assert cs[0..] == cs && batch[|batch| - 1] == cs[k + |batch| - 1];
    }
  }

  /** One round of the paging loop: list a page, offer it, move the cursor. */
  method ScanPage(cs: seq<Candidate>, useRow: bool, q: Queue, pageSize0: int, cursor0: Option<Candidate>,
                  res0: ReconcileResult, contextDone: nat -> bool, ghost ch0: seq<Task>)
    returns (res: ReconcileResult, end: ScanEnd, cursor: Option<Candidate>, last: bool)
    requires q.Valid() && Listed(useRow, cs) && AtCursor(useRow, cs, PageSize(pageSize0), cursor0, res0.scanned)
    requires ScanState(ch0, q.ch, Visible(cs, pageSize0), q.bufCap, res0, GoOn)
    modifies q
    ensures q.Valid() && ScanState(ch0, q.ch, Visible(cs, pageSize0), q.bufCap, res, end)
    ensures end.GoOn? && last ==> res.scanned == |Visible(cs, pageSize0)|
    ensures end.GoOn? && !last ==>
              res0.scanned < res.scanned <= |cs| && AtCursor(useRow, cs, PageSize(pageSize0), cursor, res.scanned)
  {
    hide Offered, Listed, ListQueueCandidates, AtCursor;
    VisibleIsListed(useRow, cs, pageSize0);
    PageIsSlice(useRow, cs, pageSize0, cursor0, res0.scanned);
    var batch := ListQueueCandidates(useRow, cs, PageSize(pageSize0), cursor0);
    res, end, cursor, last := res0, GoOn, cursor0, true;
    if |batch| == 0 {
      return;
    }
    res, end := OfferPage(batch, q, res0, contextDone, ch0, Visible(cs, pageSize0), useRow);
    if |batch| >= PageSize(pageSize0) {
      cursor, last := Some(batch[|batch| - 1]), false;
    }
  }

  /** `listFails(p)` and `contextDone(i)` say whether the p-th page query fails and whether the
      context is done when the i-th row is offered. */
  method ReconcileReadyTasksNotQueued(cs: seq<Candidate>, useRow: bool, q: Queue, pageSize: int,
                                      listFails: nat -> bool, contextDone: nat -> bool)
    returns (res: ReconcileResult, err: Option<ReconcileError>)
    requires q.Valid() && Listed(useRow, cs)
    modifies q
    ensures q.Valid()
    ensures err == None ==> PassResult(old(q.ch), q.ch, q.bufCap, Visible(cs, pageSize), res)
    ensures err.Some? ==>
              Offered(old(q.ch), q.ch, Visible(cs, pageSize), res.enqueued, res.skippedAlreadyQueued)
  {
    hide ScanState, AtCursor, Offered, Visible, Listed;
    res, err := ReconcileResult(0, 0, 0, false), None;
    var cursor: Option<Candidate> := None;
    var end, page := GoOn, 0;
    ghost var ch0 := q.ch;
    ScanStarts(useRow, cs, pageSize, q.ch, q.bufCap);
    while true
      invariant q.Valid() && end.GoOn? && ScanState(ch0, q.ch, Visible(cs, pageSize), q.bufCap, res, end)
      invariant AtCursor(useRow, cs, PageSize(pageSize), cursor, res.scanned) && res.scanned <= |cs|
      decreases |cs| - res.scanned
    {
      if listFails(page) {
        ScanOffers(ch0, q.ch, Visible(cs, pageSize), q.bufCap, res, end);
        return res, Some(ListFailed);
      }
      page := page + 1;
      var last;
      res, end, cursor, last := ScanPage(cs, useRow, q, pageSize, cursor, res, contextDone, ch0);
      if end.Failed? {
        ScanOffers(ch0, q.ch, Visible(cs, pageSize), q.bufCap, res, end);
        return res, Some(NotifyFailed(end.cause));
      }
      if end.QueueFull? || last {
        break;
      }
    }
    VisibleIsListed(useRow, cs, pageSize);
    ScanIsPass(ch0, q.ch, Visible(cs, pageSize), q.bufCap, res, end, useRow);
  }

  lemma ScanStarts(useRow: bool, cs: seq<Candidate>, pageSize: int, ch: seq<Task>, bufCap: nat)
    requires |ch| <= bufCap
    ensures ScanState(ch, ch, Visible(cs, pageSize), bufCap, ReconcileResult(0, 0, 0, false), GoOn)
    ensures AtCursor(useRow, cs, PageSize(pageSize), None, 0)
  {
    FollowingNone(useRow, cs);
    assert cs[0..] == cs && Visible(cs, pageSize)[..0] == [];
    assert ch + [] == ch;
  }

  lemma ScanOffers(ch0: seq<Task>, ch: seq<Task>, cs: seq<Candidate>, bufCap: nat, res: ReconcileResult, end: ScanEnd)
    requires ScanState(ch0, ch, cs, bufCap, res, end)
    ensures Offered(ch0, ch, cs, res.enqueued, res.skippedAlreadyQueued)
  {
  }

  lemma VisibleIsListed(useRow: bool, cs: seq<Candidate>, pageSize: int)
    requires Listed(useRow, cs)
    ensures Listed(useRow, Visible(cs, pageSize))
  {
  }

  /** The queue went through one pass over cs, and the counters say so. */
  ghost predicate PassResult(ch0: seq<Task>, ch: seq<Task>, bufCap: nat, cs: seq<Candidate>, res: ReconcileResult) {
    && ch == Pass(ch0, bufCap, cs)
    && res.enqueued == |ch| - |ch0|
    && res.scanned == res.enqueued + res.skippedAlreadyQueued + (if res.stoppedOnQueueFull then 1 else 0)
    && (res.stoppedOnQueueFull <==> |Fresh(cs, Ids(ch0))| > bufCap - |ch0|)
    && (!res.stoppedOnQueueFull ==>
          res.scanned == |cs| && forall i :: 0 <= i < |cs| ==> cs[i].task.id in Ids(ch))
  }

  lemma ScanIsPass(ch0: seq<Task>, ch: seq<Task>, cs: seq<Candidate>, bufCap: nat, res: ReconcileResult, end: ScanEnd,
                   useRow: bool)
    requires ScanState(ch0, ch, cs, bufCap, res, end) && Listed(useRow, cs)
    requires end.QueueFull? || (end.GoOn? && res.scanned == |cs|)
    ensures PassResult(ch0, ch, bufCap, cs, res)
  {
    OfferedIsPass(ch0, ch, cs, res.enqueued, res.skippedAlreadyQueued, useRow, bufCap);
    OfferedIds(ch0, ch, cs, res.enqueued, res.skippedAlreadyQueued, useRow);
  }

  /** The paged reconcile leaves the queue a pass over all candidates would, exactly when the page
      size is at most 500, or nothing beyond the first 500 would have gone in. */
  lemma PageSizeLimit(cs: seq<Candidate>, pageSize: int, ch: seq<Task>, bufCap: nat)
    requires |ch| <= bufCap
    ensures Pass(ch, bufCap, Visible(cs, pageSize)) == Pass(ch, bufCap, cs) <==>
              || pageSize <= MAX_LIMIT || |cs| <= MAX_LIMIT
              || |Fresh(cs[..MAX_LIMIT], Ids(ch))| >= bufCap - |ch|
              || Fresh(cs[MAX_LIMIT..], Ids(ch)) == []
  {
    if pageSize > MAX_LIMIT && |cs| > MAX_LIMIT {
      var a, b := Fresh(cs[..MAX_LIMIT], Ids(ch)), Fresh(cs[MAX_LIMIT..], Ids(ch));
      assert cs == cs[..MAX_LIMIT] + cs[MAX_LIMIT..];
      FreshSplits(cs[..MAX_LIMIT], cs[MAX_LIMIT..], Ids(ch));
      var room := bufCap - |ch|;
      if |a| >= room {
        assert Take(a + b, room) == Take(a, room);
      } else if b != [] {
        assert |Take(a + b, room)| > |Take(a, room)|;
        assert |Pass(ch, bufCap, cs)| > |Pass(ch, bufCap, cs[..MAX_LIMIT])|;
      } else {
        assert a + b == a;
      }
    }
  }

  /** The smallest miss: 501 new candidates, an empty queue with room, and a page size of 501. */
  lemma PageOf501Misses(cs: seq<Candidate>)
    requires |cs| == 501 && (forall i :: 0 <= i < |cs| ==> cs[i].task.id != "")
    ensures Pass([], 501, Visible(cs, 501)) != Pass([], 501, cs)
  {
    PageSizeLimit(cs, 501, [], 501);
    assert cs[500..] == [cs[500]];
    assert [cs[500]][..0] == [];
    FreshAtMost(cs[..500], Ids([]));
  }

  lemma {:induction false} FreshAtMost(cs: seq<Candidate>, queued: set<string>)
    ensures |Fresh(cs, queued)| <= |cs|
    decreases |cs|
  {
    if cs != [] { FreshAtMost(cs[..|cs| - 1], queued); }
  }
}
