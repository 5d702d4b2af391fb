/** The deferred-pickup scheduler of pkgs/agents/pickup_wake.go: an indexed binary
    min-heap of wake items, a map from task id to item, and one timer armed for the
    earliest deadline. Instants are integers (nanoseconds). */
module PickupWake {
  import opened Wrappers
  import opened TextOrder

  // ----- the order of wake items -----

  datatype Key = Key(at: int, id: string)

  predicate Before(a: Key, b: Key) {
    a.at < b.at || (a.at == b.at && Less(a.id, b.id))
  }

  predicate NotAfter(a: Key, b: Key) {
    !Before(b, a)
  }

  lemma BeforeIsNotAfter(a: Key, b: Key)
    requires Before(a, b)
    ensures NotAfter(a, b)
  {
    LessTrichotomy(a.id, b.id);
  }

  lemma NotAfterTransitive(a: Key, b: Key, c: Key)
    requires NotAfter(a, b) && NotAfter(b, c)
    ensures NotAfter(a, c)
  {
    LessTrichotomy(a.id, b.id);
    LessTrichotomy(b.id, c.id);
    LessTrichotomy(a.id, c.id);
    if a.at == c.at && Less(a.id, b.id) && Less(b.id, c.id) {
      LessTransitive(a.id, b.id, c.id);
    }
  }

  class WakeItem {
    const taskID: string
    const notBefore: int
    var index: int

    constructor (taskID: string, notBefore: int)
      ensures this.taskID == taskID && this.notBefore == notBefore && index == 0
    {
      this.taskID := taskID;
      this.notBefore := notBefore;
      index := 0;
    }
  }

  function KeyOf(x: WakeItem): Key {
    Key(x.notBefore, x.taskID)
  }

  // ----- heap order over the first n slots -----

  predicate EdgeOk(h: seq<WakeItem>, k: int)
    requires 0 < k < |h|
  {
    NotAfter(KeyOf(h[(k - 1) / 2]), KeyOf(h[k]))
  }

  /** Every parent-child edge among the first n slots is in order. */
  ghost predicate Ordered(h: seq<WakeItem>, n: nat)
    requires n <= |h|
  {
    forall k :: 0 < k < n ==> EdgeOk(h, k)
  }

  /** In order except for the edge into slot j. */
  ghost predicate OrderedExceptInto(h: seq<WakeItem>, n: nat, j: nat)
    requires n <= |h|
  {
    forall k :: 0 < k < n && k != j ==> EdgeOk(h, k)
  }

  /** In order except for the edges out of slot i and, when i is still i0, the edge into it. */
  ghost predicate OrderedExceptAround(h: seq<WakeItem>, n: nat, i: nat, i0: nat)
    requires n <= |h|
  {
    forall k :: 0 < k < n && (k - 1) / 2 != i && (k != i || i != i0) ==> EdgeOk(h, k)
  }

  /** The children of slot j do not come before j's parent. */
  ghost predicate Bridged(h: seq<WakeItem>, n: nat, j: nat)
    requires n <= |h| && j < |h|
  {
    j > 0 ==> forall k :: 0 < k < n && (k - 1) / 2 == j ==> NotAfter(KeyOf(h[(j - 1) / 2]), KeyOf(h[k]))
  }

  ghost predicate SameItems(a: seq<WakeItem>, b: seq<WakeItem>) {
    |a| == |b| && (forall x :: x in a ==> x in b) && (forall x :: x in b ==> x in a)
  }

  function Swapped(h: seq<WakeItem>, i: nat, j: nat): (r: seq<WakeItem>)
    requires i < |h| && j < |h|
  {
    h[i := h[j]][j := h[i]]
  }

  lemma SwappedSameItems(h: seq<WakeItem>, i: nat, j: nat)
    requires i < |h| && j < |h|
    ensures SameItems(h, Swapped(h, i, j))
  {
    var r := Swapped(h, i, j);
    forall x | x in h ensures x in r {
      var k :| 0 <= k < |h| && h[k] == x;
      assert r[i] == h[j] && r[j] == h[i] && (k != i && k != j ==> r[k] == h[k]);
    }
  }

  lemma {:induction false} RootIsEarliest(h: seq<WakeItem>, k: nat)
    requires Ordered(h, |h|) && k < |h|
    ensures NotAfter(KeyOf(h[0]), KeyOf(h[k]))
    decreases k
  {
    if k == 0 {
      LessTrichotomy(h[0].taskID, h[0].taskID);
    } else {
      RootIsEarliest(h, (k - 1) / 2);
      assert EdgeOk(h, k);
      NotAfterTransitive(KeyOf(h[0]), KeyOf(h[(k - 1) / 2]), KeyOf(h[k]));
    }
  }

  // ----- what a scheduler is, apart from its representation -----

  /** `Expired` is a timer whose function has already been started by the runtime. */
  datatype Timer = NoTimer | Armed(at: int) | Expired

  datatype Sched = Sched(deadlines: map<string, int>, timer: Timer, stopped: bool)

  /** id is the first of the scheduled ids in (deadline, id) order. */
  ghost predicate First(d: map<string, int>, id: string) {
    id in d && forall o :: o in d ==> NotAfter(Key(d[id], id), Key(d[o], o))
  }

  /** The timer a reset at time now leaves: none without deadlines, otherwise one for the
      earliest deadline, or for now when that has passed. */
  ghost predicate ArmedFor(d: map<string, int>, now: int, t: Timer) {
    if d == map[] then t == NoTimer
    else t.Armed? && exists id :: First(d, id) && t.at == if d[id] < now then now else d[id]
  }

  ghost predicate ScheduleSpec(s: Sched, s': Sched, id: string, notBefore: int, now: int) {
    if id == "" || s.stopped then s' == s
    else s'.deadlines == s.deadlines[id := notBefore] && !s'.stopped && ArmedFor(s'.deadlines, now, s'.timer)
  }

  ghost predicate CancelSpec(s: Sched, s': Sched, id: string, now: int) {
    if id == "" || s.stopped || id !in s.deadlines then s' == s
    else s'.deadlines == s.deadlines - {id} && !s'.stopped && ArmedFor(s'.deadlines, now, s'.timer)
  }

  ghost predicate StopSpec(s: Sched, s': Sched) {
    s' == Sched(map[], NoTimer, true)
  }

  /** One stretch of `fire` between taking the lock and giving it up: it either takes the first
      deadline out, because it has passed, or ends the firing by resetting the timer. */
  ghost predicate FireSpec(s: Sched, s': Sched, now: int, popped: Option<string>) {
    if s.stopped then s' == s && popped == None
    else match popped
      case Some(id) =>
        First(s.deadlines, id) && s.deadlines[id] <= now && s' == s.(deadlines := s.deadlines - {id})
      case None =>
        && (forall o :: o in s.deadlines ==> s.deadlines[o] > now)
        && s'.deadlines == s.deadlines && !s'.stopped && ArmedFor(s.deadlines, now, s'.timer)
  }

  // ----- the scheduler object -----

  class PickupWakeScheduler {
    var byID: map<string, WakeItem>
    var heap: seq<WakeItem>
    var timer: Timer
    var stopped: bool

    constructor ()
      ensures Valid() && View() == Sched(map[], NoTimer, false)
    {
      byID, heap, timer, stopped := map[], [], NoTimer, false;
    }

    /** Every item knows its own slot. */
    ghost predicate Indexed()
      reads `heap, heap
    {
      forall k :: 0 <= k < |heap| ==> heap[k].index == k
    }

    /** The map and the heap hold the same items, each under its own id. */
    ghost predicate MapAgrees()
      reads `heap, `byID
    {
      && (forall id :: id in byID ==> byID[id].taskID == id && byID[id] in heap)
      && (forall x :: x in heap ==> x.taskID in byID && byID[x.taskID] == x)
    }

    ghost predicate Consistent()
      reads `heap, `byID, heap
    {
      Indexed() && MapAgrees() && Ordered(heap, |heap|)
    }

    ghost predicate Valid()
      reads this, heap
    {
      Consistent() && (stopped ==> heap == [] && timer == NoTimer)
    }

    ghost function Deadlines(): map<string, int>
      reads `byID
    {
      map id | id in byID :: byID[id].notBefore
    }

    ghost function View(): Sched
      reads this
    {
      Sched(Deadlines(), timer, stopped)
    }

    ghost function Items(): set<WakeItem>
      reads `heap
    {
      set x | x in heap
    }

    // container/heap, written out over this heap

    method Swap(i: nat, j: nat)
      requires i < |heap| && j < |heap| && Indexed()
      modifies `heap, {heap[i], heap[j]}`index
      ensures heap == Swapped(old(heap), i, j) && Indexed()
      ensures SameItems(old(heap), heap)
    {
      SwappedSameItems(heap, i, j);
      heap := heap[i := heap[j]][j := heap[i]];
      heap[i].index := i;
      heap[j].index := j;
    }

    method Up(j0: nat, ghost n: nat)
      requires j0 < n <= |heap| && Indexed()
      requires OrderedExceptInto(heap, n, j0) && Bridged(heap, n, j0)
      modifies `heap, Items()`index
      ensures Indexed() && SameItems(old(heap), heap) && Ordered(heap, n)
      ensures heap[n..] == old(heap[n..])
    {
      var j: nat := j0;
      while true
        invariant j < n <= |heap| && Indexed() && SameItems(old(heap), heap)
        invariant OrderedExceptInto(heap, n, j) && Bridged(heap, n, j)
        invariant heap[n..] == old(heap[n..])
        decreases j
      {
        var i := if j == 0 then 0 else (j - 1) / 2;
        if i == j || !Before(KeyOf(heap[j]), KeyOf(heap[i])) {
          break;
        }
        LiftKeepsOrder(heap, n, i, j);
        assert heap[i] in old(heap) && heap[j] in old(heap);
        Swap(i, j);
        j := i;
      }
    }

    method Down(i0: nat, n: nat) returns (moved: bool)
      requires i0 <= n <= |heap| && i0 < |heap| && Indexed()
      requires OrderedExceptAround(heap, n, i0, i0) && Bridged(heap, n, i0)
      modifies `heap, Items()`index
      ensures Indexed() && SameItems(old(heap), heap)
      ensures heap[n..] == old(heap[n..])
      ensures moved ==> Ordered(heap, n)
      ensures !moved ==> heap == old(heap) && OrderedExceptInto(heap, n, i0)
    {
      var i: nat := i0;
      while true
        invariant i0 <= i <= n <= |heap| && i < |heap| && Indexed() && SameItems(old(heap), heap)
        invariant OrderedExceptAround(heap, n, i, i0) && Bridged(heap, n, i)
        invariant heap[n..] == old(heap[n..])
        invariant i == i0 ==> heap == old(heap)
        decreases n - i
      {
        var j1 := 2 * i + 1;
        if j1 >= n {
          break;
        }
        var j := j1;
        var j2 := j1 + 1;
        if j2 < n && Before(KeyOf(heap[j2]), KeyOf(heap[j1])) {
          j := j2;
          BeforeIsNotAfter(KeyOf(heap[j2]), KeyOf(heap[j1]));
        }
        if !Before(KeyOf(heap[j]), KeyOf(heap[i])) {
          SettledBelow(heap, n, i, i0, j);
          break;
        }
        SinkKeepsOrder(heap, n, i, i0, j);
        assert heap[i] in old(heap) && heap[j] in old(heap);
        Swap(i, j);
        i := j;
      }
      moved := i > i0;
    }

    method DropLast() returns (item: WakeItem)
      requires heap != [] && Indexed()
      modifies `heap, Items()`index
      ensures Indexed() && item !in heap
      ensures old(heap) == heap + [item]
    {
      var n := |heap| - 1;
      item := heap[n];
      item.index := -1;
      heap := heap[..n];
    }

    method Push(item: WakeItem)
      requires item !in heap && Indexed() && Ordered(heap, |heap|)
      modifies `heap, Items()`index, item`index
      ensures Indexed() && Ordered(heap, |heap|) && SameItems(old(heap) + [item], heap)
    {
      item.index := |heap|;
      heap := heap + [item];
      PrefixOrdered(old(heap), heap, |heap| - 1);
      Up(|heap| - 1, |heap|);
    }

    method PopMin() returns (item: WakeItem)
      requires heap != [] && Indexed() && Ordered(heap, |heap|)
      modifies `heap, Items()`index
      ensures Indexed() && Ordered(heap, |heap|) && item !in heap
      ensures item == old(heap[0]) && SameItems(old(heap), heap + [item])
    {
      var n := |heap| - 1;
      ReplacingLeavesHole(heap, 0);
      Swap(0, n);
      var _ := Down(0, n);
      assert heap[n..][0] == heap[n];
      PrefixOrdered(heap, heap[..n], n);
      item := DropLast();
    }

    method RemoveAt(i: nat) returns (item: WakeItem)
      requires i < |heap| && Indexed() && Ordered(heap, |heap|)
      modifies `heap, Items()`index
      ensures Indexed() && Ordered(heap, |heap|) && item !in heap
      ensures item == old(heap[i]) && SameItems(old(heap), heap + [item])
    {
      var n := |heap| - 1;
      if n != i {
        ReplacingLeavesHole(heap, i);
        Swap(i, n);
        var moved := Down(i, n);
        if !moved {
          Up(i, n);
        }
      }
      assert heap[n..][0] == heap[n];
      PrefixOrdered(heap, heap[..n], n);
      item := DropLast();
    }

    // the scheduler's own operations

    method ResetTimer(now: int)
      requires Consistent() && !stopped
      modifies `timer
      ensures ArmedFor(Deadlines(), now, timer)
    {
      timer := NoTimer;
      if |heap| == 0 {
        return;
      }
      RootIsFirst();
      var next := heap[0];
      var d := next.notBefore - now;
      if d < 0 {
        d := 0;
      }
      timer := Armed(now + d);
    }

    lemma RootIsFirst()
      requires MapAgrees() && Ordered(heap, |heap|) && heap != []
      ensures First(Deadlines(), heap[0].taskID) && Deadlines()[heap[0].taskID] == heap[0].notBefore
    {
      forall o | o in Deadlines()
        ensures NotAfter(KeyOf(heap[0]), Key(Deadlines()[o], o))
      {
        var k :| 0 <= k < |heap| && heap[k] == byID[o];
        RootIsEarliest(heap, k);
      }
    }

    lemma IndexFindsItem(id: string)
      requires Valid() && id in byID
      ensures 0 <= byID[id].index < |heap| && heap[byID[id].index] == byID[id]
    {
      var k :| 0 <= k < |heap| && heap[k] == byID[id];
      assert heap[k].index == k;
    }

    /** heap.Remove and delete, as Schedule and Cancel pair them. */
    method Discard(taskID: string)
      requires Consistent() && taskID in byID
      modifies `heap, `byID, Items()`index
      ensures Consistent() && Items() <= old(Items())
      ensures Deadlines() == old(Deadlines()) - {taskID}
    {
      var gone := RemoveAt(byID[taskID].index);
      byID := byID - {taskID};
    }

    /** heap.Push and the map entry of a new item. */
    method Insert(taskID: string, notBefore: int)
      requires Consistent() && taskID !in byID
      modifies `heap, `byID, Items()`index
      ensures Consistent() && fresh(Items() - old(Items()))
      ensures Deadlines() == old(Deadlines())[taskID := notBefore]
    {
      var item := new WakeItem(taskID, notBefore);
      Push(item);
      byID := byID[taskID := item];
    }

    /** heap.Pop and delete, as fire pairs them. */
    method TakeFirst() returns (taskID: string)
      requires Consistent() && heap != []
      modifies `heap, `byID, Items()`index
      ensures Consistent() && Items() <= old(Items()) && |heap| < old(|heap|)
      ensures taskID == old(heap[0].taskID) && Deadlines() == old(Deadlines()) - {taskID}
    {
      var item := PopMin();
      byID := byID - {item.taskID};
      taskID := item.taskID;
    }

    method Schedule(taskID: string, notBefore: int, now: int)
      requires Valid()
      modifies this, Items()`index
      ensures Valid() && ScheduleSpec(old(View()), View(), taskID, notBefore, now)
      ensures fresh(Items() - old(Items()))
    {
      hide Consistent, Ordered, ArmedFor;
      if taskID == "" || stopped {
        return;
      }
      if taskID in byID {
        Discard(taskID);
      }
      Insert(taskID, notBefore);
      ResetTimer(now);
    }

    method Cancel(taskID: string, now: int)
      requires Valid()
      modifies this, Items()`index
      ensures Valid() && CancelSpec(old(View()), View(), taskID, now)
      ensures Items() <= old(Items())
    {
      if taskID == "" || stopped || taskID !in byID {
        return;
      }
      Discard(taskID);
      ResetTimer(now);
    }

    method Stop()
      requires Valid()
      modifies this
      ensures Valid() && StopSpec(old(View()), View())
    {
      stopped, timer, byID, heap := true, NoTimer, map[], [];
    }

    method FireSection(now: int) returns (popped: Option<string>)
      requires Valid()
      modifies this, Items()`index
      ensures Valid() && FireSpec(old(View()), View(), now, popped)
      ensures Items() <= old(Items())
      ensures popped.Some? ==> |heap| < old(|heap|)
    {
      popped := None;
      if stopped {
        return;
      }
      if |heap| > 0 {
        RootIsFirst();
        if heap[0].notBefore <= now {
          var tid := TakeFirst();
          popped := Some(tid);
          return;
        }
        assert forall o :: o in Deadlines() ==> NotAfter(KeyOf(heap[0]), Key(Deadlines()[o], o));
      }
      ResetTimer(now);
    }

    /** A whole firing with nothing else happening in between. `clock(i)` is the i-th reading of
        the clock; `handed` lists what is passed to tryNotify, in order. */
    method Fire(clock: nat -> int) returns (handed: seq<string>)
      requires Valid() && forall i: nat, j: nat :: i <= j ==> clock(i) <= clock(j)
      modifies this, Items()`index
      ensures Valid()
      ensures old(stopped) ==> handed == [] && View() == old(View())
      ensures !old(stopped) ==>
        var d, last := old(Deadlines()), clock(|handed|);
        && (forall id :: id in handed <==> id in d && d[id] <= last)
        && (forall i, j :: 0 <= i < j < |handed| ==> Before(Key(d[handed[i]], handed[i]), Key(d[handed[j]], handed[j])))
        && (forall i :: 0 <= i < |handed| ==> d[handed[i]] <= clock(i))
        && Deadlines() == (map id | id in d && d[id] > last :: d[id])
        && !stopped && ArmedFor(Deadlines(), last, timer)
    {
      hide HandedSoFar, Consistent, First, ArmedFor;
      handed := [];
      ghost var d := Deadlines();
      NothingHanded(d, clock);
      while true
        invariant Valid() && stopped == old(stopped) && Items() <= old(Items())
        invariant stopped ==> handed == [] && View() == old(View())
        invariant HandedSoFar(d, Deadlines(), handed, clock)
        decreases |heap|
      {
        ghost var rest := Deadlines();
        var popped := FireSection(clock(|handed|));
        if popped == None {
          break;
        }
        HandOneMore(d, rest, handed, popped.value, clock);
        handed := handed + [popped.value];
      }
      if !stopped {
        DueHanded(d, Deadlines(), handed, clock);
      }
    }
  }

  /** Of the deadlines d, those handed over so far, in order, and the rest. */
  ghost predicate HandedSoFar(d: map<string, int>, rest: map<string, int>, handed: seq<string>, clock: nat -> int) {
    && (forall id :: id in d <==> id in rest || id in handed)
    && (forall id :: id in rest ==> rest[id] == d[id] && id !in handed)
    && (forall i, id :: 0 <= i < |handed| && id in rest ==> NotAfter(Key(d[handed[i]], handed[i]), Key(d[id], id)))
    && (forall i, j :: 0 <= i < j < |handed| ==> Before(Key(d[handed[i]], handed[i]), Key(d[handed[j]], handed[j])))
    && (forall i :: 0 <= i < |handed| ==> d[handed[i]] <= clock(i))
  }

  lemma NothingHanded(d: map<string, int>, clock: nat -> int)
    ensures HandedSoFar(d, d, [], clock)
  {
  }

  /** When nothing that is left is due, exactly what is due has been handed over. */
  lemma DueHanded(d: map<string, int>, rest: map<string, int>, handed: seq<string>, clock: nat -> int)
    requires HandedSoFar(d, rest, handed, clock) && forall id :: id in rest ==> rest[id] > clock(|handed|)
    requires forall i: nat, j: nat :: i <= j ==> clock(i) <= clock(j)
    ensures forall id :: id in handed <==> id in d && d[id] <= clock(|handed|)
    ensures forall i, j :: 0 <= i < j < |handed| ==> Before(Key(d[handed[i]], handed[i]), Key(d[handed[j]], handed[j]))
    ensures forall i :: 0 <= i < |handed| ==> d[handed[i]] <= clock(i)
    ensures rest == map id | id in d && d[id] > clock(|handed|) :: d[id]
  {
    hide NotAfter, Before;
  }

  lemma HandOneMore(d: map<string, int>, rest: map<string, int>, handed: seq<string>, id: string, clock: nat -> int)
    requires HandedSoFar(d, rest, handed, clock) && First(rest, id) && rest[id] <= clock(|handed|)
    ensures HandedSoFar(d, rest - {id}, handed + [id], clock)
  {
    hide Before;
    FirstNotHanded(d, rest, handed, id, clock);
  }

  lemma FirstNotHanded(d: map<string, int>, rest: map<string, int>, handed: seq<string>, id: string, clock: nat -> int)
    requires HandedSoFar(d, rest, handed, clock) && id in rest
    ensures forall i :: 0 <= i < |handed| ==> Before(Key(d[handed[i]], handed[i]), Key(d[id], id))
  {
    forall i | 0 <= i < |handed|
      ensures Before(Key(d[handed[i]], handed[i]), Key(d[id], id))
    {
      LessTrichotomy(handed[i], id);
    }
  }

  /** Overwriting slot i of an ordered heap by its last item leaves only the edges around i in doubt. */
  lemma ReplacingLeavesHole(h: seq<WakeItem>, i: nat)
    requires Ordered(h, |h|) && i < |h|
    ensures var n, r := |h| - 1, Swapped(h, i, |h| - 1);
            OrderedExceptAround(r, n, i, i) && Bridged(r, n, i)
  {
    var n, r := |h| - 1, Swapped(h, i, |h| - 1);
    forall k | 0 < k < n && (k - 1) / 2 != i && k != i ensures EdgeOk(r, k) {
      assert EdgeOk(h, k);
    }
    if i > 0 {
      forall k | 0 < k < n && (k - 1) / 2 == i ensures NotAfter(KeyOf(r[(i - 1) / 2]), KeyOf(r[k])) {
        assert EdgeOk(h, i) && EdgeOk(h, k);
        NotAfterTransitive(KeyOf(h[(i - 1) / 2]), KeyOf(h[i]), KeyOf(h[k]));
      }
    }
  }

  lemma PrefixOrdered(h: seq<WakeItem>, r: seq<WakeItem>, n: nat)
    requires n <= |h| && n <= |r| && h[..n] == r[..n] && Ordered(h, n)
    ensures Ordered(r, n)
  {
    forall k | 0 < k < n ensures EdgeOk(r, k) {
      assert EdgeOk(h, k);
      assert h[..n][k] == r[..n][k] && h[..n][(k - 1) / 2] == r[..n][(k - 1) / 2];
    }
  }

  lemma LiftKeepsOrder(h: seq<WakeItem>, n: nat, i: nat, j: nat)
    requires 0 < j < n <= |h| && i == (j - 1) / 2
    requires OrderedExceptInto(h, n, j) && Bridged(h, n, j)
    requires Before(KeyOf(h[j]), KeyOf(h[i]))
    ensures OrderedExceptInto(Swapped(h, i, j), n, i) && Bridged(Swapped(h, i, j), n, i)
  {
    var r := Swapped(h, i, j);
    BeforeIsNotAfter(KeyOf(h[j]), KeyOf(h[i]));
    forall k | 0 < k < n && k != i ensures EdgeOk(r, k) {
      if (k - 1) / 2 == i && k != j {
        assert EdgeOk(h, k);
        NotAfterTransitive(KeyOf(h[j]), KeyOf(h[i]), KeyOf(h[k]));
      } else if k != j && (k - 1) / 2 != j {
        assert EdgeOk(h, k);
      }
    }
    if i > 0 {
      assert EdgeOk(h, i);
      forall k | 0 < k < n && (k - 1) / 2 == i ensures NotAfter(KeyOf(r[(i - 1) / 2]), KeyOf(r[k])) {
        if k != j {
          assert EdgeOk(h, k);
          NotAfterTransitive(KeyOf(h[(i - 1) / 2]), KeyOf(h[i]), KeyOf(h[k]));
        }
      }
    }
  }

  lemma SinkKeepsOrder(h: seq<WakeItem>, n: nat, i: nat, i0: nat, j: nat)
    requires 0 < j < n <= |h| && i == (j - 1) / 2 && i0 <= i
    requires OrderedExceptAround(h, n, i, i0) && Bridged(h, n, i)
    requires forall k :: 0 < k < n && (k - 1) / 2 == i && k != j ==> NotAfter(KeyOf(h[j]), KeyOf(h[k]))
    requires Before(KeyOf(h[j]), KeyOf(h[i]))
    ensures OrderedExceptAround(Swapped(h, i, j), n, j, i0) && Bridged(Swapped(h, i, j), n, j)
  {
    var r := Swapped(h, i, j);
    BeforeIsNotAfter(KeyOf(h[j]), KeyOf(h[i]));
    forall k | 0 < k < n && (k - 1) / 2 != j ensures EdgeOk(r, k) {
      if k != i && k != j && (k - 1) / 2 != i {
        assert EdgeOk(h, k);
      }
    }
    forall k | 0 < k < n && (k - 1) / 2 == j ensures NotAfter(KeyOf(r[(j - 1) / 2]), KeyOf(r[k])) {
      assert EdgeOk(h, k);
    }
  }

  lemma SettledBelow(h: seq<WakeItem>, n: nat, i: nat, i0: nat, j: nat)
    requires 0 < j < n <= |h| && i == (j - 1) / 2
    requires OrderedExceptAround(h, n, i, i0)
    requires forall k :: 0 < k < n && (k - 1) / 2 == i && k != j ==> NotAfter(KeyOf(h[j]), KeyOf(h[k]))
    requires NotAfter(KeyOf(h[i]), KeyOf(h[j]))
    ensures forall k :: 0 < k < n && (k != i || i != i0) ==> EdgeOk(h, k)
  {
    forall k | 0 < k < n && (k != i || i != i0) ensures EdgeOk(h, k) {
      if (k - 1) / 2 == i && k != j {
        NotAfterTransitive(KeyOf(h[i]), KeyOf(h[j]), KeyOf(h[k]));
      }
    }
  }
}
