/** Interleavings of the scheduler's callers, its timer and any number of firings.
    A step is one critical section of the scheduler, one expiry of the timer, one
    tryNotify, or the passing of time. */
module PickupWakeRuns {
  import opened Wrappers
  import opened PickupWake

  /** A goroutine running `fire`: about to take the lock, or between two sections in tryNotify. */
  datatype Firing = AtLock | Notifying(id: string, popNow: int)

  /** The task row tryNotify reads back. */
  datatype TaskRow = TaskRow(ready: bool, pickupNotBefore: Option<int>)

  /** What was scheduled when id was taken out of the heap. */
  datatype Pop = Pop(id: string, at: int, scheduled: map<string, int>)

  /** An id that tryNotify passed to the queue, on the strength of row and popNow. */
  datatype Notice = Notice(id: string, row: TaskRow, popNow: int)

  datatype World = World(
    sched: Sched,
    now: int,
    firings: seq<Firing>,
    pops: seq<Pop>,
    notices: seq<Notice>,
    // accounts of the accepted (id, deadline) pairs
    accepted: multiset<(string, int)>,
    withdrawn: multiset<(string, int)>,
    handedOver: multiset<(string, int)>,
    dropped: multiset<(string, int)>)

  datatype Event =
    | Pass(duration: nat)
    | Schedule(id: string, notBefore: int)
    | Cancel(id: string)
    | Stop
    | Expire
    | Section(i: nat)
    | Notify(i: nat, row: Option<TaskRow>)

  ghost predicate Init(w: World) {
    && w.sched == Sched(map[], NoTimer, false)
    && w.firings == [] && w.pops == [] && w.notices == []
    && w.accepted == w.withdrawn == w.handedOver == w.dropped == multiset{}
  }

  function Entry(d: map<string, int>, id: string): multiset<(string, int)> {
    if id in d then multiset{(id, d[id])} else multiset{}
  }

  ghost predicate ScheduleStep(w: World, w': World, id: string, notBefore: int) {
    && ScheduleSpec(w.sched, w'.sched, id, notBefore, w.now)
    && w' == if id == "" || w.sched.stopped then w
             else w.(sched := w'.sched,
                     withdrawn := w.withdrawn + Entry(w.sched.deadlines, id),
                     accepted := w.accepted + multiset{(id, notBefore)})
  }

  ghost predicate CancelStep(w: World, w': World, id: string) {
    && CancelSpec(w.sched, w'.sched, id, w.now)
    && w' == if id == "" || w.sched.stopped then w
             else w.(sched := w'.sched, withdrawn := w.withdrawn + Entry(w.sched.deadlines, id))
  }

  ghost predicate StopStep(w: World, w': World) {
    && StopSpec(w.sched, w'.sched)
    && w' == w.(sched := w'.sched, dropped := w.dropped + multiset(w.sched.deadlines.Items))
  }

  /** The runtime starts fire no sooner than the armed instant; the field keeps the spent timer. */
  predicate ExpireStep(w: World, w': World) {
    && w.sched.timer.Armed? && w.sched.timer.at <= w.now
    && w' == w.(sched := w.sched.(timer := Expired), firings := w.firings + [AtLock])
  }

  ghost predicate SectionStep(w: World, w': World, i: nat) {
    && i < |w.firings| && w.firings[i] == AtLock
    && exists popped :: SectionOutcome(w, w', i, popped)
  }

  ghost predicate SectionOutcome(w: World, w': World, i: nat, popped: Option<string>)
    requires i < |w.firings|
  {
    && FireSpec(w.sched, w'.sched, w.now, popped)
    && w' == match popped
             case None => w.(sched := w'.sched, firings := w.firings[..i] + w.firings[i + 1..])
             case Some(id) =>
               w.(sched := w'.sched,
                  firings := w.firings[i := Notifying(id, w.now)],
                  pops := w.pops + [Pop(id, w.now, w.sched.deadlines)],
                  handedOver := w.handedOver + Entry(w.sched.deadlines, id))
  }

  /** tryNotify: only a ready row whose own pickup time has come by popNow is queued. */
  predicate Queues(row: Option<TaskRow>, popNow: int) {
    row.Some? && row.value.ready && (row.value.pickupNotBefore.Some? ==> row.value.pickupNotBefore.value <= popNow)
  }

  predicate NotifyStep(w: World, w': World, i: nat, row: Option<TaskRow>) {
    && i < |w.firings| && w.firings[i].Notifying?
    && var f := w.firings[i];
       w' == w.(firings := w.firings[i := AtLock],
                notices := if Queues(row, f.popNow) then w.notices + [Notice(f.id, row.value, f.popNow)] else w.notices)
  }

  ghost predicate Step(w: World, w': World, e: Event) {
    match e
    case Pass(duration) => w' == w.(now := w.now + duration)
    case Schedule(id, notBefore) => ScheduleStep(w, w', id, notBefore)
    case Cancel(id) => CancelStep(w, w', id)
    case Stop => StopStep(w, w')
    case Expire => ExpireStep(w, w')
    case Section(i) => SectionStep(w, w', i)
    case Notify(i, row) => NotifyStep(w, w', i, row)
  }

  /** ws is a run: each world follows from the one before by the event between them. */
  ghost predicate Run(ws: seq<World>, es: seq<Event>) {
    |ws| == |es| + 1 && forall i :: 0 <= i < |es| ==> Step(ws[i], ws[i + 1], es[i])
  }

  // ----- no lost wake -----

  /** Unless stopped or empty, a timer is armed no later than the first deadline (or than now,
      when that has passed), or some firing is still under way. */
  ghost predicate WakePending(w: World) {
    w.sched.stopped || w.sched.deadlines == map[] || w.firings != [] ||
    (w.sched.timer.Armed? && forall id :: id in w.sched.deadlines ==>
       w.sched.timer.at <= if w.sched.deadlines[id] < w.now then w.now else w.sched.deadlines[id])
  }

  /** Nothing is taken out early: each pop was due, and first among all that was scheduled. */
  ghost predicate PopsDue(w: World) {
    forall i :: 0 <= i < |w.pops| ==>
      && First(w.pops[i].scheduled, w.pops[i].id)
      && w.pops[i].scheduled[w.pops[i].id] <= w.pops[i].at <= w.now
  }

  ghost predicate NoticesDue(w: World) {
    && (forall i :: 0 <= i < |w.notices| ==>
          Queues(Some(w.notices[i].row), w.notices[i].popNow) && w.notices[i].popNow <= w.now)
    && (forall i :: 0 <= i < |w.firings| && w.firings[i].Notifying? ==> w.firings[i].popNow <= w.now)
  }

  /** Every accepted deadline is still scheduled, or was withdrawn, handed over or dropped by Stop: once each. */
  ghost predicate Accounted(w: World) {
    w.accepted == multiset(w.sched.deadlines.Items) + w.withdrawn + w.handedOver + w.dropped
  }

  ghost predicate Inv(w: World) {
    WakePending(w) && PopsDue(w) && NoticesDue(w) && Accounted(w)
  }

  lemma ItemsRemove(d: map<string, int>, id: string)
    ensures multiset(d.Items) == multiset((d - {id}).Items) + Entry(d, id)
  {
    if id in d {
      forall p: (string, int)
        ensures p in d.Items <==> p in (d - {id}).Items || p == (id, d[id])
      {
        assert p in d.Items <==> p.0 in d && d[p.0] == p.1;
      }
      assert d.Items == (d - {id}).Items + {(id, d[id])};
    } else {
      assert d - {id} == d;
    }
  }

  lemma ItemsUpdate(d: map<string, int>, id: string, v: int)
    ensures multiset(d[id := v].Items) + Entry(d, id) == multiset(d.Items) + multiset{(id, v)}
  {
    ItemsRemove(d, id);
    ItemsRemove(d[id := v], id);
    assert d[id := v] - {id} == d - {id};
  }

  lemma FirstIsEarliest(d: map<string, int>, id: string)
    requires First(d, id)
    ensures forall o :: o in d ==> d[id] <= d[o]
  {
    forall o | o in d ensures d[id] <= d[o] {
      assert NotAfter(Key(d[id], id), Key(d[o], o));
    }
  }

  lemma ArmedIsPending(w: World)
    requires ArmedFor(w.sched.deadlines, w.now, w.sched.timer)
    ensures WakePending(w)
  {
    if w.sched.deadlines != map[] {
      var id :| First(w.sched.deadlines, id)
             && w.sched.timer.at == if w.sched.deadlines[id] < w.now then w.now else w.sched.deadlines[id];
      FirstIsEarliest(w.sched.deadlines, id);
    }
  }

  lemma StepKeepsWake(w: World, w': World, e: Event)
    requires WakePending(w) && Step(w, w', e)
    ensures WakePending(w')
  {
    if e.Schedule? && e.id != "" && !w.sched.stopped {
      ArmedIsPending(w');
    } else if e.Cancel? && e.id != "" && !w.sched.stopped && e.id in w.sched.deadlines {
      ArmedIsPending(w');
    } else if e.Section? && !w.sched.stopped {
      var popped :| SectionOutcome(w, w', e.i, popped);
      if popped == None { ArmedIsPending(w'); }
    }
  }

  lemma Rebalance(before: multiset<(string, int)>, after: multiset<(string, int)>,
                  added: multiset<(string, int)>, replaced: multiset<(string, int)>, w: World)
    requires w.accepted == before + w.withdrawn + w.handedOver + w.dropped
    requires after + replaced == before + added
    ensures w.accepted + added == after + (w.withdrawn + replaced) + w.handedOver + w.dropped
  {
    assert w.accepted + added == (before + added) + w.withdrawn + w.handedOver + w.dropped;
  }

  lemma ScheduleKeepsAccounts(w: World, w': World, id: string, notBefore: int)
    requires Accounted(w) && ScheduleStep(w, w', id, notBefore)
    ensures Accounted(w')
  {
    if id != "" && !w.sched.stopped {
      var d := w.sched.deadlines;
      ItemsUpdate(d, id, notBefore);
      Rebalance(multiset(d.Items), multiset(d[id := notBefore].Items), multiset{(id, notBefore)}, Entry(d, id), w);
    }
  }

  lemma CancelKeepsAccounts(w: World, w': World, id: string)
    requires Accounted(w) && CancelStep(w, w', id)
    ensures Accounted(w')
  {
    hide ArmedFor;
    ItemsRemove(w.sched.deadlines, id);
  }

  lemma SectionKeepsAccounts(w: World, w': World, i: nat, popped: Option<string>)
    requires Accounted(w) && i < |w.firings| && SectionOutcome(w, w', i, popped)
    ensures Accounted(w')
  {
    hide ArmedFor, First;
    if popped.Some? {
      ItemsRemove(w.sched.deadlines, popped.value);
    }
  }

  lemma StepKeepsAccounts(w: World, w': World, e: Event)
    requires Accounted(w) && Step(w, w', e)
    ensures Accounted(w')
  {
    hide ScheduleSpec, CancelSpec, FireSpec;
    match e
    case Schedule(id, notBefore) => ScheduleKeepsAccounts(w, w', id, notBefore);
    case Cancel(id) => CancelKeepsAccounts(w, w', id);
    case Section(i) =>
      var popped :| SectionOutcome(w, w', i, popped);
      SectionKeepsAccounts(w, w', i, popped);
    case _ =>
  }

  lemma SectionKeepsDue(w: World, w': World, i: nat, popped: Option<string>)
    requires PopsDue(w) && NoticesDue(w) && i < |w.firings| && SectionOutcome(w, w', i, popped)
    ensures PopsDue(w') && NoticesDue(w')
  {
    hide ArmedFor, First, Queues;
  }

  lemma NotifyKeepsDue(w: World, w': World, i: nat, row: Option<TaskRow>)
    requires PopsDue(w) && NoticesDue(w) && NotifyStep(w, w', i, row)
    ensures PopsDue(w') && NoticesDue(w')
  {
    hide First;
  }

  lemma OtherStepsHandNothingOver(w: World, w': World, e: Event)
    requires Step(w, w', e) && !e.Section? && !e.Notify?
    ensures w'.pops == w.pops && w'.notices == w.notices && w'.now >= w.now
    ensures w'.firings == if e.Expire? then w.firings + [AtLock] else w.firings
  {
    hide ScheduleSpec, CancelSpec, StopSpec, Entry;
  }

  lemma StepKeepsDue(w: World, w': World, e: Event)
    requires PopsDue(w) && NoticesDue(w) && Step(w, w', e)
    ensures PopsDue(w') && NoticesDue(w')
  {
    hide ScheduleStep, CancelStep, StopStep, ExpireStep, SectionOutcome, NotifyStep, First, Queues;
    match e
    case Section(i) =>
      var popped :| SectionOutcome(w, w', i, popped);
      SectionKeepsDue(w, w', i, popped);
    case Notify(i, row) => NotifyKeepsDue(w, w', i, row);
    case _ => OtherStepsHandNothingOver(w, w', e);
  }

  lemma StepKeepsInv(w: World, w': World, e: Event)
    requires Inv(w) && Step(w, w', e)
    ensures Inv(w')
  {
    StepKeepsWake(w, w', e);
    StepKeepsAccounts(w, w', e);
    StepKeepsDue(w, w', e);
  }

  /** Over every run, whatever the interleaving, the invariant holds in every world of it. */
  lemma {:induction false} RunKeepsInv(ws: seq<World>, es: seq<Event>, n: nat)
    requires Run(ws, es) && Init(ws[0]) && n < |ws|
    ensures Inv(ws[n])
    decreases n
  {
    if n > 0 {
      RunKeepsInv(ws, es, n - 1);
      StepKeepsInv(ws[n - 1], ws[n], es[n - 1]);
    }
  }

  // ----- what is due gets handed over by the scheduler alone -----

  predicate Own(e: Event) {
    e.Expire? || e.Section? || e.Notify?
  }

  ghost predicate OwnRun(ws: seq<World>, es: seq<Event>) {
    Run(ws, es) && forall i :: 0 <= i < |es| ==> Own(es[i])
  }

  lemma RunCons(w: World, e: Event, ws: seq<World>, es: seq<Event>)
    requires OwnRun(ws, es) && Own(e) && Step(w, ws[0], e)
    ensures OwnRun([w] + ws, [e] + es)
  {
    var vs, fs := [w] + ws, [e] + es;
    forall i | 0 <= i < |fs| ensures Step(vs[i], vs[i + 1], fs[i]) && Own(fs[i]) {
      if i > 0 {
        assert vs[i] == ws[i - 1] && vs[i + 1] == ws[i] && fs[i] == es[i - 1];
      }
    }
  }

  ghost function Work(w: World): nat {
    |w.sched.deadlines| * 2 + (if w.firings == [] then 2 else if w.firings[0].Notifying? then 1 else 0)
  }

  lemma {:induction false} FirstExists(d: map<string, int>) returns (id: string)
    requires d != map[]
    ensures First(d, id)
    decreases |d|
  {
    var a :| a in d;
    var rest := d - {a};
    assert d.Keys == rest.Keys + {a};
    if rest == map[] {
      id := a;
      TextOrder.LessTrichotomy(a, a);
    } else {
      var b := FirstExists(rest);
      if Before(Key(d[a], a), Key(d[b], b)) {
        id := a;
        BeforeIsNotAfter(Key(d[a], a), Key(d[b], b));
        forall o | o in d ensures NotAfter(Key(d[a], a), Key(d[o], o)) {
          if o == a { TextOrder.LessTrichotomy(a, a); }
          else { NotAfterTransitive(Key(d[a], a), Key(d[b], b), Key(d[o], o)); }
        }
      } else {
        id := b;
        forall o | o in d ensures NotAfter(Key(d[b], b), Key(d[o], o)) {
          if o != a { assert o in rest; }
        }
      }
    }
  }

  /** The scheduler's next own step when something is due: expiry, the pending tryNotify, or a pop. */
  lemma OwnStep(w: World, id: string) returns (e: Event, w': World)
    requires Inv(w) && !w.sched.stopped && id in w.sched.deadlines && w.sched.deadlines[id] <= w.now
    ensures Step(w, w', e) && Own(e) && Work(w') < Work(w)
    ensures !w'.sched.stopped && w'.now == w.now
    ensures forall o :: o in w'.sched.deadlines ==>
              o in w.sched.deadlines && w'.sched.deadlines[o] == w.sched.deadlines[o]
    ensures forall o :: o in w.sched.deadlines && o !in w'.sched.deadlines ==> w.sched.deadlines[o] <= w.now
    ensures id !in w'.sched.deadlines ==>
              w'.pops != [] && w'.pops[|w'.pops| - 1] == Pop(id, w.now, w.sched.deadlines)
  {
    var d := w.sched.deadlines;
    if w.firings == [] {
      e, w' := Expire, w.(sched := w.sched.(timer := Expired), firings := w.firings + [AtLock]);
    } else if w.firings[0].Notifying? {
      e, w' := Notify(0, None), w.(firings := w.firings[0 := AtLock]);
    } else {
      var first := FirstExists(d);
      FirstIsEarliest(d, first);
      e := Section(0);
      w' := w.(sched := w.sched.(deadlines := d - {first}),
               firings := w.firings[0 := Notifying(first, w.now)],
               pops := w.pops + [Pop(first, w.now, d)],
               handedOver := w.handedOver + Entry(d, first));
      assert SectionOutcome(w, w', 0, Some(first));
      assert d.Keys == (d - {first}).Keys + {first};
    }
  }

  /** From any world of any run, if a deadline has passed then the expiry of the timer and the
      steps of firings alone lead to its hand-over: no further call is needed to wake it. */
  lemma {:induction false} DueIsHandedOver(w: World, id: string) returns (ws: seq<World>, es: seq<Event>)
    requires Inv(w) && !w.sched.stopped && id in w.sched.deadlines && w.sched.deadlines[id] <= w.now
    ensures OwnRun(ws, es) && ws[0] == w && |es| <= Work(w)
    ensures var last := ws[|ws| - 1];
            && id !in last.sched.deadlines
            && last.pops != [] && last.pops[|last.pops| - 1].id == id
            && id in last.pops[|last.pops| - 1].scheduled
            && last.pops[|last.pops| - 1].scheduled[id] == w.sched.deadlines[id]
    decreases Work(w)
  {
    var e, w' := OwnStep(w, id);
    StepKeepsInv(w, w', e);
    if id in w'.sched.deadlines {
      var vs, fs := DueIsHandedOver(w', id);
      RunCons(w, e, vs, fs);
      ws, es := [w] + vs, [e] + fs;
      assert ws[|ws| - 1] == vs[|vs| - 1];
    } else {
      RunCons(w, e, [w'], []);
      ws, es := [w] + [w'], [e] + [];
    }
  }

  /** From any world of any run the scheduler's own steps alone lead to one in which nothing due is
      left: exactly the deadlines that have passed are gone. */
  lemma {:induction false} AllDueIsHandedOver(w: World) returns (ws: seq<World>, es: seq<Event>)
    requires Inv(w) && !w.sched.stopped
    ensures OwnRun(ws, es) && ws[0] == w && |es| <= Work(w)
    ensures var d, last := w.sched.deadlines, ws[|ws| - 1];
            last.now == w.now && last.sched.deadlines == map o | o in d && d[o] > w.now :: d[o]
    decreases Work(w)
  {
    hide Inv, Step, Work;
    var d := w.sched.deadlines;
    if id :| id in d && d[id] <= w.now {
      var e, w' := OwnStep(w, id);
      StepKeepsInv(w, w', e);
      var vs, fs := AllDueIsHandedOver(w');
      RunCons(w, e, vs, fs);
      ws, es := [w] + vs, [e] + fs;
      assert ws[|ws| - 1] == vs[|vs| - 1];
    } else {
      ws, es := [w], [];
      assert d == map o | o in d && d[o] > w.now :: d[o];
    }
  }
}
