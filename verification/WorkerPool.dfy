/** The worker pool of pkgs/agents/worker: slots that share one worktree gate (pool.go,
    worktree_gate.go) and admit tasks through it (admission.go). */
module WorkerPool {
  import opened Wrappers

  // ----- construction -----

  /** The lock map; a worktree without an entry has a free lock. */
  class WorktreeGate {
    var locked: set<string>

    constructor ()
      ensures locked == {}
    {
      locked := {};
    }

    method TryLock(worktreeID: string) returns (ok: bool)
      modifies this
      ensures ok <==> worktreeID !in old(locked)
      ensures locked == old(locked) + {worktreeID}
    {
      if worktreeID in locked {
        return false;
      }
      locked := locked + {worktreeID};
      return true;
    }

    method Unlock(worktreeID: string)
      requires worktreeID in locked
      modifies this
      ensures locked == old(locked) - {worktreeID}
    {
      locked := locked - {worktreeID};
    }
  }

  class Worker {
    const gate: WorktreeGate

    constructor (gate: WorktreeGate)
      ensures this.gate == gate
    {
      this.gate := gate;
    }
  }

  /** Between 1 and 32 distinct slots, all of them on one new gate. */
  method NewPool(concurrency0: int) returns (gate: WorktreeGate, slots: array<Worker>)
    ensures fresh(gate) && fresh(slots) && gate.locked == {}
    ensures slots.Length == if concurrency0 < 1 then 1 else if concurrency0 > 32 then 32 else concurrency0
    ensures forall i :: 0 <= i < slots.Length ==> slots[i].gate == gate && fresh(slots[i])
    ensures forall i, j :: 0 <= i < j < slots.Length ==> slots[i] != slots[j]
  {
    var concurrency := concurrency0;
    if concurrency < 1 {
      concurrency := 1;
    }
    if concurrency > 32 {
      concurrency := 32;
    }
    gate := new WorktreeGate();
    var first := new Worker(gate);
    slots := new Worker[concurrency](_ => first);
    var i := 1;
    while i < slots.Length
      invariant 1 <= i <= slots.Length && fresh(slots) && gate.locked == {}
      invariant forall k :: 0 <= k < slots.Length ==> slots[k].gate == gate && fresh(slots[k])
      invariant forall j, k :: 0 <= j < k < i ==> slots[j] != slots[k]
    {
      var w := new Worker(gate);
      slots[i] := w;
      i := i + 1;
    }
  }

  // ----- admission -----

  datatype Status = Ready | Running | OtherStatus

  datatype Readiness = CheckFails | NotReady | IsReady

  /** What processOne reads about the task it has received. */
  datatype View = View(reloads: bool, status: Status, openCycle: bool, worktree: Option<string>, readiness: Readiness)

  /** What becomes of the task: nothing more, a later pickup, a wait for the worktree's lock, or the lock. */
  datatype Admission = Bail | DeferPickup(seconds: nat) | Block(worktreeID: string) | Take(worktreeID: string)

  /** Only a running task with an open cycle ever waits at the gate. A ready one takes a free lock; it is
      put off for 5 seconds by a lock that is held and for 60 when it cannot run at all. */
  function Admit(v: View, locked: set<string>): (a: Admission)
    ensures a.Block? <==> v.reloads && v.status == Running && v.openCycle && v.worktree.Some?
    ensures a.Take? <==>
              && v.reloads && v.status == Ready && v.readiness == IsReady && v.worktree.Some?
              && v.worktree.value !in locked
    ensures a.DeferPickup? <==> v.reloads && v.status == Ready && !v.readiness.CheckFails? && !a.Take?
    ensures a.DeferPickup? ==> a.seconds == if v.readiness == IsReady && v.worktree.Some? then 5 else 60
    ensures a.Block? || a.Take? ==> v.worktree.Some? && a.worktreeID == v.worktree.value
  {
    if !v.reloads then Bail
    else match v.status
      case Running =>
        if !v.openCycle then Bail
        else if v.worktree.None? then Bail
        else Block(v.worktree.value)
      case Ready =>
        if v.readiness.CheckFails? then Bail
        else if v.readiness.NotReady? then DeferPickup(60)
        else if v.worktree.None? then DeferPickup(60)
        else if v.worktree.value in locked then DeferPickup(5)
        else Take(v.worktree.value)
      case OtherStatus => Bail
  }

  // ----- slots at work -----

  /** A slot waits for a task, looks at one, waits at the gate, or is past it with the lock held. */
  datatype Slot = Receiving | Admitting | Blocked(worktreeID: string) | Past(worktreeID: string)

  /** `gate` maps the locked worktrees to the slots that hold them. */
  datatype World = World(slots: seq<Slot>, gate: map<string, nat>)

  datatype Event =
    | Receive(i: nat)
    | Decide(i: nat, view: View)
    | Acquire(i: nat)
    | Leave(i: nat)          // processOne returns or panics past the gate: the deferred unlock runs
    | PanicEarly(i: nat)     // a panic before the gate

  ghost predicate Init(w: World) {
    w.gate == map[] && forall i :: 0 <= i < |w.slots| ==> w.slots[i] == Receiving
  }

  function PutSlot(w: World, i: nat, s: Slot): World
    requires i < |w.slots|
  {
    w.(slots := w.slots[i := s])
  }

  function Lock(w: World, i: nat, worktreeID: string): World
    requires i < |w.slots|
  {
    World(w.slots[i := Past(worktreeID)], w.gate[worktreeID := i])
  }

  function Decided(w: World, i: nat, view: View): World
    requires i < |w.slots|
  {
    match Admit(view, w.gate.Keys)
    case Bail => PutSlot(w, i, Receiving)
    case DeferPickup(_) => PutSlot(w, i, Receiving)
    case Block(wt) => PutSlot(w, i, Blocked(wt))
    case Take(wt) => Lock(w, i, wt)
  }

  function Released(w: World, i: nat): World
    requires i < |w.slots| && w.slots[i].Past?
  {
    World(w.slots[i := Receiving], w.gate - {w.slots[i].worktreeID})
  }

  predicate Step(w: World, w': World, e: Event) {
    e.i < |w.slots| &&
    match e
    case Receive(i) => w.slots[i] == Receiving && w' == PutSlot(w, i, Admitting)
    case Decide(i, view) =>
      w.slots[i] == Admitting
      && w' == Decided(w, i, view)
    case Acquire(i) =>
      w.slots[i].Blocked? && w.slots[i].worktreeID !in w.gate && w' == Lock(w, i, w.slots[i].worktreeID)
    case Leave(i) =>
      w.slots[i].Past? && w' == Released(w, i)
    case PanicEarly(i) => w.slots[i] == Admitting && w' == PutSlot(w, i, Receiving)
  }

  // processOne, on the gate that the slots share

  /** processOne up to the gate: it does to the gate's locks what the step does to the world's. */
  method ProcessOneAdmission(gate: WorktreeGate, v: View, ghost w: World, ghost i: nat) returns (a: Admission)
    requires gate.locked == w.gate.Keys && i < |w.slots| && w.slots[i] == Admitting
    modifies gate
    ensures a == Admit(v, old(gate.locked))
    ensures Step(w, Decided(w, i, v), Decide(i, v)) && gate.locked == Decided(w, i, v).gate.Keys
  {
    if !v.reloads {
      return Bail;
    }
    match v.status {
      case Running =>
        if !v.openCycle || v.worktree.None? {
          return Bail;
        }
        return Block(v.worktree.value);
      case Ready =>
        if v.readiness == CheckFails {
          return Bail;
        }
        if v.readiness == NotReady || v.worktree.None? {
          return DeferPickup(60);
        }
        var acquired := gate.TryLock(v.worktree.value);
        if !acquired {
          return DeferPickup(5);
        }
        return Take(v.worktree.value);
      case OtherStatus =>
        return Bail;
    }
  }

  /** The deferred unlock, after a return or a panic past the gate. */
  method ProcessOneRelease(gate: WorktreeGate, ghost w: World, ghost i: nat, worktreeID: string)
    requires gate.locked == w.gate.Keys && Inv(w) && i < |w.slots| && w.slots[i] == Past(worktreeID)
    modifies gate
    ensures Step(w, Released(w, i), Leave(i)) && gate.locked == Released(w, i).gate.Keys
  {
    gate.Unlock(worktreeID);
  }

  ghost predicate Run(ws: seq<World>, es: seq<Event>) {
    |ws| == |es| + 1 && forall k :: 0 <= k < |es| ==> Step(ws[k], ws[k + 1], es[k])
  }

  /** The gate's locks are held by exactly the slots past the gate. */
  ghost predicate Inv(w: World) {
    && (forall wt :: wt in w.gate ==> w.gate[wt] < |w.slots| && w.slots[w.gate[wt]] == Past(wt))
    && (forall i :: 0 <= i < |w.slots| && w.slots[i].Past? ==>
          w.slots[i].worktreeID in w.gate && w.gate[w.slots[i].worktreeID] == i)
  }

  lemma PutKeepsInv(w: World, i: nat, s: Slot)
    requires Inv(w) && i < |w.slots| && !w.slots[i].Past? && !s.Past?
    ensures Inv(PutSlot(w, i, s))
  {
  }

  lemma LockKeepsInv(w: World, i: nat, worktreeID: string)
    requires Inv(w) && i < |w.slots| && !w.slots[i].Past? && worktreeID !in w.gate
    ensures Inv(Lock(w, i, worktreeID))
  {
  }

  lemma StepKeepsInv(w: World, w': World, e: Event)
    requires Inv(w) && Step(w, w', e)
    ensures Inv(w') && |w'.slots| == |w.slots|
  {
    match e
    case Decide(i, view) =>
      var s := w'.slots[i];
      if s.Past? {
        LockKeepsInv(w, i, s.worktreeID);
      } else {
        PutKeepsInv(w, i, s);
      }
    case Leave(i) =>
      var gone := w.slots[i].worktreeID;
      forall wt | wt in w'.gate ensures w'.gate[wt] < |w'.slots| && w'.slots[w'.gate[wt]] == Past(wt) {
        assert wt != gone && w.slots[w.gate[wt]] == Past(wt);
      }
    case _ =>
  }

  lemma {:induction false} RunKeepsInv(ws: seq<World>, es: seq<Event>, n: nat)
    requires Run(ws, es) && Init(ws[0]) && n < |ws|
    ensures Inv(ws[n])
    decreases n
  {
    if n > 0 {
      RunKeepsInv(ws, es, n - 1);
      StepKeepsInv(ws[n - 1], ws[n], es[n - 1]);
    }
  }

  /** In every run: two slots are never past the gate for one worktree; a worktree is locked only
      while some slot is past the gate for it; a slot that is not past the gate holds no lock; and a
      slot waits only for one that is past the gate and so can go on. */
  lemma PoolIsSafe(ws: seq<World>, es: seq<Event>, n: nat, i: nat, j: nat)
    requires Run(ws, es) && Init(ws[0]) && n < |ws| && i < |ws[n].slots| && j < |ws[n].slots|
    ensures var w := ws[n];
            && (i != j && w.slots[i].Past? && w.slots[j].Past? ==> w.slots[i].worktreeID != w.slots[j].worktreeID)
            && (forall wt :: wt in w.gate <==> exists k :: 0 <= k < |w.slots| && w.slots[k] == Past(wt))
            && (!w.slots[i].Past? ==> i !in w.gate.Values)
            && (w.slots[i].Blocked? ==>
                  || Step(w, Lock(w, i, w.slots[i].worktreeID), Acquire(i))
                  || exists k :: 0 <= k < |w.slots| && w.slots[k] == Past(w.slots[i].worktreeID))
  {
    RunKeepsInv(ws, es, n);
  }

  // ----- no deadlock -----

  function Weight(slots: seq<Slot>): nat {
    if slots == [] then 0
    else Weight(slots[..|slots| - 1]) + match slots[|slots| - 1]
                                        case Receiving => 0
                                        case Past(_) => 1
                                        case Blocked(_) => 2
                                        case Admitting => 3
  }

  lemma {:induction false} WeightChanges(slots: seq<Slot>, i: nat, s: Slot)
    requires i < |slots|
    ensures Weight(slots[i := s]) - Weight(slots) == Weight([s]) - Weight([slots[i]])
    decreases |slots|
  {
    var n, r := |slots| - 1, slots[i := s];
    assert [s][..0] == [] && [slots[i]][..0] == [];
    if i < n {
      WeightChanges(slots[..n], i, s);
      assert r[..n] == slots[..n][i := s];
    } else {
      assert r[..n] == slots[..n];
    }
  }

  /** Whatever a slot does with the task it has brings it closer to being done with it. */
  lemma StepsDrain(w: World, w': World, e: Event)
    requires Step(w, w', e) && !e.Receive?
    ensures Weight(w'.slots) < Weight(w.slots)
  {
    var s := w'.slots[e.i];
    WeightChanges(w.slots, e.i, s);
    assert [s][..0] == [] && [w.slots[e.i]][..0] == [];
  }

  /** While some slot has a task, some slot with a task can take a step, whatever is read then. */
  lemma SomeSlotMoves(w: World, busy: nat, view: View) returns (e: Event, w': World)
    requires Inv(w) && busy < |w.slots| && w.slots[busy] != Receiving
    ensures Step(w, w', e) && (e.Leave? || e.Acquire? || e == Decide(busy, view))
  {
    if k :| 0 <= k < |w.slots| && w.slots[k].Past? {
      e, w' := Leave(k), Released(w, k);
    } else if w.slots[busy].Blocked? {
      e, w' := Acquire(busy), Lock(w, busy, w.slots[busy].worktreeID);
    } else {
      e, w' := Decide(busy, view), Decided(w, busy, view);
    }
  }

  /** A step that works on what its slot has, reading what `views` says it reads there and then. */
  predicate Drains(w: World, e: Event, views: (World, nat) -> View) {
    e.Leave? || e.Acquire? || (e.Decide? && e.view == views(w, e.i))
  }

  /** From every reachable world, whatever each slot reads at each of its admissions, the slots can all
      finish what they have: no deadlock. */
  lemma {:induction false} CanDrain(w: World, views: (World, nat) -> View) returns (ws: seq<World>, es: seq<Event>)
    requires Inv(w)
    ensures Run(ws, es) && ws[0] == w && Init(ws[|es|]) && |es| <= Weight(w.slots)
    ensures forall k :: 0 <= k < |es| ==> Drains(ws[k], es[k], views)
    decreases Weight(w.slots)
  {
    hide Step, Drains;
    if forall i :: 0 <= i < |w.slots| ==> w.slots[i] == Receiving {
      assert w.gate.Keys == {};
      ws, es := [w], [];
    } else {
      var busy :| 0 <= busy < |w.slots| && w.slots[busy] != Receiving;
      var e, w' := OneSlotMoves(w, busy, views);
      StepKeepsInv(w, w', e);
      StepsDrain(w, w', e);
      var vs, fs := CanDrain(w', views);
      ws, es := [w] + vs, [e] + fs;
      forall k | 0 <= k < |es| ensures Step(ws[k], ws[k + 1], es[k]) && Drains(ws[k], es[k], views) {
        if k > 0 { assert ws[k] == vs[k - 1] && ws[k + 1] == vs[k] && es[k] == fs[k - 1]; }
      }
      assert ws[|es|] == vs[|fs|];
    }
  }

  lemma OneSlotMoves(w: World, busy: nat, views: (World, nat) -> View) returns (e: Event, w': World)
    requires Inv(w) && busy < |w.slots| && w.slots[busy] != Receiving
    ensures Step(w, w', e) && Drains(w, e, views) && !e.Receive?
  {
    e, w' := SomeSlotMoves(w, busy, views(w, busy));
  }
}
