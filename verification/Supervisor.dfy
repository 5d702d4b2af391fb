/** The worker supervisor of internal/taskapi/agentworker: applySettings and Drain, as an object
    whose locked sections are methods, and then as racing goroutines over the same sections. */
module Supervisor {
  import opened Wrappers

  /** A worker instance is known by the order in which it was spawned. */
  type Instance = nat

  /** `live` are the instances spawned and not cancelled. */
  datatype Sup = Sup(current: Option<Instance>, drained: bool, live: set<Instance>, spawned: nat)

  function Held(inst: Option<Instance>): set<Instance> {
    if inst.Some? then {inst.value} else {}
  }

  // the sections, each under `mu` or a single effect on one instance

  function Spawn(s: Sup): Sup {
    s.(live := s.live + {s.spawned}, spawned := s.spawned + 1)
  }

  function StopInstance(s: Sup, inst: Option<Instance>): Sup {
    s.(live := s.live - Held(inst))
  }

  function ClearCurrent(s: Sup): Sup {
    if s.drained then s else s.(current := None)
  }

  function Publish(s: Sup, next: Instance): Sup {
    if s.drained then s else s.(current := Some(next))
  }

  function TakeForDrain(s: Sup): Sup {
    s.(drained := true, current := None)
  }

  /** What the settings, the policy, the probe and the runner registry come to. */
  datatype Decision = SettingsUnreadable | Idle | ProbeFails | Matches | BuildFails | Restart

  /** At rest nothing runs but the current instance. */
  ghost predicate Quiet(s: Sup) {
    s.live == Held(s.current) && (s.drained ==> s.current == None) && forall i :: i in s.live ==> i < s.spawned
  }

  class Supervisor {
    var current: Option<Instance>
    var drained: bool
    var live: set<Instance>
    var spawned: nat

    constructor ()
      ensures View() == Sup(None, false, {}, 0)
    {
      current, drained, live, spawned := None, false, {}, 0;
    }

    function View(): Sup
      reads this
    {
      Sup(current, drained, live, spawned)
    }

    method SpawnWorkerInstance() returns (next: Instance)
      modifies this
      ensures View() == Spawn(old(View())) && next == old(spawned)
      ensures live == old(live) + {next} && current == old(current) && drained == old(drained)
    {
      next := spawned;
      live, spawned := live + {next}, spawned + 1;
    }

    method StopWorkerInstance(inst: Option<Instance>)
      modifies this
      ensures View() == StopInstance(old(View()), inst)
      ensures live == old(live) - Held(inst) && current == old(current) && drained == old(drained)
                && spawned == old(spawned)
    {
      if inst == None {
        return;
      }
      live := live - {inst.value};
    }

    method ClearCurrentInstance(prev: Option<Instance>)
      modifies this
      ensures View() == ClearCurrent(StopInstance(old(View()), prev))
    {
      StopWorkerInstance(prev);
      if !drained {
        current := None;
      }
    }

    /** An apply that nothing interferes with ends at rest, with a worker exactly when it should have one. */
    method ApplySettings(decision: Decision) returns (ok: bool)
      requires Quiet(View())
      modifies this
      ensures Quiet(View()) && drained == old(drained)
      ensures ok <==> decision !in {SettingsUnreadable, BuildFails} && !drained
      ensures drained || decision == SettingsUnreadable || (decision == Matches && old(current).Some?) ==>
                View() == old(View())
      ensures !drained && decision in {Idle, ProbeFails, BuildFails} ==> current == None
      ensures !drained && (decision == Restart || (decision == Matches && old(current).None?)) ==>
                current == Some(old(spawned)) && spawned == old(spawned) + 1
    {
      if decision == SettingsUnreadable || drained {
        return false;
      }
      var prev := current;
      if decision == Idle || decision == ProbeFails {
        ClearCurrentInstance(prev);
        return true;
      }
      if prev.Some? && decision == Matches {
        return true;
      }
      if decision == BuildFails {
        ClearCurrentInstance(prev);
        return false;
      }
      var next := SpawnWorkerInstance();
      current := Some(next);
      StopWorkerInstance(prev);
      return true;
    }

    method Drain()
      requires Quiet(View())
      modifies this
      ensures Quiet(View()) && drained && current == None && live == {}
    {
      if drained {
        return;
      }
      var inst := current;
      drained, current := true, None;
      StopWorkerInstance(inst);
    }
  }

  // ----- applies and drains at once -----

  /** The apply that holds applyMu, if any; others wait for it. */
  datatype Apply =
    | NoApply
    | Reading
    | Deciding(prev: Option<Instance>)
    | Stopping(prev: Option<Instance>)      // clearCurrentInstance, before stopWorkerInstance
    | Clearing(prev: Option<Instance>)      // ... and after it
    | Spawned(prev: Option<Instance>, next: Instance)
    | Rejecting(next: Instance)             // drained mid-start
    | Swapped(prev: Option<Instance>)       // published; prev still to be stopped

  /** The Drain that found the supervisor undrained; later ones return at once. */
  datatype Drain = NoDrain | DrainStopping(inst: Option<Instance>) | DrainDone

  datatype World = World(sup: Sup, apply: Apply, drain: Drain)

  datatype Event =
    | ApplyBegin
    | ApplyRead(readable: bool)
    | ApplyDecide(decision: Decision)
    | ApplyNext
    | DrainBegin
    | DrainEnd

  ghost predicate Init(w: World) {
    w == World(Sup(None, false, {}, 0), NoApply, NoDrain)
  }

  predicate ApplyNextStep(w: World, w': World) {
    match w.apply
    case Stopping(prev) => w' == w.(sup := StopInstance(w.sup, prev), apply := Clearing(prev))
    case Clearing(prev) => w' == w.(sup := ClearCurrent(w.sup), apply := NoApply)
    case Spawned(prev, next) =>
      w' == w.(sup := Publish(w.sup, next), apply := if w.sup.drained then Rejecting(next) else Swapped(prev))
    case Rejecting(next) => w' == w.(sup := StopInstance(w.sup, Some(next)), apply := NoApply)
    case Swapped(prev) => w' == w.(sup := StopInstance(w.sup, prev), apply := NoApply)
    case _ => false
  }

  predicate Step(w: World, w': World, e: Event) {
    match e
    case ApplyBegin => w.apply == NoApply && w' == w.(apply := Reading)
    case ApplyRead(readable) =>
      w.apply == Reading
      && w' == w.(apply := if readable && !w.sup.drained then Deciding(w.sup.current) else NoApply)
    case ApplyDecide(decision) =>
      w.apply.Deciding? && var prev := w.apply.prev;
      w' == (match decision
            case Restart => w.(sup := Spawn(w.sup), apply := Spawned(prev, w.sup.spawned))
            case Matches =>
              if prev.Some? then w.(apply := NoApply)
              else w.(sup := Spawn(w.sup), apply := Spawned(prev, w.sup.spawned))
            case SettingsUnreadable => w.(apply := NoApply)
            case _ => w.(apply := Stopping(prev)))
    case ApplyNext => ApplyNextStep(w, w')
    case DrainBegin =>
      w' == if w.sup.drained then w else w.(sup := TakeForDrain(w.sup), drain := DrainStopping(w.sup.current))
    case DrainEnd =>
      w.drain.DrainStopping? && w' == w.(sup := StopInstance(w.sup, w.drain.inst), drain := DrainDone)
  }

  ghost predicate Run(ws: seq<World>, es: seq<Event>) {
    |ws| == |es| + 1 && forall i :: 0 <= i < |es| ==> Step(ws[i], ws[i + 1], es[i])
  }

  /** The instances the apply under way is bound to cancel or publish. */
  function OwedByApply(a: Apply): set<Instance> {
    match a
    case Spawned(_, next) => {next}
    case Rejecting(next) => {next}
    case Swapped(prev) => Held(prev)
    case _ => {}
  }

  function OwedByDrain(d: Drain): set<Instance> {
    if d.DrainStopping? then Held(d.inst) else {}
  }

  predicate RemembersCurrent(a: Apply) {
    a.Deciding? || a.Stopping? || a.Clearing? || a.Spawned?
  }

  /** Nothing runs that is not current or about to be cancelled; an undrained current instance runs,
      unless the apply under way has just stopped it; once drained there is none. */
  ghost predicate Inv(w: World) {
    var s := w.sup;
    && s.live <= Held(s.current) + OwedByApply(w.apply) + OwedByDrain(w.drain)
    && (s.drained <==> w.drain != NoDrain)
    && (s.drained ==> s.current == None)
    && (!s.drained && !w.apply.Clearing? ==> Held(s.current) <= s.live)
    && (!s.drained && RemembersCurrent(w.apply) ==> w.apply.prev == s.current)
    && (forall i :: i in s.live ==> i < s.spawned)
    && (w.apply.Spawned? ==> Some(w.apply.next) != w.apply.prev)
    && (w.apply.Swapped? && !s.drained ==> s.current != w.apply.prev)
    && (RemembersCurrent(w.apply) && w.apply.prev.Some? ==> w.apply.prev.value < s.spawned)
    && (s.current.Some? ==> s.current.value < s.spawned)
    && (w.apply.Clearing? ==> Held(w.apply.prev) !! s.live)
    && (w.apply.Spawned? ==> w.apply.next in s.live)
    && (w.drain.DrainStopping? && w.drain.inst.Some? ==> w.drain.inst.value < s.spawned)
    && (w.apply.Spawned? && w.drain.DrainStopping? ==> w.drain.inst != Some(w.apply.next))
    && (w.apply.Rejecting? ==> s.drained)
  }

  lemma StepKeepsInv(w: World, w': World, e: Event)
    requires Inv(w) && Step(w, w', e)
    ensures Inv(w')
  {
  }

  lemma {:induction false} RunKeepsInv(ws: seq<World>, es: seq<Event>, n: nat)
    requires Run(ws, es) && Init(ws[0]) && n < |ws|
    ensures Inv(ws[n])
    decreases n
  {
    if n > 0 {
      RunKeepsInv(ws, es, n - 1);
      StepKeepsInv(ws[n - 1], ws[n], es[n - 1]);
    }
  }

  lemma OwedIsSmall(a: Apply)
    ensures |OwedByApply(a)| <= 1
  {
    match a
    case Swapped(prev) => HeldIsSmall(prev);
    case _ =>
  }

  lemma HeldIsSmall(inst: Option<Instance>)
    ensures |Held(inst)| <= 1
  {
  }

  lemma AtMostTwo(w: World)
    requires Inv(w)
    ensures |w.sup.live| <= 2
  {
    hide Held, OwedByApply;
    var inst := if w.drain.DrainStopping? then w.drain.inst else w.sup.current;
    NothingHeld();
    HeldIsSmall(inst);
    OwedIsSmall(w.apply);
    var a, b := Held(inst), OwedByApply(w.apply);
    SubsetIsSmaller(w.sup.live, a + b);
    assert |a + b| == |a| + |b| - |a * b|;
  }

  lemma NothingHeld()
    ensures Held(None) == {}
  {
  }

  /** In every run: never more than two instances at once; with no apply and no drain under way
      exactly the current instance runs, and none once drained. */
  lemma NoWorkerLeaks(ws: seq<World>, es: seq<Event>, n: nat)
    requires Run(ws, es) && Init(ws[0]) && n < |ws|
    ensures |ws[n].sup.live| <= 2
    ensures ws[n].apply == NoApply && !ws[n].drain.DrainStopping? ==> ws[n].sup.live == Held(ws[n].sup.current)
    ensures ws[n].apply == NoApply && ws[n].drain == DrainDone ==> ws[n].sup.live == {} && ws[n].sup.current == None
  {
    hide Step;
    RunKeepsInv(ws, es, n);
    AtMostTwo(ws[n]);
  }
}
