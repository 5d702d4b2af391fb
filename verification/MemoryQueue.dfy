/** The bounded deduplicating queue of pkgs/agents/memory_queue.go: first the object, one whole
    call at a time, then its callers interleaved at the level of lock and channel operations. */
module MemoryQueue {
  import opened Wrappers

  datatype Task = Task(id: string, version: int)

  datatype QueueError = TaskIdRequired | ErrAlreadyQueued | ErrQueueFull | ErrContextDone

  function Ids(buf: seq<Task>): set<string> {
    set i | 0 <= i < |buf| :: buf[i].id
  }

  predicate Distinct(buf: seq<Task>) {
    forall i, j :: 0 <= i < j < |buf| ==> buf[i].id != buf[j].id
  }

  datatype Reception = Received(task: Task) | ContextError | Waits

  class Queue {
    const bufCap: nat
    var pending: set<string>
    var ch: seq<Task>

    constructor (bufCap: nat)
      requires bufCap > 0
      ensures Valid() && this.bufCap == bufCap && ch == []
    {
      this.bufCap, pending, ch := bufCap, {}, [];
    }

    /** Between whole calls the pending ids are the buffered ones, each buffered once. */
    ghost predicate Valid()
      reads this
    {
      |ch| <= bufCap && pending == Ids(ch) && Distinct(ch) && "" !in pending
    }

    method TryEnqueue(task: Task) returns (err: Option<QueueError>)
      requires Valid()
      modifies this
      ensures Valid()
      ensures err == if task.id == "" then Some(TaskIdRequired)
                     else if task.id in Ids(old(ch)) then Some(ErrAlreadyQueued)
                     else if |old(ch)| == bufCap then Some(ErrQueueFull)
                     else None
      ensures ch == if err == None then old(ch) + [task] else old(ch)
    {
      if task.id == "" {
        return Some(TaskIdRequired);
      }
      if task.id in pending {
        return Some(ErrAlreadyQueued);
      }
      if |ch| < bufCap {
        ch := ch + [task];
        pending := pending + {task.id};
        assert forall i :: 0 <= i < |old(ch)| ==> ch[i] == old(ch)[i];
        assert ch[|old(ch)|] == task;
        assert Ids(ch) == Ids(old(ch)) + {task.id};
        return None;
      }
      return Some(ErrQueueFull);
    }

    method NotifyReadyTask(contextDone: bool, task: Task) returns (err: Option<QueueError>)
      requires Valid()
      modifies this
      ensures Valid()
      ensures err == if contextDone then Some(ErrContextDone)
                     else if task.id == "" then Some(TaskIdRequired)
                     else if task.id in Ids(old(ch)) then Some(ErrAlreadyQueued)
                     else if |old(ch)| == bufCap then Some(ErrQueueFull)
                     else None
      ensures ch == if err == None then old(ch) + [task] else old(ch)
    {
      if contextDone {
        return Some(ErrContextDone);
      }
      err := TryEnqueue(task);
    }

    /** The select of Receive: the oldest task, the context's error, or neither yet. When both are
        ready, `picksContext` says which one is taken. */
    method Receive(contextDone: bool, picksContext: bool) returns (r: Reception)
      requires Valid()
      modifies this
      ensures Valid()
      ensures r == if old(ch) != [] && !(contextDone && picksContext) then Received(old(ch)[0])
                   else if contextDone then ContextError
                   else Waits
      ensures ch == if r.Received? then old(ch)[1..] else old(ch)
    {
      if contextDone && (picksContext || ch == []) {
        return ContextError;
      }
      if ch == [] {
        return Waits;
      }
      var task := ch[0];
      ch := ch[1..];
      pending := pending - {task.id};
      assert forall i :: 0 <= i < |ch| ==> ch[i] == old(ch)[i + 1];
      assert Ids(old(ch)) == Ids(ch) + {task.id};
      return Received(task);
    }
  }

  // ----- fine-grained steps -----

  /** Who holds the mutex, and how far into its critical section. */
  datatype Holder =
    | Free
    | Checked(task: Task)    // tryEnqueue has found the id not pending
    | Sent(sent: Task)       // ... and has put the task on the channel
    | Entered                // ... and has entered the id: about to unlock
    | Acking(id: string)     // a consumer about to delete id
    | Acked                  // ... which has done so

  datatype World = World(
    cap: nat,
    holder: Holder,
    pending: set<string>,
    buf: seq<Task>,
    inFlight: multiset<string>,   // ids read from the channel whose reader has not deleted them yet
    accepted: seq<Task>,
    taken: seq<Task>)

  datatype Event =
    | BeginEnqueue(task: Task)
    | Send
    | GiveUp
    | EnterPending
    | ReadChannel
    | BeginAck(id: string)
    | Delete
    | Unlock
    | StrayAck(strayId: string)   // AckAfterRecv for an id that its caller does not hold

  predicate Init(w: World) {
    w.holder == Free && w.pending == {} && w.buf == [] && w.inFlight == multiset{} && w.accepted == [] && w.taken == []
  }

  predicate Step(w: World, w': World, e: Event) {
    match e
    case BeginEnqueue(task) =>
      w.holder == Free && task.id !in w.pending && w' == w.(holder := Checked(task))
    case Send =>
      w.holder.Checked? && |w.buf| < w.cap
      && w' == w.(holder := Sent(w.holder.task),
                  buf := w.buf + [w.holder.task],
                  accepted := w.accepted + [w.holder.task])
    case GiveUp =>
      w.holder.Checked? && |w.buf| >= w.cap && w' == w.(holder := Free)
    case EnterPending =>
      w.holder.Sent? && w' == w.(holder := Entered, pending := w.pending + {w.holder.sent.id})
    case ReadChannel =>
      w.buf != []
      && w' == w.(buf := w.buf[1..], inFlight := w.inFlight + multiset{w.buf[0].id}, taken := w.taken + [w.buf[0]])
    case BeginAck(id) =>
      w.holder == Free && id in w.inFlight && w' == w.(holder := Acking(id))
    case Delete =>
      w.holder.Acking?
      && w' == w.(holder := Acked, pending := w.pending - {w.holder.id}, inFlight := w.inFlight - multiset{w.holder.id})
    case Unlock =>
      (w.holder.Entered? || w.holder.Acked?) && w' == w.(holder := Free)
    case StrayAck(id) =>
      w.holder == Free && w' == w.(pending := w.pending - {id})
  }

  /** No acknowledgement of an id that is still pending, except by the one who holds it. Documented
      consumers, who delete exactly the ids they have read, never make a stray one at all. */
  predicate Harmless(w: World, e: Event) {
    e.StrayAck? ==> e.strayId !in w.pending
  }

  ghost predicate Run(ws: seq<World>, es: seq<Event>) {
    |ws| == |es| + 1 && forall i :: 0 <= i < |es| ==> Step(ws[i], ws[i + 1], es[i])
  }

  ghost predicate HarmlessUpTo(ws: seq<World>, es: seq<Event>, n: nat)
    requires n <= |es| && n <= |ws|
  {
    forall i :: 0 <= i < n ==> Harmless(ws[i], es[i])
  }

  function IdSeq(buf: seq<Task>): seq<string> {
    seq(|buf|, i requires 0 <= i < |buf| => buf[i].id)
  }

  function IdBag(buf: seq<Task>): multiset<string> {
    multiset(IdSeq(buf))
  }

  lemma IdBagCons(buf: seq<Task>)
    requires buf != []
    ensures IdBag(buf) == multiset{buf[0].id} + IdBag(buf[1..])
  {
    assert IdSeq(buf) == [buf[0].id] + IdSeq(buf[1..]);
  }

  lemma IdBagSnoc(buf: seq<Task>, t: Task)
    ensures IdBag(buf + [t]) == IdBag(buf) + multiset{t.id}
  {
    assert IdSeq(buf + [t]) == IdSeq(buf) + [t.id];
  }

  /** The ids that are buffered or in flight, with multiplicity. */
  function Live(w: World): multiset<string> {
    IdBag(w.buf) + w.inFlight
  }

  /** For any consumers, stray acknowledgements included: the buffer is within bounds, tasks leave
      in the order they came in, and nothing is pending that is neither buffered nor in flight. */
  ghost predicate AnyConsumerInv(w: World) {
    && |w.buf| <= w.cap
    && w.accepted == w.taken + w.buf
    && (forall id :: id in w.pending ==> id in Live(w))
    && (w.holder.Sent? ==> w.holder.sent.id in Live(w))
    && (w.holder.Acking? ==> w.holder.id in w.inFlight)
  }

  /** For documented consumers: no id is live twice, and exactly the live ids are pending, except
      for one that has been sent but not entered yet. */
  ghost predicate DocumentedInv(w: World) {
    && (forall id :: Live(w)[id] <= 1)
    && (forall id :: id in w.pending <==> id in Live(w) && !(w.holder.Sent? && w.holder.sent.id == id))
    && (w.holder.Checked? ==> w.holder.task.id !in Live(w))
  }

  lemma BagsOfSend(a: multiset<string>, b: multiset<string>, id: string)
    ensures (a + multiset{id}) + b == (a + b) + multiset{id}
  {
  }

  lemma BagsOfDelete(a: multiset<string>, b: multiset<string>, id: string)
    requires id in b
    ensures a + (b - multiset{id}) == (a + b) - multiset{id}
  {
  }

  lemma BagsOfRead(a: multiset<string>, b: multiset<string>, id: string)
    ensures a + (b + multiset{id}) == (multiset{id} + a) + b
  {
  }

  lemma LiveAfterSend(w: World, w': World)
    requires Step(w, w', Send)
    ensures Live(w') == Live(w) + multiset{w.holder.task.id}
  {
    hide IdBag;
    IdBagSnoc(w.buf, w.holder.task);
    BagsOfSend(IdBag(w.buf), w.inFlight, w.holder.task.id);
  }

  lemma LiveAfterDelete(w: World, w': World)
    requires Step(w, w', Delete) && w.holder.id in w.inFlight
    ensures Live(w') == Live(w) - multiset{w.holder.id}
  {
    hide IdBag;
    BagsOfDelete(IdBag(w.buf), w.inFlight, w.holder.id);
  }

  lemma LiveAfterRead(w: World, w': World)
    requires Step(w, w', ReadChannel)
    ensures Live(w') == Live(w)
  {
    hide IdBag;
    IdBagCons(w.buf);
    BagsOfRead(IdBag(w.buf[1..]), w.inFlight, w.buf[0].id);
  }

  lemma LiveStays(w: World, w': World, e: Event)
    requires Step(w, w', e) && !e.Send? && !e.Delete? && !e.ReadChannel?
    ensures Live(w') == Live(w)
  {
    hide IdBag;
  }

  lemma SendKeepsAnyConsumer(w: World, w': World)
    requires AnyConsumerInv(w) && Step(w, w', Send)
    ensures AnyConsumerInv(w')
  {
    hide Live;
    LiveAfterSend(w, w');
  }

  lemma DeleteKeepsAnyConsumer(w: World, w': World)
    requires AnyConsumerInv(w) && Step(w, w', Delete)
    ensures AnyConsumerInv(w')
  {
    hide Live;
    LiveAfterDelete(w, w');
  }

  lemma ReadKeepsAnyConsumer(w: World, w': World)
    requires AnyConsumerInv(w) && Step(w, w', ReadChannel)
    ensures AnyConsumerInv(w')
  {
    hide Live;
    LiveAfterRead(w, w');
    assert w.taken + w.buf == (w.taken + [w.buf[0]]) + w.buf[1..];
    StillAcking(w, w');
  }

  lemma StepKeepsAnyConsumer(w: World, w': World, e: Event)
    requires AnyConsumerInv(w) && Step(w, w', e)
    ensures AnyConsumerInv(w')
  {
    hide Live;
    match e
    case Send => SendKeepsAnyConsumer(w, w');
    case Delete => DeleteKeepsAnyConsumer(w, w');
    case ReadChannel => ReadKeepsAnyConsumer(w, w');
    case _ => LiveStays(w, w', e);
  }

  lemma StillAcking(w: World, w': World)
    requires Step(w, w', ReadChannel) && (w.holder.Acking? ==> w.holder.id in w.inFlight)
    ensures w'.holder.Acking? ==> w'.holder.id in w'.inFlight
  {
  }

  lemma SendKeepsDocumented(w: World, w': World)
    requires DocumentedInv(w) && Step(w, w', Send)
    ensures DocumentedInv(w')
  {
    hide Live;
    LiveAfterSend(w, w');
  }

  lemma DeleteKeepsDocumented(w: World, w': World)
    requires DocumentedInv(w) && Step(w, w', Delete) && w.holder.id in w.inFlight
    ensures DocumentedInv(w')
  {
    LiveAfterDelete(w, w');
    assert w.holder.id in Live(w);
    hide Live;
  }

  /** A step that leaves the live ids alone. */
  lemma OthersKeepDocumented(w: World, w': World, e: Event)
    requires AnyConsumerInv(w) && DocumentedInv(w) && Step(w, w', e) && Harmless(w, e) && Live(w') == Live(w)
    requires !e.Send? && !e.Delete?
    ensures DocumentedInv(w')
  {
    hide Live;
  }

  lemma StepKeepsDocumented(w: World, w': World, e: Event)
    requires AnyConsumerInv(w) && DocumentedInv(w) && Step(w, w', e) && Harmless(w, e)
    ensures DocumentedInv(w')
  {
    hide Live, DocumentedInv, Harmless;
    match e
    case Send => SendKeepsDocumented(w, w');
    case Delete => DeleteKeepsDocumented(w, w');
    case ReadChannel =>
      LiveAfterRead(w, w');
      OthersKeepDocumented(w, w', e);
    case _ =>
      LiveStays(w, w', e);
      OthersKeepDocumented(w, w', e);
  }

  /** A stray acknowledgement does no harm exactly if its id is not pending at that moment. */
  lemma StrayAckExactly(w: World, w': World, id: string)
    requires AnyConsumerInv(w) && DocumentedInv(w) && Step(w, w', StrayAck(id))
    ensures DocumentedInv(w') <==> id !in w.pending
  {
    hide Live;
    LiveStays(w, w', StrayAck(id));
    if id in w.pending {
      assert id in Live(w') && id !in w'.pending;
    } else {
      assert w' == w;
    }
  }

  lemma {:induction false} RunKeepsInv(ws: seq<World>, es: seq<Event>, n: nat)
    requires Run(ws, es) && Init(ws[0]) && n < |ws|
    ensures AnyConsumerInv(ws[n])
    ensures HarmlessUpTo(ws, es, n) ==> DocumentedInv(ws[n])
    decreases n
  {
    hide Step, Live, Harmless;
    if n == 0 {
      InitKeepsInv(ws[0]);
    } else {
      RunKeepsInv(ws, es, n - 1);
      StepKeepsAnyConsumer(ws[n - 1], ws[n], es[n - 1]);
      if HarmlessUpTo(ws, es, n) {
        StepKeepsDocumented(ws[n - 1], ws[n], es[n - 1]);
      }
    }
  }

  lemma InitKeepsInv(w: World)
    requires Init(w)
    ensures AnyConsumerInv(w) && DocumentedInv(w)
  {
  }

  /** Over a whole run: pending is exact and no id is live twice in every world, exactly if no stray
      acknowledgement ever names an id that is pending at that moment. */
  lemma SafeExactlyIfHarmless(ws: seq<World>, es: seq<Event>)
    requires Run(ws, es) && Init(ws[0])
    ensures (forall n :: 0 <= n < |ws| ==> DocumentedInv(ws[n])) <==> HarmlessUpTo(ws, es, |es|)
  {
    hide Step, DocumentedInv, AnyConsumerInv;
    if HarmlessUpTo(ws, es, |es|) {
      forall n | 0 <= n < |ws| ensures DocumentedInv(ws[n]) {
        RunKeepsInv(ws, es, n);
      }
    } else {
      var i :| 0 <= i < |es| && !Harmless(ws[i], es[i]);
      RunKeepsInv(ws, es, i);
      if DocumentedInv(ws[i]) {
        StrayAckExactly(ws[i], ws[i + 1], es[i].strayId);
      }
    }
  }

  lemma BagHasIds(buf: seq<Task>, id: string)
    ensures id in IdBag(buf) <==> id in Ids(buf)
  {
    var ids := IdSeq(buf);
    if id in IdBag(buf) {
      assert id in ids;
      var i :| 0 <= i < |ids| && ids[i] == id;
      assert buf[i].id == id;
    }
    if id in Ids(buf) {
      var i :| 0 <= i < |buf| && buf[i].id == id;
      assert ids[i] == id;
    }
  }

  lemma BagCountsTwice(buf: seq<Task>, i: nat, j: nat)
    requires i < j < |buf| && buf[i].id == buf[j].id
    ensures IdBag(buf)[buf[i].id] >= 2
  {
    var ids := IdSeq(buf);
    assert ids == ids[..i] + [ids[i]] + ids[i + 1..j] + [ids[j]] + ids[j + 1..];
  }

  lemma BagIsDistinct(buf: seq<Task>)
    requires forall id :: IdBag(buf)[id] <= 1
    ensures Distinct(buf)
  {
    forall i, j | 0 <= i < j < |buf| ensures buf[i].id != buf[j].id {
      if buf[i].id == buf[j].id { BagCountsTwice(buf, i, j); }
    }
  }

  /** Whenever the lock is free in a harmless run, the pending ids are those buffered or in flight,
      none of them twice; nothing is buffered twice. */
  lemma FreeLockIsExact(ws: seq<World>, es: seq<Event>)
    requires Run(ws, es) && Init(ws[0]) && HarmlessUpTo(ws, es, |es|) && ws[|es|].holder == Free
    ensures var w := ws[|es|];
            && (forall id :: id in w.pending <==> id in Ids(w.buf) || id in w.inFlight)
            && (forall id :: id in w.inFlight ==> w.inFlight[id] == 1 && id !in Ids(w.buf))
            && Distinct(w.buf) && |w.buf| <= w.cap && w.accepted == w.taken + w.buf
  {
    hide Step, IdBag, Ids;
    var w := ws[|es|];
    RunKeepsInv(ws, es, |es|);
    forall id: string
      ensures id in w.pending <==> id in Ids(w.buf) || id in w.inFlight
      ensures id in w.inFlight ==> w.inFlight[id] == 1 && id !in Ids(w.buf)
    {
      BagHasIds(w.buf, id);
      assert Live(w)[id] == IdBag(w.buf)[id] + w.inFlight[id];
    }
    forall id: string ensures IdBag(w.buf)[id] <= 1 {
      assert Live(w)[id] == IdBag(w.buf)[id] + w.inFlight[id];
    }
    BagIsDistinct(w.buf);
  }

  lemma Then(ws: seq<World>, es: seq<Event>, e: Event, w': World) returns (ws': seq<World>, es': seq<Event>)
    requires Run(ws, es) && Step(ws[|es|], w', e)
    ensures Run(ws', es') && ws'[0] == ws[0] && ws'[|es'|] == w'
  {
    ws', es' := ws + [w'], es + [e];
    forall i | 0 <= i < |es'| ensures Step(ws'[i], ws'[i + 1], es'[i]) {
      if i < |es| { assert ws'[i] == ws[i] && ws'[i + 1] == ws[i + 1] && es'[i] == es[i]; }
    }
  }

  lemma EnqueueRun(ws: seq<World>, es: seq<Event>, t: Task) returns (ws': seq<World>, es': seq<Event>)
    requires Run(ws, es)
    requires var w := ws[|es|]; w.holder == Free && t.id !in w.pending && |w.buf| < w.cap
    ensures Run(ws', es') && ws'[0] == ws[0]
    ensures var w := ws[|es|];
            ws'[|es'|] == w.(buf := w.buf + [t], accepted := w.accepted + [t], pending := w.pending + {t.id})
  {
    var w := ws[|es|];
    ws', es' := Then(ws, es, BeginEnqueue(t), w.(holder := Checked(t)));
    w := w.(holder := Sent(t), buf := w.buf + [t], accepted := w.accepted + [t]);
    ws', es' := Then(ws', es', Send, w);
    w := w.(holder := Entered, pending := w.pending + {t.id});
    ws', es' := Then(ws', es', EnterPending, w);
    ws', es' := Then(ws', es', Unlock, w.(holder := Free));
  }

  lemma ReceiveRun(ws: seq<World>, es: seq<Event>) returns (ws': seq<World>, es': seq<Event>)
    requires Run(ws, es)
    requires var w := ws[|es|]; w.holder == Free && w.buf != []
    ensures Run(ws', es') && ws'[0] == ws[0]
    ensures var w := ws[|es|];
            ws'[|es'|] == w.(buf := w.buf[1..], taken := w.taken + [w.buf[0]], pending := w.pending - {w.buf[0].id})
  {
    var w := ws[|es|];
    var id := w.buf[0].id;
    var inFlight := w.inFlight;
    w := w.(buf := w.buf[1..], taken := w.taken + [w.buf[0]], inFlight := inFlight + multiset{id});
    ws', es' := Then(ws, es, ReadChannel, w);
    ws', es' := Then(ws', es', BeginAck(id), w.(holder := Acking(id)));
    assert inFlight + multiset{id} - multiset{id} == inFlight;
    w := w.(holder := Acked, pending := w.pending - {id}, inFlight := inFlight);
    ws', es' := Then(ws', es', Delete, w);
    ws', es' := Then(ws', es', Unlock, w.(holder := Free));
  }

  /** Wherever a run has come to, a stray acknowledgement of a buffered id, while there is room,
      lets that id be buffered twice. */
  lemma HarmfulAckAllowsDuplicates(ws: seq<World>, es: seq<Event>, t: Task) returns (ws': seq<World>, es': seq<Event>)
    requires Run(ws, es)
    requires var w := ws[|es|]; w.holder == Free && t in w.buf && |w.buf| < w.cap
    ensures Run(ws', es') && ws'[0] == ws[0] && ws'[|es'|].holder == Free
    ensures ws'[|es'|].buf == ws[|es|].buf + [t] && !Distinct(ws'[|es'|].buf)
  {
    var w := ws[|es|];
    ws', es' := Then(ws, es, StrayAck(t.id), w.(pending := w.pending - {t.id}));
    ws', es' := EnqueueRun(ws', es', t);
    var i :| 0 <= i < |w.buf| && w.buf[i] == t;
    assert ws'[|es'|].buf[i] == t && ws'[|es'|].buf[|w.buf|] == t;
  }

  /** A consumer that acknowledges an id again after Receive has already deleted it, as
      worker.go:69 followed by admission.go:87 does, lets that id be buffered twice. */
  lemma StrayAckAllowsDuplicates(t: Task) returns (ws: seq<World>, es: seq<Event>)
    ensures Run(ws, es) && Init(ws[0]) && ws[|es|].holder == Free && ws[|es|].buf == [t, t]
  {
    ws, es := [World(2, Free, {}, [], multiset{}, [], [])], [];
    ws, es := EnqueueRun(ws, es, t);
    ws, es := ReceiveRun(ws, es);
    ws, es := EnqueueRun(ws, es, t);
    ws, es := Then(ws, es, StrayAck(t.id), ws[|es|].(pending := ws[|es|].pending - {t.id}));
    ws, es := EnqueueRun(ws, es, t);
  }
}
