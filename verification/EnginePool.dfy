/**
  The pool of engine processes: coroutines analysing positions, asking for an engine's
  details and warming the pool up, interleaved in every possible way.

  Each event is one stretch of a coroutine between two points where it may be suspended:
  getting the semaphore or a lock, and the return of an awaited call. Whether an engine's
  process is found dead, whether it starts, how a search ends and when a coroutine is
  cancelled are choices carried by the events. A free lock may go to any coroutine that
  waits for it.
 */
module EnginePool {
  import opened Prelude

  datatype SlotId = SlotId(engine: string, index: nat)

  // A slot's lock and its engine, by the number under which it was started.
  datatype Slot = Slot(owner: Option<nat>, engine: Option<nat>)

  datatype Job =
    | Analyze(engine: string)
    | Info(engine: string)
    | Warmup(rest: seq<SlotId>)

  datatype Outcome = Answered | UnknownEngine | EngineFailed | EngineHung | Cancelled

  datatype Pc =
    | AtSemaphore
    | AtLock(slot: SlotId)
    | Reaping(slot: SlotId, engine: nat)      // collecting a process found dead
    | Starting(slot: SlotId, engine: nat)     // starting a new process
    | Configuring(slot: SlotId, engine: nat)  // sending options to a process in use
    | Searching(slot: SlotId, engine: nat)
    | Killing(slot: SlotId, engine: nat)      // the search timed out; collecting the killed process
    | Done(outcome: Outcome)

  datatype Task = Task(job: Job, pc: Pc)

  datatype Pool = Pool(
    maxWorkers: nat,
    order: seq<SlotId>,           // every slot, in the order of warming up
    slots: map<SlotId, Slot>,
    cursor: map<string, nat>,     // how often a slot of each engine was picked
    permits: nat,                 // what is left of the semaphore
    tasks: seq<Task>,             // every coroutine so far
    starts: seq<SlotId>,          // the slot each engine was started for
    hung: set<nat>)               // the engines whose search timed out

  datatype SearchEnd = Found | Fails | TimesOut

  datatype Event =
    | Call(job: Job)
    | Admit(t: nat)
    | Lock(t: nat, gone: bool)
    | Collected(t: nat)
    | Started(t: nat, ok: bool)
    | Configured(t: nat)
    | SearchEnds(t: nat, end: SearchEnd)
    | Killed(t: nat)
    | Cancel(t: nat)

  // ---------- what a coroutine has ----------

  // The slot whose lock it holds.
  function Held(pc: Pc): Option<SlotId> {
    match pc
    case Reaping(slot, _) => Some(slot)
    case Starting(slot, _) => Some(slot)
    case Configuring(slot, _) => Some(slot)
    case Searching(slot, _) => Some(slot)
    case Killing(slot, _) => Some(slot)
    case _ => None
  }

  // The engine process it talks to.
  function Driven(pc: Pc): Option<nat> {
    match pc
    case Starting(_, e) => Some(e)
    case Configuring(_, e) => Some(e)
    case Searching(_, e) => Some(e)
    case _ => None
  }

  predicate PastSemaphore(task: Task) {
    task.job.Analyze? && !task.pc.AtSemaphore? && !task.pc.Done?
  }

  function Permit(task: Task): nat {
    if PastSemaphore(task) then 1 else 0
  }

  // ---------- steps ----------

  function SetPc(p: Pool, t: nat, pc: Pc): Pool
    requires t < |p.tasks|
  {
    p.(tasks := p.tasks[t := p.tasks[t].(pc := pc)])
  }

  // The lock a coroutine holds, given back.
  function Unlocked(p: Pool, t: nat): map<SlotId, Slot>
    requires t < |p.tasks|
  {
    var held := Held(p.tasks[t].pc);
    if held.Some? && held.value in p.slots
    then p.slots[held.value := p.slots[held.value].(owner := None)]
    else p.slots
  }

  // The end of a call: lock and semaphore are given back on every way out.
  function End(p: Pool, t: nat, outcome: Outcome): Pool
    requires t < |p.tasks|
  {
    SetPc(p, t, Done(outcome)).(slots := Unlocked(p, t), permits := p.permits + Permit(p.tasks[t]))
  }

  // Warming up goes on to the next slot.
  function NextSlotOrEnd(p: Pool, t: nat): Pool
    requires t < |p.tasks| && p.tasks[t].job.Warmup?
  {
    var rest := p.tasks[t].job.rest;
    if rest == [] then End(p, t, Answered)
    else p.(slots := Unlocked(p, t), tasks := p.tasks[t := Task(Warmup(rest[1..]), AtLock(rest[0]))])
  }

  // With its engine acquired, an analysis searches, and the others are through.
  function Acquired(p: Pool, t: nat, slot: SlotId, e: nat): Pool
    requires t < |p.tasks|
  {
    match p.tasks[t].job
    case Analyze(_) => SetPc(p, t, Searching(slot, e))
    case Info(_) => End(p, t, Answered)
    case Warmup(_) => NextSlotOrEnd(p, t)
  }

  function Fresh(p: Pool, t: nat, slot: SlotId): Pool
    requires t < |p.tasks|
  {
    SetPc(p, t, Starting(slot, |p.starts|)).(starts := p.starts + [slot])
  }

  function SetSlot(p: Pool, id: SlotId, slot: Slot): Pool {
    p.(slots := p.slots[id := slot])
  }

  predicate Enabled(p: Pool, ev: Event) {
    match ev
    case Call(_) => true
    case Admit(t) => t < |p.tasks| && p.tasks[t].pc.AtSemaphore? && MayEnter(p, p.tasks[t].job)
    case Lock(t, _) => t < |p.tasks| && p.tasks[t].pc.AtLock? && IsFree(p, p.tasks[t].pc.slot)
    case Collected(t) => t < |p.tasks| && p.tasks[t].pc.Reaping? && p.tasks[t].pc.slot in p.slots
    case Started(t, _) => t < |p.tasks| && p.tasks[t].pc.Starting? && p.tasks[t].pc.slot in p.slots
    case Configured(t) => t < |p.tasks| && p.tasks[t].pc.Configuring?
    case SearchEnds(t, _) => t < |p.tasks| && p.tasks[t].pc.Searching?
    case Killed(t) => t < |p.tasks| && p.tasks[t].pc.Killing? && p.tasks[t].pc.slot in p.slots
    case Cancel(t) => t < |p.tasks| && !p.tasks[t].pc.Done?
  }

  predicate MayEnter(p: Pool, job: Job) {
    p.permits > 0 && p.maxWorkers > 0 && job.Analyze? && job.engine in p.cursor
  }

  predicate IsFree(p: Pool, slot: SlotId) {
    slot in p.slots && p.slots[slot].owner == None
  }

  function First(p: Pool, job: Job): Task {
    match job
    case Analyze(e) => Task(job, if e in p.cursor then AtSemaphore else Done(UnknownEngine))
    case Info(e) => Task(job, if e in p.cursor && SlotId(e, 0) in p.slots then AtLock(SlotId(e, 0)) else Done(UnknownEngine))
    case Warmup(_) =>
      if p.order == [] then Task(Warmup([]), Done(Answered)) else Task(Warmup(p.order[1..]), AtLock(p.order[0]))
  }

  function Picked(p: Pool, engine: string): SlotId
    requires engine in p.cursor && p.maxWorkers > 0
  {
    SlotId(engine, p.cursor[engine] % p.maxWorkers)
  }

  function AfterAdmit(p: Pool, t: nat): Pool
    requires Enabled(p, Admit(t))
  {
    var engine := p.tasks[t].job.engine;
    SetPc(p, t, AtLock(Picked(p, engine))).(
      permits := p.permits - 1, cursor := p.cursor[engine := p.cursor[engine] + 1])
  }

  // A slot without an engine gets a new one; a process found dead is collected first.
  function AfterLock(p: Pool, t: nat, gone: bool): Pool
    requires Enabled(p, Lock(t, gone))
  {
    var slot := p.tasks[t].pc.slot;
    var locked := SetSlot(p, slot, p.slots[slot].(owner := Some(t)));
    match p.slots[slot].engine
    case None => Fresh(locked, t, slot)
    case Some(e) => SetPc(locked, t, if gone then Reaping(slot, e) else Configuring(slot, e))
  }

  function AfterStart(p: Pool, t: nat, ok: bool): Pool
    requires Enabled(p, Started(t, ok))
  {
    var slot, e := p.tasks[t].pc.slot, p.tasks[t].pc.engine;
    if ok then Acquired(SetSlot(p, slot, p.slots[slot].(engine := Some(e))), t, slot, e)
    else if p.tasks[t].job.Warmup? then NextSlotOrEnd(p, t)
    else End(p, t, EngineFailed)
  }

  function AfterSearch(p: Pool, t: nat, end: SearchEnd): Pool
    requires Enabled(p, SearchEnds(t, end))
  {
    match end
    case Found => End(p, t, Answered)
    case Fails => End(p, t, EngineFailed)
    case TimesOut =>
      var pc := p.tasks[t].pc;
      SetPc(p, t, Killing(pc.slot, pc.engine)).(hung := p.hung + {pc.engine})
  }

  function Step(p: Pool, ev: Event): Pool
    requires Enabled(p, ev)
  {
    match ev
    case Call(job) => p.(tasks := p.tasks + [First(p, job)])
    case Admit(t) => AfterAdmit(p, t)
    case Lock(t, gone) => AfterLock(p, t, gone)
    case Collected(t) =>
      var slot := p.tasks[t].pc.slot;
      Fresh(SetSlot(p, slot, p.slots[slot].(engine := None)), t, slot)
    case Started(t, ok) => AfterStart(p, t, ok)
    case Configured(t) => Acquired(p, t, p.tasks[t].pc.slot, p.tasks[t].pc.engine)
    case SearchEnds(t, end) => AfterSearch(p, t, end)
    case Killed(t) =>
      var slot := p.tasks[t].pc.slot;
      End(SetSlot(p, slot, p.slots[slot].(engine := None)), t, EngineHung)
    case Cancel(t) => End(p, t, Cancelled)
  }

  // An event that cannot happen changes nothing.
  function Next(p: Pool, ev: Event): Pool {
    if Enabled(p, ev) then Step(p, ev) else p
  }

  function Exec(p: Pool, events: seq<Event>): Pool {
    if events == [] then p else Next(Exec(p, events[..|events| - 1]), events[|events| - 1])
  }

  // A new pool: the given engines with as many slots each as there are workers.
  ghost predicate IsNew(p: Pool) {
    && p.maxWorkers >= 1 && p.permits == p.maxWorkers
    && p.tasks == [] && p.starts == [] && p.hung == {}
    && (forall id :: id in p.slots <==> id.engine in p.cursor && id.index < p.maxWorkers)
    && (forall id :: id in p.slots ==> p.slots[id] == Slot(None, None))
    && (forall k :: 0 <= k < |p.order| ==> p.order[k] in p.slots)
    && (forall e :: e in p.cursor ==> p.cursor[e] == 0)
  }

  // ---------- the invariant ----------

  predicate Attends(p: Pool, t: nat, slot: SlotId) {
    slot in p.slots && p.slots[slot].owner == Some(t)
  }

  // What holds of one coroutine: it holds the lock of the slot it works on, and the
  // engine it works with is that slot's own.
  predicate TaskFits(p: Pool, t: nat)
    requires t < |p.tasks|
  {
    var task := p.tasks[t];
    && (task.job.Analyze? && !task.pc.Done? ==> task.job.engine in p.cursor)
    && (task.job.Warmup? ==> forall k :: 0 <= k < |task.job.rest| ==> task.job.rest[k] in p.slots)
    && match task.pc
       case AtSemaphore => task.job.Analyze?
       case AtLock(slot) => slot in p.slots
       case Reaping(slot, e) => Attends(p, t, slot) && p.slots[slot].engine == Some(e)
       case Starting(slot, e) =>
         Attends(p, t, slot) && p.slots[slot].engine == None && e < |p.starts| && p.starts[e] == slot && e !in p.hung
       case Configuring(slot, e) => Attends(p, t, slot) && p.slots[slot].engine == Some(e)
       case Searching(slot, e) => Attends(p, t, slot) && p.slots[slot].engine == Some(e) && task.job.Analyze?
       case Killing(slot, e) =>
         Attends(p, t, slot) && p.slots[slot].engine == Some(e) && task.job.Analyze? && e in p.hung
       case Done(_) => true
  }

  predicate SlotFits(p: Pool, id: SlotId)
    requires id in p.slots
  {
    var slot := p.slots[id];
    && (slot.owner.Some? ==> slot.owner.value < |p.tasks| && Held(p.tasks[slot.owner.value].pc) == Some(id))
    && (slot.engine.Some? ==> slot.engine.value < |p.starts| && p.starts[slot.engine.value] == id)
  }

  function SumOver(tasks: seq<Task>, f: Task -> nat): nat {
    if tasks == [] then 0 else SumOver(tasks[..|tasks| - 1], f) + f(tasks[|tasks| - 1])
  }

  ghost predicate Ring(p: Pool) {
    && p.maxWorkers >= 1
    && (forall id :: id in p.slots <==> id.engine in p.cursor && id.index < p.maxWorkers)
    && (forall k :: 0 <= k < |p.order| ==> p.order[k] in p.slots)
  }

  ghost predicate Sound(p: Pool) {
    && Ring(p)
    && p.permits + SumOver(p.tasks, Permit) == p.maxWorkers
    && (forall t: nat :: t < |p.tasks| ==> TaskFits(p, t))
    && (forall id :: id in p.slots ==> SlotFits(p, id))
    && (forall e :: e in p.hung ==> e < |p.starts|)
  }

  // ---------- every step keeps it ----------

  lemma {:induction false} SumOfUpdate(tasks: seq<Task>, t: nat, task: Task, f: Task -> nat)
    requires t < |tasks|
    ensures SumOver(tasks[t := task], f) == SumOver(tasks, f) - f(tasks[t]) + f(task)
    ensures SumOver(tasks, f) >= f(tasks[t])
  {
    var init, last := tasks[..|tasks| - 1], tasks[t := task];
    if t < |init| {
      SumOfUpdate(init, t, task, f);
      assert last[..|last| - 1] == init[t := task];
    } else {
      assert last[..|last| - 1] == init;
    }
  }

  lemma SumOfAppend(tasks: seq<Task>, task: Task, f: Task -> nat)
    ensures SumOver(tasks + [task], f) == SumOver(tasks, f) + f(task)
  {
    assert (tasks + [task])[..|tasks|] == tasks;
  }

  lemma StepKeepsPermits(p: Pool, ev: Event)
    requires Sound(p) && Enabled(p, ev) && !ev.Call?
    ensures Step(p, ev).permits + SumOver(Step(p, ev).tasks, Permit) == p.maxWorkers
  {
    var q := Step(p, ev);
    PermitPassedOn(p, ev);
    SumOfUpdate(p.tasks, ev.t, q.tasks[ev.t], Permit);
  }

  lemma PermitPassedOn(p: Pool, ev: Event)
    requires Enabled(p, ev) && !ev.Call?
    requires TaskFits(p, ev.t)
    ensures var q := Step(p, ev);
      && |q.tasks| == |p.tasks| && q.tasks == p.tasks[ev.t := q.tasks[ev.t]]
      && q.permits + Permit(q.tasks[ev.t]) == p.permits + Permit(p.tasks[ev.t])
  {
    if ev.Started? || ev.Configured? {
      AcquiringPermitPassedOn(p, ev);
    } else if ev.SearchEnds? || ev.Killed? || ev.Cancel? {
      EndingPermitPassedOn(p, ev);
    }
  }

  lemma AcquiringPermitPassedOn(p: Pool, ev: Event)
    requires Enabled(p, ev) && (ev.Started? || ev.Configured?)
    requires TaskFits(p, ev.t)
    ensures var q := Step(p, ev);
      && |q.tasks| == |p.tasks| && q.tasks == p.tasks[ev.t := q.tasks[ev.t]]
      && q.permits + Permit(q.tasks[ev.t]) == p.permits + Permit(p.tasks[ev.t])
  {
  }

  lemma EndingPermitPassedOn(p: Pool, ev: Event)
    requires Enabled(p, ev) && (ev.SearchEnds? || ev.Killed? || ev.Cancel?)
    requires TaskFits(p, ev.t)
    ensures var q := Step(p, ev);
      && |q.tasks| == |p.tasks| && q.tasks == p.tasks[ev.t := q.tasks[ev.t]]
      && q.permits + Permit(q.tasks[ev.t]) == p.permits + Permit(p.tasks[ev.t])
  {
  }

  // The slot a coroutine waits for or works on.
  function Place(pc: Pc): Option<SlotId> {
    if pc.AtLock? then Some(pc.slot) else Held(pc)
  }

  // The change of one coroutine t: another's state stays as it is, and so does every slot
  // but the one t is at, which nobody else holds.
  ghost predicate Local(p: Pool, q: Pool, t: nat) {
    && t < |p.tasks| == |q.tasks|
    && (forall u: nat :: u < |p.tasks| && u != t ==> q.tasks[u] == p.tasks[u])
    && p.slots.Keys == q.slots.Keys && p.cursor.Keys == q.cursor.Keys
    && (forall id :: id in p.slots ==> q.slots[id] == p.slots[id] || IsAt(p, t, id))
    && p.starts <= q.starts
    && p.maxWorkers == q.maxWorkers && p.order == q.order
    && (forall e :: e in q.hung ==> e in p.hung || (p.tasks[t].pc.Searching? && p.tasks[t].pc.engine == e))
    && p.hung <= q.hung
  }

  predicate IsAt(p: Pool, t: nat, id: SlotId)
    requires t < |p.tasks|
  {
    id in p.slots && Place(p.tasks[t].pc) == Some(id) && (p.slots[id].owner == None || p.slots[id].owner == Some(t))
  }

  lemma StepIsLocal(p: Pool, ev: Event)
    requires Sound(p) && Enabled(p, ev) && !ev.Call?
    ensures Local(p, Step(p, ev), ev.t)
  {
    assert TaskFits(p, ev.t);
    KeepsItsSlots(p, ev);
    forall id | id in p.slots ensures Step(p, ev).slots[id] == p.slots[id] || IsAt(p, ev.t, id) {
      SlotIsLocal(p, ev, id);
    }
    if ev.Started? || ev.Configured? {
      AcquiringIsLocal(p, ev);
    } else if ev.SearchEnds? || ev.Killed? || ev.Cancel? {
      EndingIsLocal(p, ev);
    }
  }

  lemma AcquiringIsLocal(p: Pool, ev: Event)
    requires Enabled(p, ev) && (ev.Started? || ev.Configured?)
    ensures var q := Step(p, ev);
      && q.starts == p.starts && q.hung == p.hung && q.cursor == p.cursor
      && q.maxWorkers == p.maxWorkers && q.order == p.order && |q.tasks| == |p.tasks|
      && (forall u: nat :: u < |p.tasks| && u != ev.t ==> q.tasks[u] == p.tasks[u])
  {
    if ev.Started? {
      StartingIsLocal(p, ev);
    }
  }

  lemma StartingIsLocal(p: Pool, ev: Event)
    requires Enabled(p, ev) && ev.Started?
    ensures var q := Step(p, ev);
      && q.starts == p.starts && q.hung == p.hung && q.cursor == p.cursor
      && q.maxWorkers == p.maxWorkers && q.order == p.order && |q.tasks| == |p.tasks|
      && (forall u: nat :: u < |p.tasks| && u != ev.t ==> q.tasks[u] == p.tasks[u])
  {
  }

  lemma EndingIsLocal(p: Pool, ev: Event)
    requires Enabled(p, ev) && (ev.SearchEnds? || ev.Killed? || ev.Cancel?)
    ensures var q := Step(p, ev);
      && q.starts == p.starts && q.cursor == p.cursor
      && q.maxWorkers == p.maxWorkers && q.order == p.order && |q.tasks| == |p.tasks|
      && (forall u: nat :: u < |p.tasks| && u != ev.t ==> q.tasks[u] == p.tasks[u])
  {
  }

  lemma KeepsItsSlots(p: Pool, ev: Event)
    requires Enabled(p, ev) && !ev.Call? && TaskFits(p, ev.t)
    ensures Step(p, ev).slots.Keys == p.slots.Keys
  {
    if ev.Started? || ev.Configured? {
      AcquirerKeepsSlots(p, ev);
    }
  }

  lemma AcquirerKeepsSlots(p: Pool, ev: Event)
    requires Enabled(p, ev) && (ev.Started? || ev.Configured?) && TaskFits(p, ev.t)
    ensures Step(p, ev).slots.Keys == p.slots.Keys
  {
  }

  lemma SlotIsLocal(p: Pool, ev: Event, id: SlotId)
    requires Enabled(p, ev) && !ev.Call? && TaskFits(p, ev.t) && id in p.slots
    ensures id in Step(p, ev).slots && (Step(p, ev).slots[id] == p.slots[id] || IsAt(p, ev.t, id))
  {
    if ev.Started? || ev.Configured? {
      AcquiringSlotIsLocal(p, ev, id);
    } else if ev.SearchEnds? || ev.Killed? || ev.Cancel? {
      EndingSlotIsLocal(p, ev, id);
    }
  }

  lemma AcquiringSlotIsLocal(p: Pool, ev: Event, id: SlotId)
    requires Enabled(p, ev) && (ev.Started? || ev.Configured?) && TaskFits(p, ev.t) && id in p.slots
    ensures id in Step(p, ev).slots && (Step(p, ev).slots[id] == p.slots[id] || IsAt(p, ev.t, id))
  {
  }

  lemma EndingSlotIsLocal(p: Pool, ev: Event, id: SlotId)
    requires Enabled(p, ev) && (ev.SearchEnds? || ev.Killed? || ev.Cancel?) && TaskFits(p, ev.t) && id in p.slots
    ensures id in Step(p, ev).slots && (Step(p, ev).slots[id] == p.slots[id] || IsAt(p, ev.t, id))
  {
  }

  lemma OthersFit(p: Pool, q: Pool, t: nat, u: nat)
    requires Sound(p) && Local(p, q, t) && u < |p.tasks| && u != t
    ensures TaskFits(q, u)
  {
    assert TaskFits(p, u) && TaskFits(p, t);
  }

  lemma OtherSlotsFit(p: Pool, q: Pool, t: nat, id: SlotId)
    requires Sound(p) && Local(p, q, t) && id in p.slots && Place(p.tasks[t].pc) != Some(id)
    ensures SlotFits(q, id)
  {
    assert SlotFits(p, id);
  }

  lemma ActorFits(p: Pool, ev: Event)
    requires Sound(p) && Enabled(p, ev) && !ev.Call?
    ensures |Step(p, ev).tasks| == |p.tasks| && TaskFits(Step(p, ev), ev.t)
  {
    assert TaskFits(p, ev.t);
    if ev.Started? || ev.Configured? {
      AcquirerFits(p, ev);
    } else if ev.SearchEnds? || ev.Killed? || ev.Cancel? {
      EnderFits(p, ev);
    }
  }

  lemma AcquirerFits(p: Pool, ev: Event)
    requires Enabled(p, ev) && (ev.Started? || ev.Configured?)
    requires TaskFits(p, ev.t)
    ensures |Step(p, ev).tasks| == |p.tasks| && TaskFits(Step(p, ev), ev.t)
  {
    if ev.Started? {
      StarterFits(p, ev);
    }
  }

  lemma StarterFits(p: Pool, ev: Event)
    requires Enabled(p, ev) && ev.Started?
    requires TaskFits(p, ev.t)
    ensures |Step(p, ev).tasks| == |p.tasks| && TaskFits(Step(p, ev), ev.t)
  {
  }

  lemma EnderFits(p: Pool, ev: Event)
    requires Enabled(p, ev) && (ev.SearchEnds? || ev.Killed? || ev.Cancel?)
    requires TaskFits(p, ev.t)
    ensures |Step(p, ev).tasks| == |p.tasks| && TaskFits(Step(p, ev), ev.t)
  {
  }

  lemma ActorSlotFits(p: Pool, ev: Event, id: SlotId)
    requires Enabled(p, ev) && !ev.Call? && Place(p.tasks[ev.t].pc) == Some(id)
    requires TaskFits(p, ev.t) && id in p.slots && SlotFits(p, id)
    ensures id in Step(p, ev).slots && SlotFits(Step(p, ev), id)
  {
    assert SlotFits(p, id);
    if ev.Started? || ev.Configured? {
      AcquiringActorSlotFits(p, ev, id);
    } else if ev.SearchEnds? || ev.Killed? || ev.Cancel? {
      EndingActorSlotFits(p, ev, id);
    }
  }

  lemma AcquiringActorSlotFits(p: Pool, ev: Event, id: SlotId)
    requires Enabled(p, ev) && (ev.Started? || ev.Configured?) && Place(p.tasks[ev.t].pc) == Some(id)
    requires TaskFits(p, ev.t) && id in p.slots && SlotFits(p, id)
    ensures id in Step(p, ev).slots && SlotFits(Step(p, ev), id)
  {
    assert SlotFits(p, id);
  }

  lemma EndingActorSlotFits(p: Pool, ev: Event, id: SlotId)
    requires Enabled(p, ev) && (ev.SearchEnds? || ev.Killed? || ev.Cancel?) && Place(p.tasks[ev.t].pc) == Some(id)
    requires TaskFits(p, ev.t) && id in p.slots && SlotFits(p, id)
    ensures id in Step(p, ev).slots && SlotFits(Step(p, ev), id)
  {
    assert SlotFits(p, id);
    if ev.SearchEnds? {
      SearcherSlotFits(p, ev, id);
    }
  }

  lemma SearcherSlotFits(p: Pool, ev: Event, id: SlotId)
    requires Enabled(p, ev) && ev.SearchEnds? && Place(p.tasks[ev.t].pc) == Some(id)
    requires TaskFits(p, ev.t) && id in p.slots && SlotFits(p, id)
    ensures id in Step(p, ev).slots && SlotFits(Step(p, ev), id)
  {
    assert SlotFits(p, id);
  }

  lemma CallKeepsSound(p: Pool, job: Job)
    requires Sound(p)
    ensures Sound(Step(p, Call(job)))
  {
    var q := Step(p, Call(job));
    SumOfAppend(p.tasks, First(p, job), Permit);
    forall t: nat | t < |q.tasks| ensures TaskFits(q, t) {
      if t < |p.tasks| {
        assert TaskFits(p, t);
      }
    }
    forall id | id in q.slots ensures SlotFits(q, id) {
      assert SlotFits(p, id);
    }
  }

  /** Every step keeps the invariant. */
  lemma StepKeepsSound(p: Pool, ev: Event)
    requires Sound(p) && Enabled(p, ev)
    ensures Sound(Step(p, ev))
  {
    if ev.Call? {
      CallKeepsSound(p, ev.job);
    } else {
      var q := Step(p, ev);
      StepIsLocal(p, ev);
      StepKeepsPermits(p, ev);
      forall t: nat | t < |q.tasks| ensures TaskFits(q, t) {
        if t == ev.t {
          ActorFits(p, ev);
        } else {
          OthersFit(p, q, ev.t, t);
        }
      }
      forall id | id in q.slots ensures SlotFits(q, id) {
        if Place(p.tasks[ev.t].pc) == Some(id) {
          ActorSlotFits(p, ev, id);
        } else {
          OtherSlotsFit(p, q, ev.t, id);
        }
      }
      assert TaskFits(p, ev.t);
    }
  }

  /** However the coroutines interleave, the pool is sound. */
  lemma {:induction false} AlwaysSound(p: Pool, events: seq<Event>)
    requires IsNew(p)
    ensures Sound(Exec(p, events))
  {
    if events != [] {
      var before, ev := Exec(p, events[..|events| - 1]), events[|events| - 1];
      AlwaysSound(p, events[..|events| - 1]);
      if Enabled(before, ev) {
        StepKeepsSound(before, ev);
      }
    }
  }

  // ---------- exclusion ----------

  /** No two coroutines work on one slot, none drive one engine process, and no more than
      the given number of analyses are past the semaphore. */
  lemma Exclusion(p: Pool, t: nat, u: nat)
    requires Sound(p) && t < u < |p.tasks|
    ensures Held(p.tasks[t].pc).Some? ==> Held(p.tasks[t].pc) != Held(p.tasks[u].pc)
    ensures Driven(p.tasks[t].pc).Some? ==> Driven(p.tasks[t].pc) != Driven(p.tasks[u].pc)
    ensures SumOver(p.tasks, Permit) <= p.maxWorkers
  {
    assert TaskFits(p, t) && TaskFits(p, u);
    if Driven(p.tasks[t].pc).Some? && Driven(p.tasks[t].pc) == Driven(p.tasks[u].pc) {
      OwnEngine(p, t);
      OwnEngine(p, u);
    }
  }

  // An engine is driven only by the holder of the slot it was started for.
  lemma OwnEngine(p: Pool, t: nat)
    requires Sound(p) && t < |p.tasks| && Driven(p.tasks[t].pc).Some?
    ensures var e := Driven(p.tasks[t].pc).value;
      e < |p.starts| && Held(p.tasks[t].pc) == Some(p.starts[e])
  {
    assert TaskFits(p, t);
    assert SlotFits(p, p.tasks[t].pc.slot);
  }

  /** When every call has ended, nothing is left locked and the semaphore is whole. */
  lemma NothingLeaks(p: Pool)
    requires Sound(p) && forall t: nat :: t < |p.tasks| ==> p.tasks[t].pc.Done?
    ensures p.permits == p.maxWorkers
    ensures forall id :: id in p.slots ==> p.slots[id].owner == None
  {
    NobodyInside(p.tasks);
    forall id | id in p.slots ensures p.slots[id].owner == None {
      assert SlotFits(p, id);
    }
  }

  lemma {:induction false} NobodyInside(tasks: seq<Task>)
    ensures SumOver(tasks, Permit) == 0 <==> forall t: nat :: t < |tasks| ==> !PastSemaphore(tasks[t])
  {
    if tasks != [] {
      var init := tasks[..|tasks| - 1];
      NobodyInside(init);
      assert forall t: nat :: t < |init| ==> init[t] == tasks[t];
    }
  }

  // ---------- taking turns ----------

  // The slots given to the analyses of one engine, in the order they were admitted.
  function Admissions(p: Pool, events: seq<Event>, engine: string): seq<SlotId> {
    if events == [] then []
    else
      var init, ev := events[..|events| - 1], events[|events| - 1];
      var before := Exec(p, init);
      Admissions(p, init, engine)
      + if ev.Admit? && Enabled(before, ev) && before.tasks[ev.t].job.engine == engine
        then [Step(before, ev).tasks[ev.t].pc.slot]
        else []
  }

  /** The slots of an engine take turns, whatever the calls do in between. */
  lemma {:induction false} SlotsTakeTurns(p: Pool, events: seq<Event>, engine: string)
    requires IsNew(p) && engine in p.cursor
    ensures var picks, q := Admissions(p, events, engine), Exec(p, events);
      && engine in q.cursor && q.cursor[engine] == |picks|
      && q.maxWorkers == p.maxWorkers
      && forall k :: 0 <= k < |picks| ==> picks[k] == SlotId(engine, k % p.maxWorkers)
  {
    if events != [] {
      var init, ev := events[..|events| - 1], events[|events| - 1];
      SlotsTakeTurns(p, init, engine);
      CursorMoves(Exec(p, init), ev, engine);
    }
  }

  lemma CursorMoves(p: Pool, ev: Event, engine: string)
    requires engine in p.cursor
    ensures var q := Next(p, ev);
      && q.maxWorkers == p.maxWorkers && engine in q.cursor
      && q.cursor[engine] == p.cursor[engine]
         + if ev.Admit? && Enabled(p, ev) && p.tasks[ev.t].job.engine == engine then 1 else 0
  {
  }

  // ---------- progress ----------

  predicate IsProgress(ev: Event) {
    !ev.Call? && !ev.Cancel?
  }

  // The return of the call a coroutine inside a slot waits for.
  function Return(t: nat, pc: Pc): Event
    requires Held(pc).Some?
  {
    match pc
    case Reaping(_, _) => Collected(t)
    case Starting(_, _) => Started(t, true)
    case Configuring(_, _) => Configured(t)
    case Searching(_, _) => SearchEnds(t, Found)
    case Killing(_, _) => Killed(t)
  }

  // What can happen when a coroutine waits for a lock: it gets it, or its holder goes on.
  lemma LockIsNotStuck(p: Pool, t: nat) returns (ev: Event)
    requires Sound(p) && t < |p.tasks| && (p.tasks[t].pc.AtLock? || Held(p.tasks[t].pc).Some?)
    ensures IsProgress(ev) && Enabled(p, ev)
  {
    assert TaskFits(p, t);
    if Held(p.tasks[t].pc).Some? {
      ev := Return(t, p.tasks[t].pc);
    } else {
      var slot := p.tasks[t].pc.slot;
      assert SlotFits(p, slot);
      if p.slots[slot].owner == None {
        ev := Lock(t, false);
      } else {
        var u := p.slots[slot].owner.value;
        assert TaskFits(p, u);
        ev := Return(u, p.tasks[u].pc);
      }
    }
  }

  /** There is no deadlock: while some call has not ended, some coroutine can go on. */
  lemma NoDeadlock(p: Pool, t: nat) returns (ev: Event)
    requires Sound(p) && t < |p.tasks| && !p.tasks[t].pc.Done?
    ensures IsProgress(ev) && Enabled(p, ev)
  {
    assert TaskFits(p, t);
    if !p.tasks[t].pc.AtSemaphore? {
      ev := LockIsNotStuck(p, t);
    } else if p.permits > 0 {
      ev := Admit(t);
    } else {
      NobodyInside(p.tasks);
      var u: nat :| u < |p.tasks| && PastSemaphore(p.tasks[u]);
      ev := LockIsNotStuck(p, u);
    }
  }

  // How many steps a coroutine can still take, at most.
  function Ahead(task: Task): nat {
    match task.pc
    case Done(_) => 0
    case AtSemaphore => 6
    case AtLock(_) => 5 + Later(task.job)
    case Reaping(_, _) => 4 + Later(task.job)
    case Starting(_, _) => 3 + Later(task.job)
    case Configuring(_, _) => 3 + Later(task.job)
    case Searching(_, _) => 2
    case Killing(_, _) => 1
  }

  function Later(job: Job): nat {
    if job.Warmup? then 6 * |job.rest| else 0
  }

  /** Every step brings the calls nearer to their end, so a run without new calls is no
      longer than this total. */
  lemma EveryStepAdvances(p: Pool, ev: Event)
    requires Sound(p) && Enabled(p, ev) && !ev.Call?
    ensures SumOver(Step(p, ev).tasks, Ahead) < SumOver(p.tasks, Ahead)
  {
    var q := Step(p, ev);
    PermitPassedOn(p, ev);
    ActorAdvances(p, ev);
    SumOfUpdate(p.tasks, ev.t, q.tasks[ev.t], Ahead);
  }

  lemma ActorAdvances(p: Pool, ev: Event)
    requires Enabled(p, ev) && !ev.Call?
    requires TaskFits(p, ev.t)
    ensures ev.t < |Step(p, ev).tasks| && Ahead(Step(p, ev).tasks[ev.t]) < Ahead(p.tasks[ev.t])
  {
    if ev.Started? || ev.Configured? {
      AcquiringActorAdvances(p, ev);
    } else if ev.SearchEnds? || ev.Killed? || ev.Cancel? {
      EndingActorAdvances(p, ev);
    }
  }

  lemma AcquiringActorAdvances(p: Pool, ev: Event)
    requires Enabled(p, ev) && (ev.Started? || ev.Configured?)
    requires TaskFits(p, ev.t)
    ensures ev.t < |Step(p, ev).tasks| && Ahead(Step(p, ev).tasks[ev.t]) < Ahead(p.tasks[ev.t])
  {
    if ev.Started? {
      StarterAdvances(p, ev);
    }
  }

  lemma StarterAdvances(p: Pool, ev: Event)
    requires Enabled(p, ev) && ev.Started?
    requires TaskFits(p, ev.t)
    ensures ev.t < |Step(p, ev).tasks| && Ahead(Step(p, ev).tasks[ev.t]) < Ahead(p.tasks[ev.t])
  {
  }

  lemma EndingActorAdvances(p: Pool, ev: Event)
    requires Enabled(p, ev) && (ev.SearchEnds? || ev.Killed? || ev.Cancel?)
    requires TaskFits(p, ev.t)
    ensures ev.t < |Step(p, ev).tasks| && Ahead(Step(p, ev).tasks[ev.t]) < Ahead(p.tasks[ev.t])
  {
  }

  // ---------- what a coroutine does next ----------

  /** Where a call begins: an analysis at the semaphore, a question at the engine's first slot,
      and a warm-up at the first slot of all, with the others before it. */
  lemma BeginsExactly(p: Pool, engine: string)
    requires Sound(p)
    ensures engine in p.cursor ==>
              && First(p, Analyze(engine)) == Task(Analyze(engine), AtSemaphore)
              && First(p, Info(engine)) == Task(Info(engine), AtLock(SlotId(engine, 0)))
    ensures forall rest :: p.order != [] ==> First(p, Warmup(rest)) == Task(Warmup(p.order[1..]), AtLock(p.order[0]))
    ensures forall rest :: p.order == [] ==> First(p, Warmup(rest)).pc == Done(Answered)
  {}

  /** What happens when a lock is got: a slot without an engine gets a new one, a process found
      dead is collected first, and any other is used again. */
  lemma LocksExactly(p: Pool, t: nat, gone: bool)
    requires Enabled(p, Lock(t, gone))
    ensures var slot, q := p.tasks[t].pc.slot, Step(p, Lock(t, gone));
            && t < |q.tasks| && slot in q.slots && q.slots[slot].owner == Some(t)
            && q.tasks[t].pc == (match p.slots[slot].engine
                                 case None => Starting(slot, |p.starts|)
                                 case Some(e) => if gone then Reaping(slot, e) else Configuring(slot, e))
            && (p.slots[slot].engine.None? ==> q.starts == p.starts + [slot])
  {}

  /** With its engine at hand, an analysis searches and a question is answered; a warm-up goes
      on to the next slot, also when the engine could not be started, until none is left. */
  lemma GoesOnExactly(p: Pool, ev: Event)
    requires Sound(p) && Enabled(p, ev) && (ev.Started? || ev.Configured?)
    ensures |Step(p, ev).tasks| == |p.tasks|
    ensures var task, next := p.tasks[ev.t], Step(p, ev).tasks[ev.t];
            && (task.job.Analyze? && (ev.Started? ==> ev.ok) ==> next.pc == Searching(task.pc.slot, task.pc.engine))
            && (task.job.Info? && (ev.Started? ==> ev.ok) ==> next.pc == Done(Answered))
            && (task.job.Warmup? && task.job.rest == [] ==> next.pc == Done(Answered))
            && (task.job.Warmup? && task.job.rest != [] ==>
                  next == Task(Warmup(task.job.rest[1..]), AtLock(task.job.rest[0])))
  {}

  /** An engine is in its slot exactly when it has started. */
  lemma StartFillsSlotExactly(p: Pool, t: nat, ok: bool)
    requires Sound(p) && Enabled(p, Started(t, ok))
    ensures var slot, e := p.tasks[t].pc.slot, p.tasks[t].pc.engine;
            var q := Step(p, Started(t, ok));
            slot in q.slots && q.slots[slot].engine == if ok then Some(e) else None
  {
    assert TaskFits(p, t);
  }

  // ---------- outcomes ----------

  /** How a call can end: cancelled by a cancellation; by a hung engine when its killed process
      has been collected; by a failed engine when a start or a search fails, but for a warm-up;
      and otherwise answered. */
  lemma EndsExactly(p: Pool, ev: Event, outcome: Outcome)
    requires Enabled(p, ev) && !ev.Call? && |Step(p, ev).tasks| == |p.tasks|
    requires Step(p, ev).tasks[ev.t].pc == Done(outcome)
    ensures outcome == Cancelled <==> ev.Cancel?
    ensures outcome == EngineHung <==> ev.Killed?
    ensures outcome == EngineFailed <==>
              (ev.Started? && !ev.ok && !p.tasks[ev.t].job.Warmup?) || (ev.SearchEnds? && ev.end == Fails)
    ensures outcome == Answered <==>
              || (ev.SearchEnds? && ev.end == Found)
              || ((ev.Started? || ev.Configured?) && !(ev.Started? && !ev.ok && !p.tasks[ev.t].job.Warmup?))
    ensures outcome != UnknownEngine
  {}

  /** A call for an engine the pool does not know ends at once, and no other call does. */
  lemma UnknownExactly(p: Pool, job: Job)
    requires Sound(p) && (job.Analyze? || job.Info?)
    ensures First(p, job).pc == Done(UnknownEngine) <==> job.engine !in p.cursor
    ensures !First(p, job).pc.Done? <==> job.engine in p.cursor
  {}

  /** A search that times out leads to a killed process and from there to a hung engine, unless
      the call is cancelled. */
  lemma TimeoutEndsHung(p: Pool, t: nat)
    requires Sound(p) && Enabled(p, SearchEnds(t, TimesOut))
    ensures var q := Step(p, SearchEnds(t, TimesOut));
            && t < |q.tasks| && q.tasks[t].pc.Killing? && p.tasks[t].pc.engine in q.hung
            && Enabled(q, Killed(t)) && t < |Step(q, Killed(t)).tasks|
            && Step(q, Killed(t)).tasks[t].pc == Done(EngineHung)
  {
    assert TaskFits(p, t);
  }

  // ---------- engines that hung ----------

  // A slot's engine has hung only while its killer is still at work.
  ghost predicate HungAreLeaving(p: Pool) {
    forall id :: id in p.slots ==> SlotIsClean(p, id)
  }

  predicate SlotIsClean(p: Pool, id: SlotId)
    requires id in p.slots
  {
    var slot := p.slots[id];
    slot.engine.Some? && slot.engine.value in p.hung ==>
      && slot.owner.Some? && slot.owner.value < |p.tasks|
      && p.tasks[slot.owner.value].pc == Killing(id, slot.engine.value)
  }

  // Giving up while collecting the killed process.
  predicate Abandons(p: Pool, ev: Event) {
    ev.Cancel? && ev.t < |p.tasks| && p.tasks[ev.t].pc.Killing?
  }

  /** A step leaves a hung engine in its slot exactly when it is the cancellation of the
      coroutine that is collecting the killed process. */
  lemma HungStaysExactly(p: Pool, ev: Event)
    requires Sound(p) && HungAreLeaving(p) && Enabled(p, ev)
    ensures HungAreLeaving(Step(p, ev)) <==> !Abandons(p, ev)
  {
    var q := Step(p, ev);
    if ev.Call? {
      forall id | id in q.slots ensures SlotIsClean(q, id) {
        assert SlotIsClean(p, id) && SlotFits(p, id);
      }
    } else {
      assert TaskFits(p, ev.t);
      if Abandons(p, ev) {
        assert !SlotIsClean(q, p.tasks[ev.t].pc.slot);
      } else {
        StepIsLocal(p, ev);
        forall id | id in q.slots ensures SlotIsClean(q, id) {
          assert SlotIsClean(p, id) && SlotFits(p, id);
          if Place(p.tasks[ev.t].pc) == Some(id) {
            ActorSlotIsClean(p, ev, id);
          } else {
            OtherSlotIsClean(p, q, ev.t, id);
          }
        }
      }
    }
  }

  lemma ActorSlotIsClean(p: Pool, ev: Event, id: SlotId)
    requires Enabled(p, ev) && !ev.Call? && !Abandons(p, ev) && Place(p.tasks[ev.t].pc) == Some(id)
    requires TaskFits(p, ev.t) && id in p.slots && SlotFits(p, id) && SlotIsClean(p, id)
    requires forall e :: e in p.hung ==> e < |p.starts|
    ensures id in Step(p, ev).slots && SlotIsClean(Step(p, ev), id)
  {
    if ev.Started? || ev.Configured? {
      AcquirerIsClean(p, ev, id);
    }
  }

  lemma AcquirerIsClean(p: Pool, ev: Event, id: SlotId)
    requires Enabled(p, ev) && (ev.Started? || ev.Configured?) && Place(p.tasks[ev.t].pc) == Some(id)
    requires TaskFits(p, ev.t) && id in p.slots && SlotFits(p, id) && SlotIsClean(p, id)
    ensures id in Step(p, ev).slots && SlotIsClean(Step(p, ev), id)
  {
  }

  lemma OtherSlotIsClean(p: Pool, q: Pool, t: nat, id: SlotId)
    requires Sound(p) && id in p.slots && SlotIsClean(p, id) && Local(p, q, t) && Place(p.tasks[t].pc) != Some(id)
    ensures SlotIsClean(q, id)
  {
    assert TaskFits(p, t) && SlotFits(p, id);
    if Held(p.tasks[t].pc).Some? {
      assert SlotFits(p, p.tasks[t].pc.slot);
    }
  }

  // No coroutine of the run is cancelled while collecting a killed process.
  predicate Patient(p: Pool, events: seq<Event>) {
    events == []
    || (Patient(p, events[..|events| - 1]) && !Abandons(Exec(p, events[..|events| - 1]), events[|events| - 1]))
  }

  /** Without such a cancellation, an engine whose search timed out is never driven again:
      whoever gets its slot next works with another. */
  lemma HungEngineIsNotReused(p: Pool, events: seq<Event>, t: nat)
    requires IsNew(p) && Patient(p, events) && t < |Exec(p, events).tasks|
    ensures var q := Exec(p, events);
      Driven(q.tasks[t].pc).Some? ==> Driven(q.tasks[t].pc).value !in q.hung
  {
    var q := Exec(p, events);
    AlwaysSound(p, events);
    HungKeepLeaving(p, events);
    assert TaskFits(q, t);
    if Driven(q.tasks[t].pc).Some? {
      assert SlotIsClean(q, q.tasks[t].pc.slot);
    }
  }

  lemma {:induction false} HungKeepLeaving(p: Pool, events: seq<Event>)
    requires IsNew(p) && Patient(p, events)
    ensures HungAreLeaving(Exec(p, events))
  {
    if events != [] {
      var init := events[..|events| - 1];
      HungKeepLeaving(p, init);
      AlwaysSound(p, init);
      if Enabled(Exec(p, init), events[|events| - 1]) {
        HungStaysExactly(Exec(p, init), events[|events| - 1]);
      }
    }
  }

  /** The code does not meet this when such a cancellation happens: in any new pool an
      analysis can time out, be cancelled while it collects the killed process, and leave
      the hung engine for the next caller. */
  lemma AbandonedEngineIsReused(p: Pool, engine: string)
    requires IsNew(p) && engine in p.cursor
    ensures exists events, t: nat :: DrivesHung(Exec(p, events), t)
  {
    var slot := SlotId(engine, 0);
    var timedOut, q := AfterTimeout(p, engine);
    ExecSnoc(p, timedOut, Cancel(0));
    var events := timedOut + [Cancel(0)];
    ExecSnoc(p, events, Call(Info(engine)));
    events := events + [Call(Info(engine))];
    ExecSnoc(p, events, Lock(1, false));
    events := events + [Lock(1, false)];
    assert Exec(p, events).tasks[1].pc == Configuring(slot, 0);
    assert DrivesHung(Exec(p, events), 1);
  }

  predicate DrivesHung(p: Pool, t: nat) {
    t < |p.tasks| && Driven(p.tasks[t].pc).Some? && Driven(p.tasks[t].pc).value in p.hung
  }

  lemma ExecSnoc(p: Pool, events: seq<Event>, ev: Event)
    ensures Exec(p, events + [ev]) == Next(Exec(p, events), ev)
  {
    assert (events + [ev])[..|events|] == events;
  }

  lemma AfterTimeout(p: Pool, engine: string) returns (events: seq<Event>, q: Pool)
    requires IsNew(p) && engine in p.cursor
    ensures q == Exec(p, events) && q.tasks == [Task(Analyze(engine), Killing(SlotId(engine, 0), 0))]
    ensures q.slots == p.slots[SlotId(engine, 0) := Slot(Some(0), Some(0))] && q.hung == {0}
    ensures q.cursor.Keys == p.cursor.Keys
  {
    events, q := AfterStarting(p, engine);
    ExecSnoc(p, events, Started(0, true));
    events, q := events + [Started(0, true)], Next(q, Started(0, true));
    assert q.tasks == [Task(Analyze(engine), Searching(SlotId(engine, 0), 0))];
    ExecSnoc(p, events, SearchEnds(0, TimesOut));
    events, q := events + [SearchEnds(0, TimesOut)], Next(q, SearchEnds(0, TimesOut));
  }

  lemma AfterStarting(p: Pool, engine: string) returns (events: seq<Event>, q: Pool)
    requires IsNew(p) && engine in p.cursor
    ensures q == Exec(p, events) && q.tasks == [Task(Analyze(engine), Starting(SlotId(engine, 0), 0))]
    ensures q.slots == p.slots[SlotId(engine, 0) := Slot(Some(0), None)] && q.hung == {}
    ensures q.cursor.Keys == p.cursor.Keys
  {
    ExecSnoc(p, [], Call(Analyze(engine)));
    events, q := [] + [Call(Analyze(engine))], Next(p, Call(Analyze(engine)));
    assert q.tasks == [Task(Analyze(engine), AtSemaphore)];
    ExecSnoc(p, events, Admit(0));
    events, q := events + [Admit(0)], Next(q, Admit(0));
    assert q.tasks == [Task(Analyze(engine), AtLock(SlotId(engine, 0)))];
    ExecSnoc(p, events, Lock(0, false));
    events, q := events + [Lock(0, false)], Next(q, Lock(0, false));
  }
}
