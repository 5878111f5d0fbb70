/**
  The concurrent life of one game: the game loop, the engine tasks it spawns, and the
  commands of the user interface, interleaved in every possible way.

  Each event is one stretch of code that runs without letting another party in: the
  body of a write or read lock, the arrival of a select branch, a spawn. An interleaving
  is a sequence of events. Time, engine answers, book moves and the outcome of emitting
  an event to the user interface are choices carried by the events.
 */
module GameLoop {
  import opened Prelude
  import opened Replay

  // ---------- states and events ----------

  /** Where an engine task stands. */
  datatype TaskPc =
    | AtBook                              // about to look into the opening book
    | AtBookMove(uci: string, side: Color) // found a book move for `side`
    | AtAsk                               // about to ask the engine
    | Searching(side: Color)              // the engine searches for `side`
    | Ended(ok: bool)                     // returned, not yet joined by the loop

  /** Where the loop stands. */
  datatype LoopPc =
    | Checking   // about to run maybe_start_engine
    | Spawning   // it said yes; about to spawn an engine task
    | Selecting  // waiting for a branch
    | Ticking    // clock branch, waiting for the lock
    | Failing    // joined a failed task, waiting for the lock
    | Dead

  datatype Sys = Sys(
    g: Game,
    pc: LoopPc,
    handle: Option<nat>,       // the engine task the loop knows of
    tasks: map<nat, TaskPc>,   // every task that exists
    nextId: nat,
    token: bool,               // a notification waits in the channel of capacity one
    shutdown: bool)

  /** What the loop needs to know of the game: how a move and a take-back change it, who
      is to move after some moves, and whether an engine plays that side. */
  datatype Desk = Desk(
    moved: (Game, string) -> Option<Game>,
    takenBack: Game -> Game,
    turn: seq<string> -> Color,
    engineToMove: seq<string> -> bool)

  ghost predicate WellBehaved(d: Desk) {
    && (forall g, uci :: d.moved(g, uci).Some? ==>
          && g.status == Playing
          && d.moved(g, uci).value.thinking == g.thinking
          && |d.moved(g, uci).value.ucis| > |g.ucis|)
    && (forall g :: !d.takenBack(g).thinking)
  }

  datatype Event =
    // the user interface; `emitted` tells whether the move event reached it
    | HumanMove(uci: string, emitted: bool)
    | TakeBack(emitted: bool)
    | Resign(color: Color)
    | Abort
    // the loop
    | LoopCheck
    | LoopSpawn
    | SelectShutdown
    | SelectJoin
    | SelectToken
    | SelectTick
    | TickRuns(timedOut: bool)
    | FailEnds
    // an engine task
    | TaskBook(id: nat, found: Option<string>)
    | TaskPlayBook(id: nat, emitted: bool)
    | TaskAsk(id: nat)
    | TaskPlay(id: nat, best: string, emitted: bool)
    | TaskDies(id: nat)
  {
    predicate IsCommand() {
      HumanMove? || TakeBack? || Resign? || Abort?
    }

    predicate IsTask() {
      TaskBook? || TaskPlayBook? || TaskAsk? || TaskPlay? || TaskDies?
    }

    // Emitting the event of a human's command did not fail.
    predicate Delivered() {
      match this
      case HumanMove(_, emitted) => emitted
      case TakeBack(emitted) => emitted
      case _ => true
    }
  }

  // ---------- the commands ----------

  function AfterHumanMove(d: Desk, s: Sys, uci: string, emitted: bool): Sys {
    var moved := d.moved(s.g, uci);
    if d.engineToMove(s.g.ucis) || moved.None? then s
    else if !emitted then s.(g := moved.value)
    else if moved.value.status.Finished? then s.(g := moved.value)
    else s.(g := moved.value, token := true)
  }

  function AfterTakeBack(d: Desk, s: Sys, emitted: bool): Sys {
    if s.g.ucis == [] then s
    else
      var g := d.takenBack(s.g);
      if !emitted then s.(g := g)
      else if g.status.Finished? then s.(g := g)
      else if d.engineToMove(g.ucis) then s.(g := g, token := true)
      else s.(g := g)
  }

  function Over(g: Game, result: GameResult): Game {
    g.(status := Finished(result))
  }

  // ---------- the loop ----------

  predicate MayStartEngine(d: Desk, s: Sys) {
    s.g.status == Playing && d.engineToMove(s.g.ucis) && !s.g.thinking && s.handle.None?
  }

  function AfterCheck(d: Desk, s: Sys): Sys {
    if MayStartEngine(d, s) then s.(g := s.g.(thinking := true), pc := Spawning)
    else s.(pc := Selecting)
  }

  // Leaving the loop aborts the engine task it knows of.
  function Stopped(s: Sys): Sys {
    s.(pc := Dead, handle := None,
       tasks := if s.handle.Some? then s.tasks - {s.handle.value} else s.tasks)
  }

  function LossOf(side: Color, reason: EndReason): GameResult {
    if side == White then BlackWins(reason) else WhiteWins(reason)
  }

  function AfterTick(d: Desk, s: Sys, timedOut: bool): Sys {
    if s.g.status != Playing then Stopped(s)
    else if timedOut then Stopped(s.(g := Over(s.g, LossOf(d.turn(s.g.ucis), Timeout)), shutdown := true))
    else s.(pc := Selecting)
  }

  function AfterJoin(s: Sys, id: nat, ok: bool): Sys {
    s.(handle := None, tasks := s.tasks - {id}, pc := if ok then Checking else Failing)
  }

  function AfterFailure(d: Desk, s: Sys): Sys {
    var g := s.g.(thinking := false);
    Stopped(s.(g := Over(g, LossOf(d.turn(g.ucis), Abandonment)), shutdown := true))
  }

  // ---------- an engine task ----------

  function Goto(s: Sys, id: nat, pc: TaskPc): Sys {
    s.(tasks := s.tasks[id := pc])
  }

  // Holding the write lock, with a move computed when `side` was to move.
  function AfterEngineMove(d: Desk, s: Sys, id: nat, uci: string, side: Color, emitted: bool): Sys {
    var g := s.g.(thinking := false);
    if g.status != Playing || d.turn(g.ucis) != side then Goto(s.(g := g), id, Ended(true))
    else
      match d.moved(g, uci)
      case None => Goto(s.(g := g), id, Ended(false))
      case Some(after) => Goto(s.(g := after), id, Ended(emitted))
  }

  function AfterAsk(d: Desk, s: Sys, id: nat): Sys {
    if s.g.status != Playing then Goto(s, id, Ended(true))
    else if !d.engineToMove(s.g.ucis) then Goto(s, id, Ended(false))
    else Goto(s, id, Searching(d.turn(s.g.ucis)))
  }

  predicate TaskAt(s: Sys, id: nat) {
    id in s.tasks && !s.tasks[id].Ended?
  }

  /** One event, or None when it cannot happen in this state. */
  function Step(d: Desk, s: Sys, ev: Event): Option<Sys> {
    match ev
    case HumanMove(uci, emitted) => Some(AfterHumanMove(d, s, uci, emitted))
    case TakeBack(emitted) => Some(AfterTakeBack(d, s, emitted))
    case Resign(color) => Some(s.(g := Over(s.g, LossOf(color, Resignation)), shutdown := true))
    case Abort => Some(s.(shutdown := true))
    case LoopCheck => if s.pc == Checking then Some(AfterCheck(d, s)) else None
    case LoopSpawn =>
      if s.pc != Spawning then None
      else Some(s.(pc := Selecting, handle := Some(s.nextId),
                   tasks := s.tasks[s.nextId := AtBook], nextId := s.nextId + 1))
    case SelectShutdown => if s.pc == Selecting && s.shutdown then Some(Stopped(s)) else None
    case SelectJoin =>
      if s.pc == Selecting && s.handle.Some? && s.handle.value in s.tasks && s.tasks[s.handle.value].Ended?
      then Some(AfterJoin(s, s.handle.value, s.tasks[s.handle.value].ok))
      else None
    case SelectToken =>
      if s.pc != Selecting || !s.token then None
      else Some(s.(token := false, pc := if s.handle.None? then Checking else Selecting))
    case SelectTick => if s.pc == Selecting then Some(s.(pc := Ticking)) else None
    case TickRuns(timedOut) => if s.pc == Ticking then Some(AfterTick(d, s, timedOut)) else None
    case FailEnds => if s.pc == Failing then Some(AfterFailure(d, s)) else None
    case TaskBook(id, found) =>
      if id !in s.tasks || s.tasks[id] != AtBook then None
      else if found.Some? then Some(Goto(s, id, AtBookMove(found.value, d.turn(s.g.ucis))))
      else Some(Goto(s, id, AtAsk))
    case TaskPlayBook(id, emitted) =>
      if id !in s.tasks || !s.tasks[id].AtBookMove? then None
      else Some(AfterEngineMove(d, s, id, s.tasks[id].uci, s.tasks[id].side, emitted))
    case TaskAsk(id) =>
      if id in s.tasks && s.tasks[id] == AtAsk then Some(AfterAsk(d, s, id)) else None
    case TaskPlay(id, best, emitted) =>
      if id !in s.tasks || !s.tasks[id].Searching? then None
      else Some(AfterEngineMove(d, s, id, best, s.tasks[id].side, emitted))
    case TaskDies(id) =>
      if TaskAt(s, id) then Some(Goto(s, id, Ended(false))) else None
  }

  function Exec(d: Desk, s: Sys, evs: seq<Event>): Option<Sys> {
    if evs == [] then Some(s)
    else
      match Exec(d, s, evs[..|evs| - 1])
      case None => None
      case Some(t) => Step(d, t, evs[|evs| - 1])
  }

  // A game as start_game hands it to the loop.
  predicate Initial(s: Sys) {
    && !s.g.thinking
    && s == Sys(s.g, Checking, None, map[], 0, false, false)
  }

  // ---------- no lost wake-up ----------

  predicate EngineIsDue(d: Desk, s: Sys) {
    s.pc != Dead && s.g.status == Playing && d.engineToMove(s.g.ucis)
  }

  // Something that will look at the game again without a further command.
  predicate Pending(s: Sys) {
    s.handle.Some? || s.token || s.pc == Checking || s.pc == Spawning || s.pc == Failing
  }

  // The loop knows every task there is, hence there is never more than one.
  predicate OneTask(s: Sys) {
    && s.tasks.Keys == (if s.handle.Some? then {s.handle.value} else {})
    && (s.pc != Selecting && s.pc != Ticking ==> s.handle.None?)
  }

  // A running game marked as thinking has a task at work, or one about to be spawned.
  predicate ThinkingIsReal(s: Sys) {
    s.pc != Dead && s.g.status == Playing && s.g.thinking ==>
      || s.pc == Spawning
      || s.pc == Failing
      || (s.handle.Some? && s.handle.value in s.tasks && s.tasks[s.handle.value] != Ended(true))
  }

  predicate Sound(s: Sys) {
    OneTask(s) && ThinkingIsReal(s)
  }

  predicate Awake(d: Desk, s: Sys) {
    EngineIsDue(d, s) ==> Pending(s)
  }

  // Sound is kept by every event, whatever happens to the user interface.
  lemma SoundStep(d: Desk, s: Sys, ev: Event)
    requires WellBehaved(d) && Sound(s) && Step(d, s, ev).Some?
    ensures Sound(Step(d, s, ev).value)
  {
    if ev.IsTask() {
      SoundTaskStep(d, s, ev);
    }
  }

  lemma SoundTaskStep(d: Desk, s: Sys, ev: Event)
    requires WellBehaved(d) && Sound(s) && ev.IsTask() && Step(d, s, ev).Some?
    ensures Sound(Step(d, s, ev).value)
  {
    match ev {
      case TaskPlayBook(id, emitted) => SoundEngineMove(d, s, id, s.tasks[id].uci, s.tasks[id].side, emitted);
      case TaskPlay(id, best, emitted) => SoundEngineMove(d, s, id, best, s.tasks[id].side, emitted);
      case TaskBook(id, found) =>
        SoundGoto(s, id, if found.Some? then AtBookMove(found.value, d.turn(s.g.ucis)) else AtAsk);
      case TaskAsk(id) => SoundAsk(d, s, id);
      case TaskDies(id) => SoundGoto(s, id, Ended(false));
    }
  }

  // A task may go anywhere, but for a good end while the game is running.
  lemma SoundGoto(s: Sys, id: nat, pc: TaskPc)
    requires Sound(s) && id in s.tasks && (pc == Ended(true) ==> s.g.status != Playing)
    ensures Sound(Goto(s, id, pc))
  {
    assert Goto(s, id, pc).tasks.Keys == s.tasks.Keys;
  }

  lemma SoundAsk(d: Desk, s: Sys, id: nat)
    requires Sound(s) && id in s.tasks
    ensures Sound(AfterAsk(d, s, id))
  {
    if s.g.status != Playing {
      SoundGoto(s, id, Ended(true));
    } else if !d.engineToMove(s.g.ucis) {
      SoundGoto(s, id, Ended(false));
    } else {
      SoundGoto(s, id, Searching(d.turn(s.g.ucis)));
    }
  }

  lemma SoundEngineMove(d: Desk, s: Sys, id: nat, uci: string, side: Color, emitted: bool)
    requires WellBehaved(d) && Sound(s) && id in s.tasks
    ensures Sound(AfterEngineMove(d, s, id, uci, side, emitted))
  {
    var t := AfterEngineMove(d, s, id, uci, side, emitted);
    assert t.tasks.Keys == s.tasks.Keys && !t.g.thinking;
  }

  // The one way to lose a wake-up: a human's command changes the game, telling the user
  // interface fails, and nothing else was going to make the loop look.
  predicate LosesWakeUp(d: Desk, s: Sys, ev: Event) {
    && !ev.Delivered() && !Pending(s) && s.pc != Dead
    && match ev
       case HumanMove(uci, _) =>
         var moved := d.moved(s.g, uci);
         !d.engineToMove(s.g.ucis) && moved.Some? && moved.value.status == Playing && d.engineToMove(moved.value.ucis)
       case _ =>
         s.g.ucis != [] && (var g := d.takenBack(s.g); g.status == Playing && d.engineToMove(g.ucis))
  }

  // Step by step: the loop stays awake exactly when no wake-up is lost in this way.
  lemma AwakeStepExactly(d: Desk, s: Sys, ev: Event)
    requires WellBehaved(d) && Sound(s) && Awake(d, s) && Step(d, s, ev).Some?
    ensures Awake(d, Step(d, s, ev).value) <==> !LosesWakeUp(d, s, ev)
  {}

  /** Over every interleaving in which the move events of human commands are delivered:
      whenever the loop lives and a running game waits for the engine, a task is
      outstanding, a notification is pending, or the loop is about to look. */
  lemma {:induction false} NoLostWakeUp(d: Desk, s: Sys, evs: seq<Event>)
    requires WellBehaved(d) && Initial(s) && Exec(d, s, evs).Some?
    requires forall ev :: ev in evs ==> ev.Delivered()
    ensures Awake(d, Exec(d, s, evs).value)
  {
    if evs != [] {
      var before, ev := evs[..|evs| - 1], evs[|evs| - 1];
      NoLostWakeUp(d, s, before);
      AlwaysSound(d, s, before);
      AwakeStepExactly(d, Exec(d, s, before).value, ev);
    }
  }

  /** Over every interleaving at all: one engine task at most, known to the loop, and a
      running game marked as thinking is being thought about. */
  lemma {:induction false} AlwaysSound(d: Desk, s: Sys, evs: seq<Event>)
    requires WellBehaved(d) && Initial(s) && Exec(d, s, evs).Some?
    ensures Sound(Exec(d, s, evs).value) && |Exec(d, s, evs).value.tasks| <= 1
  {
    if evs != [] {
      AlwaysSound(d, s, evs[..|evs| - 1]);
      SoundStep(d, Exec(d, s, evs[..|evs| - 1]).value, evs[|evs| - 1]);
    }
    var t := Exec(d, s, evs).value;
    assert |t.tasks| == |t.tasks.Keys|;
  }

  // A lost wake-up is lost for good: without a command, the engine stays due and
  // unasked until the loop ends.
  lemma LostForGood(d: Desk, s: Sys, ev: Event)
    requires Sound(s) && EngineIsDue(d, s) && !Pending(s)
    requires !ev.IsCommand() && Step(d, s, ev).Some?
    ensures var t := Step(d, s, ev).value;
            t.pc == Dead || (Sound(t) && EngineIsDue(d, t) && !Pending(t) && t.g == s.g)
  {}

  lemma ExecSnoc(d: Desk, s: Sys, evs: seq<Event>, ev: Event)
    requires Exec(d, s, evs).Some?
    ensures Exec(d, s, evs + [ev]) == Step(d, Exec(d, s, evs).value, ev)
  {
    assert (evs + [ev])[..|evs|] == evs;
  }

  // Losing one takes no more than a human's opening move whose event is not delivered.
  lemma UndeliveredMoveIsLost(d: Desk, s: Sys, uci: string)
    requires Initial(s) && s.g.status == Playing && !d.engineToMove(s.g.ucis)
    requires d.moved(s.g, uci).Some? && d.moved(s.g, uci).value.status == Playing
    requires d.engineToMove(d.moved(s.g, uci).value.ucis)
    ensures Exec(d, s, [LoopCheck, HumanMove(uci, false)]).Some?
    ensures !Awake(d, Exec(d, s, [LoopCheck, HumanMove(uci, false)]).value)
  {
    ExecSnoc(d, s, [], LoopCheck);
    ExecSnoc(d, s, [LoopCheck], HumanMove(uci, false));
    assert [] + [LoopCheck] == [LoopCheck];
    assert [LoopCheck] + [HumanMove(uci, false)] == [LoopCheck, HumanMove(uci, false)];
  }

  // ---------- who is recorded as having abandoned the game ----------

  // The outstanding task fails: it dies, it asks for an engine when none is to move, or the
  // move it plays is refused or not told to the user interface.
  predicate FailsTask(d: Desk, s: Sys, ev: Event) {
    match ev
    case TaskDies(_) => true
    case TaskAsk(_) => s.g.status == Playing && !d.engineToMove(s.g.ucis)
    case TaskPlayBook(id, emitted) =>
      id in s.tasks && s.tasks[id].AtBookMove? && FailsToPlay(d, s, s.tasks[id].uci, s.tasks[id].side, emitted)
    case TaskPlay(id, best, emitted) =>
      id in s.tasks && s.tasks[id].Searching? && FailsToPlay(d, s, best, s.tasks[id].side, emitted)
    case _ => false
  }

  predicate FailsToPlay(d: Desk, s: Sys, uci: string, side: Color, emitted: bool) {
    && s.g.status == Playing && d.turn(s.g.ucis) == side
    && (d.moved(s.g.(thinking := false), uci).None? || !emitted)
  }

  /** What has happened since the loop last looked whether to ask the engine: its task has
      failed, the loop has joined it, and the last change of the moves left the human to move. */
  datatype Story = Story(failed: bool, joined: bool, handed: bool)

  const NOTHING_YET := Story(false, false, false)

  function Continued(d: Desk, s: Sys, st: Story, ev: Event): Story {
    match Step(d, s, ev)
    case None => st
    case Some(t) =>
      if ev.LoopCheck? then NOTHING_YET
      else Story(
        st.failed || FailsTask(d, s, ev),
        st.joined || ev.SelectJoin?,
        if t.g.ucis == s.g.ucis then st.handed else !d.engineToMove(t.g.ucis))
  }

  function StoryOf(d: Desk, s: Sys, evs: seq<Event>): Story {
    if evs == [] then NOTHING_YET
    else
      var init := evs[..|evs| - 1];
      match Exec(d, s, init)
      case None => NOTHING_YET
      case Some(t) => Continued(d, t, StoryOf(d, s, init), evs[|evs| - 1])
  }

  // The loop is about to end the game against the human.
  predicate EndsAgainstHuman(d: Desk, s: Sys) {
    s.pc == Failing && !d.engineToMove(s.g.ucis)
  }

  predicate Tells(d: Desk, s: Sys, st: Story) {
    && (s.pc != Dead ==> (s.pc == Failing <==> st.failed && st.joined))
    && (s.handle.Some? ==> !st.joined && (st.failed <==> TaskHasFailed(s)))
    && (s.pc == Spawning ==> !st.failed && !st.joined)
    && (s.handle.Some? || s.pc == Spawning || s.pc == Failing ==> (st.handed <==> !d.engineToMove(s.g.ucis)))
  }

  predicate TaskHasFailed(s: Sys) {
    s.handle.Some? && s.handle.value in s.tasks && s.tasks[s.handle.value] == Ended(false)
  }

  lemma TellsStep(d: Desk, s: Sys, st: Story, ev: Event)
    requires WellBehaved(d) && Sound(s) && Tells(d, s, st) && Step(d, s, ev).Some?
    ensures Tells(d, Step(d, s, ev).value, Continued(d, s, st, ev))
  {
    if ev.IsTask() {
      TellsTaskStep(d, s, st, ev);
    }
  }

  lemma TellsTaskStep(d: Desk, s: Sys, st: Story, ev: Event)
    requires WellBehaved(d) && Sound(s) && Tells(d, s, st) && ev.IsTask() && Step(d, s, ev).Some?
    ensures Tells(d, Step(d, s, ev).value, Continued(d, s, st, ev))
  {
    var t := Step(d, s, ev).value;
    assert s.handle == Some(ev.id) && t.handle == s.handle && t.pc == s.pc;
    TaskFailsExactly(d, s, ev);
  }

  // A task has failed after its event exactly when the event was one of those.
  lemma TaskFailsExactly(d: Desk, s: Sys, ev: Event)
    requires WellBehaved(d) && Sound(s) && ev.IsTask() && Step(d, s, ev).Some?
    ensures TaskHasFailed(Step(d, s, ev).value) <==> FailsTask(d, s, ev)
    ensures !TaskHasFailed(s)
  {
    assert s.handle == Some(ev.id);
  }

  /** Over every run: the loop is about to record that the human has abandoned the game
      exactly when, since the engine was asked, its task has failed, the loop has joined
      it, and the last change of the moves left the human to move. */
  lemma {:induction false} HumanForfeitsExactly(d: Desk, s: Sys, evs: seq<Event>)
    requires WellBehaved(d) && Initial(s) && Exec(d, s, evs).Some?
    ensures Tells(d, Exec(d, s, evs).value, StoryOf(d, s, evs))
    ensures Exec(d, s, evs).value.pc != Dead ==>
              (EndsAgainstHuman(d, Exec(d, s, evs).value) <==> StoryOf(d, s, evs) == Story(true, true, true))
  {
    if evs != [] {
      var init := evs[..|evs| - 1];
      HumanForfeitsExactly(d, s, init);
      AlwaysSound(d, s, init);
      TellsStep(d, Exec(d, s, init).value, StoryOf(d, s, init), evs[|evs| - 1]);
    }
  }

  /** How a failure, a flag fall and a resignation are recorded: as a loss of the side to
      move, or of the one that resigns, for that reason, whatever the status was. */
  lemma FailureIsRecorded(d: Desk, s: Sys)
    requires s.pc == Failing
    ensures Step(d, s, FailEnds).Some?
    ensures var t := Step(d, s, FailEnds).value;
            && t.pc == Dead && t.shutdown && !t.g.thinking && t.g.ucis == s.g.ucis
            && HasLost(t.g.status, d.turn(s.g.ucis), Abandonment)
  {}

  lemma FlagFallIsRecorded(d: Desk, s: Sys)
    requires s.pc == Ticking && s.g.status == Playing
    ensures Step(d, s, TickRuns(true)).Some?
    ensures var t := Step(d, s, TickRuns(true)).value;
            && t.pc == Dead && t.shutdown && t.g.ucis == s.g.ucis
            && HasLost(t.g.status, d.turn(s.g.ucis), Timeout)
  {}

  lemma ResignationIsRecorded(d: Desk, s: Sys, side: Color)
    ensures Step(d, s, Resign(side)).Some?
    ensures var t := Step(d, s, Resign(side)).value;
            t.g.ucis == s.g.ucis && HasLost(t.g.status, side, Resignation)
  {}

  /** When the loop asks the engine: exactly if the game is running, the engine is to move, and
      nothing has been asked of it yet. */
  lemma AsksExactly(d: Desk, s: Sys)
    requires s.pc == Checking
    ensures Step(d, s, LoopCheck).Some?
    ensures var t := Step(d, s, LoopCheck).value;
            && (t.pc == Spawning <==>
                  s.g.status == Playing && d.engineToMove(s.g.ucis) && !s.g.thinking && s.handle == None)
            && (t.g.thinking <==> s.g.thinking || t.pc == Spawning)
  {}

  /** When the loop ends: exactly by a shutdown it has been told of, by a clock event of a game
      that is over or out of time, or after a failure. */
  lemma LoopEndsExactly(d: Desk, s: Sys, ev: Event)
    requires s.pc != Dead && Step(d, s, ev).Some?
    ensures Step(d, s, ev).value.pc == Dead <==>
              || (ev.SelectShutdown? && s.shutdown)
              || (ev.TickRuns? && (ev.timedOut || s.g.status != Playing))
              || ev.FailEnds?
  {}

  /** After a resignation or an abort a waiting loop ends, and its task with it. */
  lemma LoopIsShutDown(d: Desk, s: Sys, ev: Event)
    requires Sound(s) && s.pc == Selecting && (ev.Resign? || ev.Abort?)
    ensures var t := Exec(d, s, [ev, SelectShutdown]);
            t.Some? && t.value.pc == Dead && t.value.tasks == map[]
  {
    ExecFirst(d, s, [ev, SelectShutdown]);
    var t := Step(d, s, ev).value;
    assert [ev, SelectShutdown][1..] == [SelectShutdown];
    ExecFirst(d, t, [SelectShutdown]);
    assert [SelectShutdown][1..] == [];
    assert Stopped(t).tasks.Keys == {};
  }

  lemma ExecFirst(d: Desk, s: Sys, evs: seq<Event>)
    requires evs != [] && Step(d, s, evs[0]).Some?
    ensures Exec(d, s, evs) == Exec(d, Step(d, s, evs[0]).value, evs[1..])
  {
    ExecCons(d, s, evs[0], evs[1..]);
    assert evs == [evs[0]] + evs[1..];
  }

  // A task that asks when the human is to move finds no engine, and its failure ends the
  // game as abandoned by the human.
  lemma LateAskForfeits(d: Desk, s: Sys, id: nat)
    requires Sound(s) && s.pc == Selecting && s.handle == Some(id) && s.tasks[id] == AtAsk
    requires s.g.status == Playing && !d.engineToMove(s.g.ucis)
    ensures var t := Exec(d, s, [TaskAsk(id), SelectJoin, FailEnds]);
            t.Some? && t.value.g.ucis == s.g.ucis && HasLost(t.value.g.status, d.turn(s.g.ucis), Abandonment)
  {
    var failed := Goto(s, id, Ended(false));
    var joined := AfterJoin(failed, id, false);
    ExecFirst(d, s, [TaskAsk(id), SelectJoin, FailEnds]);
    assert [TaskAsk(id), SelectJoin, FailEnds][1..] == [SelectJoin, FailEnds];
    ExecFirst(d, failed, [SelectJoin, FailEnds]);
    assert [SelectJoin, FailEnds][1..] == [FailEnds];
    ExecFirst(d, joined, [FailEnds]);
    assert [FailEnds][1..] == [];
  }

  // The state after the human's first move, when the engine has been asked to answer and
  // its task has not begun.
  function Asked(s: Sys, g: Game): Sys {
    Sys(g.(thinking := true), Selecting, Some(0), map[0 := AtBook], 1, false, false)
  }

  lemma FirstMoveAsks(d: Desk, s: Sys, uci: string)
    requires Initial(s) && s.g.status == Playing && !d.engineToMove(s.g.ucis)
    requires d.moved(s.g, uci).Some? && !d.moved(s.g, uci).value.thinking
    requires d.moved(s.g, uci).value.status == Playing && d.engineToMove(d.moved(s.g, uci).value.ucis)
    ensures Exec(d, s, [LoopCheck, HumanMove(uci, true), SelectToken, LoopCheck, LoopSpawn])
         == Some(Asked(s, d.moved(s.g, uci).value))
  {
    var g := d.moved(s.g, uci).value;
    var waiting := s.(pc := Selecting);
    var told := waiting.(g := g, token := true);
    var looking := told.(token := false, pc := Checking);
    var spawning := looking.(g := g.(thinking := true), pc := Spawning);
    ExecFirst(d, s, [LoopCheck, HumanMove(uci, true), SelectToken, LoopCheck, LoopSpawn]);
    assert [LoopCheck, HumanMove(uci, true), SelectToken, LoopCheck, LoopSpawn][1..]
        == [HumanMove(uci, true), SelectToken, LoopCheck, LoopSpawn];
    ExecFirst(d, waiting, [HumanMove(uci, true), SelectToken, LoopCheck, LoopSpawn]);
    assert [HumanMove(uci, true), SelectToken, LoopCheck, LoopSpawn][1..] == [SelectToken, LoopCheck, LoopSpawn];
    ExecFirst(d, told, [SelectToken, LoopCheck, LoopSpawn]);
    assert [SelectToken, LoopCheck, LoopSpawn][1..] == [LoopCheck, LoopSpawn];
    ExecFirst(d, looking, [LoopCheck, LoopSpawn]);
    assert [LoopCheck, LoopSpawn][1..] == [LoopSpawn];
    ExecFirst(d, spawning, [LoopSpawn]);
    assert [LoopSpawn][1..] == [];
  }

  lemma {:induction false} ExecConcat(d: Desk, s: Sys, one: seq<Event>, two: seq<Event>)
    requires Exec(d, s, one).Some?
    ensures Exec(d, s, one + two) == Exec(d, Exec(d, s, one).value, two)
  {
    if two == [] {
      assert one + two == one;
    } else {
      ExecConcat(d, s, one, two[..|two| - 1]);
      assert (one + two)[..|one + two| - 1] == one + two[..|two| - 1];
    }
  }

  /** A human who moves and takes the move back before the engine's task has looked at the
      game is recorded as having abandoned it. */
  lemma QuickTakeBackForfeits(d: Desk, s: Sys, uci: string)
    requires WellBehaved(d) && Initial(s) && s.g.status == Playing && !d.engineToMove(s.g.ucis)
    requires d.moved(s.g, uci).Some?
    requires d.moved(s.g, uci).value.status == Playing && d.engineToMove(d.moved(s.g, uci).value.ucis)
    requires var back := d.takenBack(d.moved(s.g, uci).value.(thinking := true));
             back.status == Playing && !d.engineToMove(back.ucis)
    ensures var t := Exec(d, s, [LoopCheck, HumanMove(uci, true), SelectToken, LoopCheck, LoopSpawn]
                                + [TakeBack(true), TaskBook(0, None), TaskAsk(0), SelectJoin, FailEnds]);
            && t.Some?
            && t.value.g.ucis == d.takenBack(d.moved(s.g, uci).value.(thinking := true)).ucis
            && HasLost(t.value.g.status, d.turn(t.value.g.ucis), Abandonment)
            && !d.engineToMove(t.value.g.ucis)
  {
    var asked := Asked(s, d.moved(s.g, uci).value);
    FirstMoveAsks(d, s, uci);
    ExecConcat(d, s, [LoopCheck, HumanMove(uci, true), SelectToken, LoopCheck, LoopSpawn],
      [TakeBack(true), TaskBook(0, None), TaskAsk(0), SelectJoin, FailEnds]);
    TakeBackThenAsk(d, asked);
  }

  /** Or, if the opening book has a move for the position, the engine's task plays it in the
      human's place. */
  lemma QuickTakeBackPlaysForHuman(d: Desk, s: Sys, uci: string, book: string)
    requires WellBehaved(d) && Initial(s) && s.g.status == Playing && !d.engineToMove(s.g.ucis)
    requires d.moved(s.g, uci).Some?
    requires d.moved(s.g, uci).value.status == Playing && d.engineToMove(d.moved(s.g, uci).value.ucis)
    requires var back := d.takenBack(d.moved(s.g, uci).value.(thinking := true));
             back.status == Playing && !d.engineToMove(back.ucis) && d.moved(back, book).Some?
    ensures var back := d.takenBack(d.moved(s.g, uci).value.(thinking := true));
            var t := Exec(d, s, [LoopCheck, HumanMove(uci, true), SelectToken, LoopCheck, LoopSpawn]
                                + [TakeBack(true), TaskBook(0, Some(book)), TaskPlayBook(0, true)]);
            t.Some? && t.value.g == d.moved(back, book).value
  {
    FirstMoveAsks(d, s, uci);
    ExecConcat(d, s, [LoopCheck, HumanMove(uci, true), SelectToken, LoopCheck, LoopSpawn],
      [TakeBack(true), TaskBook(0, Some(book)), TaskPlayBook(0, true)]);
    TakeBackThenBook(d, Asked(s, d.moved(s.g, uci).value), book);
  }

  lemma TakeBackThenBook(d: Desk, s: Sys, book: string)
    requires WellBehaved(d) && s == Asked(s, s.g) && s.g.ucis != []
    requires var back := d.takenBack(s.g);
             back.status == Playing && !d.engineToMove(back.ucis) && d.moved(back, book).Some?
    ensures var t := Exec(d, s, [TakeBack(true), TaskBook(0, Some(book)), TaskPlayBook(0, true)]);
            t.Some? && t.value.g == d.moved(d.takenBack(s.g), book).value
  {
    var evs := [TakeBack(true), TaskBook(0, Some(book)), TaskPlayBook(0, true)];
    var back := s.(g := d.takenBack(s.g));
    var found := Goto(back, 0, AtBookMove(book, d.turn(back.g.ucis)));
    ExecFirst(d, s, evs);
    ExecFirst(d, back, evs[1..]);
    ExecFirst(d, found, evs[1..][1..]);
    assert back.g.(thinking := false) == back.g;
  }

  lemma TakeBackThenAsk(d: Desk, s: Sys)
    requires WellBehaved(d) && s == Asked(s, s.g) && s.g.ucis != []
    requires d.takenBack(s.g).status == Playing && !d.engineToMove(d.takenBack(s.g).ucis)
    ensures var t := Exec(d, s, [TakeBack(true), TaskBook(0, None), TaskAsk(0), SelectJoin, FailEnds]);
            && t.Some? && t.value.g.ucis == d.takenBack(s.g).ucis
            && HasLost(t.value.g.status, d.turn(t.value.g.ucis), Abandonment)
  {
    var evs := [TakeBack(true), TaskBook(0, None), TaskAsk(0), SelectJoin, FailEnds];
    var back := s.(g := d.takenBack(s.g));
    ExecFirst(d, s, evs);
    ExecFirst(d, back, evs[1..]);
    LateAskForfeits(d, Goto(back, 0, AtAsk), 0);
    assert evs[1..][1..] == [TaskAsk(0), SelectJoin, FailEnds];
  }

  // ---------- the engine is served ----------

  function TaskRank(d: Desk, s: Sys, task: TaskPc): nat {
    match task
    case Ended(ok) => if ok then 8 else 2
    case AtBookMove(_, side) => if side == d.turn(s.g.ucis) then 3 else 9
    case Searching(side) => if side == d.turn(s.g.ucis) then 3 else 9
    case AtAsk => 4
    case AtBook => 5
  }

  // How far the loop and its task are from having served the engine's turn.
  function Rank(d: Desk, s: Sys): nat {
    match s.pc
    case Dead => 0
    case Failing => 1
    case Spawning => 6
    case Checking => 7
    case _ => if s.handle.Some? && s.handle.value in s.tasks then TaskRank(d, s, s.tasks[s.handle.value]) else 8
  }

  // A bound on the events left: a waiting token may be taken in vain.
  function Remaining(d: Desk, s: Sys): nat {
    2 * Rank(d, s) + if s.token then 1 else 0
  }

  // The engine's turn is over: it has moved, or the game or the loop has ended.
  predicate Served(s: Sys, t: Sys) {
    t.pc == Dead || t.g.status != Playing || |t.g.ucis| > |s.g.ucis|
  }

  // The engine is still due, for the same turn, with at most so much remaining.
  predicate StillDue(d: Desk, s: Sys, t: Sys, remaining: int) {
    t.g.ucis == s.g.ucis && EngineIsDue(d, t) && Remaining(d, t) <= remaining
  }

  // A task that holds a move plays it, fails, or finds that the turn has changed.
  lemma EngineMoveComesCloser(d: Desk, s: Sys, id: nat, uci: string, side: Color, emitted: bool)
    requires WellBehaved(d) && EngineIsDue(d, s) && (s.pc == Selecting || s.pc == Ticking) && s.handle == Some(id)
    ensures var t := AfterEngineMove(d, s, id, uci, side, emitted);
            Served(s, t) || (t.g.ucis == s.g.ucis && EngineIsDue(d, t) && t.token == s.token
                             && Rank(d, t) < if side == d.turn(s.g.ucis) then 3 else 9)
  {
    var t := AfterEngineMove(d, s, id, uci, side, emitted);
    assert t.pc == s.pc && t.handle == s.handle && id in t.tasks && t.tasks[id].Ended?;
  }

  // The clock branch: it may run any number of times and changes nothing that matters.
  predicate IsTick(ev: Event) {
    ev.SelectTick? || ev.TickRuns?
  }

  // A task that moves on, or dies, comes closer.
  lemma GotoComesCloser(d: Desk, s: Sys, id: nat, pc: TaskPc)
    requires EngineIsDue(d, s) && (s.pc == Selecting || s.pc == Ticking) && s.handle == Some(id) && id in s.tasks
    requires TaskRank(d, s, pc) < TaskRank(d, s, s.tasks[id])
    ensures StillDue(d, s, Goto(s, id, pc), Remaining(d, s) - 1)
  {
    var t := Goto(s, id, pc);
    assert t.tasks[id] == pc && TaskRank(d, t, pc) == TaskRank(d, s, pc);
  }

  lemma TaskComesCloser(d: Desk, s: Sys, ev: Event)
    requires WellBehaved(d) && Sound(s) && EngineIsDue(d, s) && ev.IsTask() && Step(d, s, ev).Some?
    ensures var t := Step(d, s, ev).value; Served(s, t) || StillDue(d, s, t, Remaining(d, s) - 1)
  {
    var id := ev.id;
    assert id in s.tasks && s.handle == Some(id);
    match ev {
      case TaskPlayBook(_, emitted) =>
        EngineMoveComesCloser(d, s, id, s.tasks[id].uci, s.tasks[id].side, emitted);
      case TaskPlay(_, best, emitted) =>
        EngineMoveComesCloser(d, s, id, best, s.tasks[id].side, emitted);
      case TaskBook(_, found) =>
        GotoComesCloser(d, s, id, if found.Some? then AtBookMove(found.value, d.turn(s.g.ucis)) else AtAsk);
      case TaskAsk(_) =>
        GotoComesCloser(d, s, id, Searching(d.turn(s.g.ucis)));
      case TaskDies(_) =>
        GotoComesCloser(d, s, id, Ended(false));
    }
  }

  /** Whatever happens next, short of a command: either the engine's turn is served, or the
      engine is still due for it and nearer to its end. Only the clock branch leaves it
      where it was. */
  lemma EveryStepComesCloser(d: Desk, s: Sys, ev: Event)
    requires WellBehaved(d) && Sound(s) && EngineIsDue(d, s) && !ev.IsCommand() && Step(d, s, ev).Some?
    ensures var t := Step(d, s, ev).value;
            Served(s, t) || StillDue(d, s, t, if IsTick(ev) then Remaining(d, s) else Remaining(d, s) - 1)
  {
    if ev.IsTask() {
      TaskComesCloser(d, s, ev);
    }
  }

  // How many events of a run are not the clock's.
  function Busy(evs: seq<Event>): nat {
    if evs == [] then 0 else Busy(evs[..|evs| - 1]) + if IsTick(evs[|evs| - 1]) then 0 else 1
  }

  // Without a command, a turn once served stays served.
  lemma ServedStaysServed(d: Desk, s: Sys, t: Sys, ev: Event)
    requires WellBehaved(d) && Served(s, t) && !ev.IsCommand() && Step(d, t, ev).Some?
    ensures Served(s, Step(d, t, ev).value)
  {}

  // A sound state in which the turn is served, or the engine due with so much remaining.
  predicate OnTheWay(d: Desk, s: Sys, t: Sys, budget: int) {
    Sound(t) && (Served(s, t) || StillDue(d, s, t, budget))
  }

  lemma OneMoreEvent(d: Desk, s: Sys, t: Sys, ev: Event, u: Sys, budget: int)
    requires WellBehaved(d) && OnTheWay(d, s, t, budget) && !ev.IsCommand() && Step(d, t, ev) == Some(u)
    ensures OnTheWay(d, s, u, if IsTick(ev) then budget else budget - 1)
  {
    SoundStep(d, t, ev);
    if Served(s, t) {
      ServedStaysServed(d, s, t, ev);
    } else {
      EveryStepComesCloser(d, t, ev);
    }
  }

  lemma {:induction false} RunComesCloser(d: Desk, s: Sys, evs: seq<Event>, budget: int)
    requires WellBehaved(d) && OnTheWay(d, s, s, budget) && Exec(d, s, evs).Some?
    requires forall ev :: ev in evs ==> !ev.IsCommand()
    ensures OnTheWay(d, s, Exec(d, s, evs).value, budget - Busy(evs))
  {
    if evs == [] {
    } else {
      var init, ev := evs[..|evs| - 1], evs[|evs| - 1];
      assert ev in evs && forall e :: e in init ==> e in evs;
      RunComesCloser(d, s, init, budget);
      OneMoreEvent(d, s, Exec(d, s, init).value, ev, Exec(d, s, evs).value, budget - Busy(init));
    }
  }

  /** Every run without a command serves the engine's turn before its twentieth event, the
      clock's not counted: until then the engine is due for the same turn, and each event
      has used up some of what remained. */
  lemma EveryRunServes(d: Desk, s: Sys, evs: seq<Event>)
    requires WellBehaved(d) && Sound(s) && EngineIsDue(d, s) && Exec(d, s, evs).Some?
    requires forall ev :: ev in evs ==> !ev.IsCommand()
    ensures OnTheWay(d, s, Exec(d, s, evs).value, Remaining(d, s) - Busy(evs))
    ensures Busy(evs) > 19 ==> Served(s, Exec(d, s, evs).value)
  {
    RunComesCloser(d, s, evs, Remaining(d, s));
    RemainingIsSmall(d, s);
  }

  lemma RemainingIsSmall(d: Desk, s: Sys)
    ensures Remaining(d, s) <= 19
  {}

  // What the loop or its engine task does next when it is left alone and the engine answers `best`.
  function Next(d: Desk, s: Sys, best: string): Event {
    match s.pc
    case Checking => LoopCheck
    case Spawning => LoopSpawn
    case Ticking => TickRuns(false)
    case Failing => FailEnds
    case Dead => Abort
    case Selecting =>
      if s.handle.None? || s.handle.value !in s.tasks then SelectToken
      else
        var id := s.handle.value;
        match s.tasks[id]
        case AtBook => TaskBook(id, None)
        case AtBookMove(_, _) => TaskPlayBook(id, true)
        case AtAsk => TaskAsk(id)
        case Searching(_) => TaskPlay(id, best, true)
        case Ended(_) => SelectJoin
  }

  // An awake loop is never stuck.
  lemma NextIsPossible(d: Desk, s: Sys, best: string)
    requires WellBehaved(d) && Sound(s) && Awake(d, s) && EngineIsDue(d, s)
    ensures Step(d, s, Next(d, s, best)).Some? && !Next(d, s, best).IsCommand()
    ensures IsTick(Next(d, s, best)) ==> s.pc == Ticking
  {}

  /** And an awake loop can serve the turn: from every state in which the engine is due, at
      most twenty events and no command do, whatever move the engine gives. */
  lemma {:induction false} EngineIsServed(d: Desk, s: Sys, best: string) returns (evs: seq<Event>)
    requires WellBehaved(d) && Sound(s) && Awake(d, s) && EngineIsDue(d, s)
    ensures |evs| <= Remaining(d, s) + (if s.pc == Ticking then 1 else 0) <= 20
    ensures forall ev :: ev in evs ==> !ev.IsCommand()
    ensures Exec(d, s, evs).Some? && Served(s, Exec(d, s, evs).value)
    decreases Remaining(d, s), if s.pc == Ticking then 1 else 0
  {
    var ev := Next(d, s, best);
    NextIsPossible(d, s, best);
    EveryStepComesCloser(d, s, ev);
    var t := Step(d, s, ev).value;
    assert Exec(d, s, [ev]) == Some(t) by {
      assert [ev][..0] == [];
    }
    if Served(s, t) {
      evs := [ev];
    } else {
      SoundStep(d, s, ev);
      AwakeStepExactly(d, s, ev);
      NextLeavesTheClock(d, s, best);
      var rest := EngineIsServed(d, t, best);
      ExecCons(d, s, ev, rest);
      evs := [ev] + rest;
    }
  }

  // It goes back from the clock branch, and not into it.
  lemma NextLeavesTheClock(d: Desk, s: Sys, best: string)
    requires EngineIsDue(d, s) && Step(d, s, Next(d, s, best)).Some?
    ensures Step(d, s, Next(d, s, best)).value.pc != Ticking
  {}

  lemma {:induction false} ExecCons(d: Desk, s: Sys, ev: Event, rest: seq<Event>)
    requires Step(d, s, ev).Some?
    ensures Exec(d, s, [ev] + rest) == Exec(d, Step(d, s, ev).value, rest)
  {
    var all := [ev] + rest;
    if rest == [] {
      assert all == [ev] && [ev][..0] == [];
    } else {
      assert all[..|all| - 1] == [ev] + rest[..|rest| - 1];
      ExecCons(d, s, ev, rest[..|rest| - 1]);
    }
  }

  // ---------- a game of chess on the desk ----------

  /** The desk of a game of chess: the operations of the game controller. */
  function ChessDesk<P>(r: Rules<P>, start: P, players: Players): Desk {
    Desk(
      (g: Game, uci: string) => Moved(r, start, g, uci),
      (g: Game) => if g.ucis != [] && Playable(r, start, g.ucis) then TakenBack(r, start, players, g)
                   else g.(thinking := false),
      (ucis: seq<string>) => if Playable(r, start, ucis) then r.turn(PositionAfter(r, start, ucis)) else White,
      (ucis: seq<string>) => Playable(r, start, ucis) && players.Of(r.turn(PositionAfter(r, start, ucis))).Engine?)
  }

  /** Over every interleaving, the game on a chess desk can be replayed from its start,
      and when the events of human commands are delivered no wake-up is lost. */
  lemma {:induction false} ChessRuns<P>(r: Rules<P>, start: P, players: Players, s: Sys, evs: seq<Event>)
    requires Initial(s) && Playable(r, start, s.g.ucis)
    requires Exec(ChessDesk(r, start, players), s, evs).Some?
    ensures var t := Exec(ChessDesk(r, start, players), s, evs).value;
            && Playable(r, start, t.g.ucis) && Sound(t)
            && ((forall ev :: ev in evs ==> ev.Delivered()) ==> Awake(ChessDesk(r, start, players), t))
  {
    var d := ChessDesk(r, start, players);
    assert WellBehaved(d);
    AlwaysSound(d, s, evs);
    if forall ev :: ev in evs ==> ev.Delivered() {
      NoLostWakeUp(d, s, evs);
    }
    if evs != [] {
      var before := evs[..|evs| - 1];
      ChessRuns(r, start, players, s, before);
      ChessStep(r, start, players, Exec(d, s, before).value, evs[|evs| - 1]);
    }
  }

  lemma ChessStep<P>(r: Rules<P>, start: P, players: Players, s: Sys, ev: Event)
    requires Playable(r, start, s.g.ucis) && Step(ChessDesk(r, start, players), s, ev).Some?
    ensures Playable(r, start, Step(ChessDesk(r, start, players), s, ev).value.g.ucis)
  {
    if ev.TakeBack? && s.g.ucis != [] {
      PrefixPlayable(r, start, s.g.ucis, KeptByTakeBack(r, start, players, s.g));
    }
  }

  // The engine's task makes a move.
  predicate TaskMoves(d: Desk, s: Sys, ev: Event) {
    match ev
    case TaskPlayBook(id, _) => id in s.tasks && s.tasks[id].AtBookMove? && MayPlay(d, s, s.tasks[id].uci, s.tasks[id].side)
    case TaskPlay(id, best, _) => id in s.tasks && s.tasks[id].Searching? && MayPlay(d, s, best, s.tasks[id].side)
    case _ => false
  }

  predicate MayPlay(d: Desk, s: Sys, uci: string, side: Color) {
    s.g.status == Playing && d.turn(s.g.ucis) == side && d.moved(s.g.(thinking := false), uci).Some?
  }

  /** Against an engine that is to move, the turn passes to the human exactly by a take-back
      or by a move of the engine's task. */
  lemma HandsOverExactly<P(!new)>(r: Rules<P>, start: P, players: Players, s: Sys, ev: Event)
    requires TurnsAlternate(r) && players.HumanColor().Some? && Playable(r, start, s.g.ucis)
    requires var d := ChessDesk(r, start, players); d.engineToMove(s.g.ucis) && Step(d, s, ev).Some?
    ensures var d := ChessDesk(r, start, players);
            !d.engineToMove(Step(d, s, ev).value.g.ucis) <==> (ev.TakeBack? && s.g.ucis != []) || TaskMoves(d, s, ev)
  {
    var d := ChessDesk(r, start, players);
    if ev.TakeBack? && s.g.ucis != [] {
      TakeBackHandsOver(r, start, players, s.g);
      assert Step(d, s, ev).value.g == d.takenBack(s.g);
    } else if TaskMoves(d, s, ev) {
      var uci := if ev.TaskPlay? then ev.best else s.tasks[ev.id].uci;
      TaskMovePlays(d, s, ev, uci);
      MoveHandsOver(r, start, players, s.g, uci);
    } else {
      OthersKeepMoves(d, s, ev);
    }
  }

  lemma TakeBackHandsOver<P(!new)>(r: Rules<P>, start: P, players: Players, g: Game)
    requires TurnsAlternate(r) && players.HumanColor().Some? && Playable(r, start, g.ucis) && g.ucis != []
    requires ChessDesk(r, start, players).engineToMove(g.ucis)
    ensures var d := ChessDesk(r, start, players); !d.engineToMove(d.takenBack(g).ucis)
  {
    TakeBackHandsTurnToHuman(r, start, players, g);
  }

  lemma MoveHandsOver<P(!new)>(r: Rules<P>, start: P, players: Players, g: Game, uci: string)
    requires TurnsAlternate(r) && players.HumanColor().Some? && Playable(r, start, g.ucis)
    requires var d := ChessDesk(r, start, players);
      d.engineToMove(g.ucis) && d.moved(g.(thinking := false), uci).Some?
    ensures var d := ChessDesk(r, start, players); !d.engineToMove(d.moved(g.(thinking := false), uci).value.ucis)
  {
    MoveChangesTurn(r, start, g, uci);
  }

  lemma TaskMovePlays(d: Desk, s: Sys, ev: Event, uci: string)
    requires TaskMoves(d, s, ev) && Step(d, s, ev).Some?
    requires uci == if ev.TaskPlay? then ev.best else s.tasks[ev.id].uci
    ensures d.moved(s.g.(thinking := false), uci).Some?
    ensures Step(d, s, ev).value.g == d.moved(s.g.(thinking := false), uci).value
  {}

  lemma OthersKeepMoves(d: Desk, s: Sys, ev: Event)
    requires d.engineToMove(s.g.ucis) && Step(d, s, ev).Some?
    requires !(ev.TakeBack? && s.g.ucis != []) && !TaskMoves(d, s, ev)
    ensures Step(d, s, ev).value.g.ucis == s.g.ucis
  {}

  lemma MoveChangesTurn<P(!new)>(r: Rules<P>, start: P, g: Game, uci: string)
    requires TurnsAlternate(r) && Playable(r, start, g.ucis) && Moved(r, start, g.(thinking := false), uci).Some?
    ensures Playable(r, start, g.ucis + [uci])
    ensures r.turn(PositionAfter(r, start, g.ucis + [uci])) == r.turn(PositionAfter(r, start, g.ucis)).Other()
  {
    TurnByParity(r, start, g.ucis);
    TurnByParity(r, start, g.ucis + [uci]);
  }

  // A task searches only for a side that an engine plays.
  predicate SearchesForEngine(players: Players, s: Sys) {
    forall id :: id in s.tasks && s.tasks[id].Searching? ==> players.Of(s.tasks[id].side).Engine?
  }

  lemma {:induction false} AlwaysSearchesForEngine<P>(r: Rules<P>, start: P, players: Players, s: Sys, evs: seq<Event>)
    requires Initial(s) && Exec(ChessDesk(r, start, players), s, evs).Some?
    ensures SearchesForEngine(players, Exec(ChessDesk(r, start, players), s, evs).value)
  {
    if evs != [] {
      var d := ChessDesk(r, start, players);
      AlwaysSearchesForEngine(r, start, players, s, evs[..|evs| - 1]);
      SearchStep(r, start, players, Exec(d, s, evs[..|evs| - 1]).value, evs[|evs| - 1]);
    }
  }

  lemma SearchStep<P>(r: Rules<P>, start: P, players: Players, s: Sys, ev: Event)
    requires SearchesForEngine(players, s) && Step(ChessDesk(r, start, players), s, ev).Some?
    ensures SearchesForEngine(players, Step(ChessDesk(r, start, players), s, ev).value)
  {
    var d := ChessDesk(r, start, players);
    var t := Step(d, s, ev).value;
    forall id | id in t.tasks && t.tasks[id].Searching? ensures players.Of(t.tasks[id].side).Engine? {
      SearchBegins(d, s, ev, id);
    }
  }

  // A search goes on, or begins when an engine is to move.
  lemma SearchBegins(d: Desk, s: Sys, ev: Event, id: nat)
    requires Step(d, s, ev).Some?
    requires id in Step(d, s, ev).value.tasks && Step(d, s, ev).value.tasks[id].Searching?
    ensures var side := Step(d, s, ev).value.tasks[id].side;
      || (id in s.tasks && s.tasks[id] == Searching(side))
      || (side == d.turn(s.g.ucis) && d.engineToMove(s.g.ucis))
  {}

  /** Over every run: the engine's task moves in the human's place exactly when it plays a
      book move that it looked up for a side of the human's, as after a quick take-back. A
      searched move is never played so. */
  lemma MovesForHumanExactly<P(!new)>(r: Rules<P>, start: P, players: Players, s: Sys, evs: seq<Event>, ev: Event)
    requires Initial(s) && Playable(r, start, s.g.ucis)
    requires Exec(ChessDesk(r, start, players), s, evs).Some?
    ensures var d := ChessDesk(r, start, players);
            var t := Exec(d, s, evs).value;
            TaskMoves(d, t, ev) ==>
              (!d.engineToMove(t.g.ucis) <==> ev.TaskPlayBook? && players.Of(t.tasks[ev.id].side).Human?)
  {
    AlwaysSearchesForEngine(r, start, players, s, evs);
    ChessRuns(r, start, players, s, evs);
  }

  /** On a chess desk: a human playing an engine, who moves and takes the move back before the
      engine's task has looked, has lost, and the engine has won. */
  lemma QuickTakeBackLosesToEngine<P(!new)>(r: Rules<P>, start: P, players: Players, s: Sys, uci: string)
    requires TurnsAlternate(r) && players.HumanColor().Some? && Playable(r, start, s.g.ucis)
    requires Initial(s) && s.g.status == Playing && SideToMove(r, start, s.g) == players.HumanColor().value
    requires VerdictAfter(r, start, s.g.ucis) == None
    requires Moved(r, start, s.g, uci).Some? && Moved(r, start, s.g, uci).value.status == Playing
    ensures var t := Exec(ChessDesk(r, start, players), s,
                          [LoopCheck, HumanMove(uci, true), SelectToken, LoopCheck, LoopSpawn]
                          + [TakeBack(true), TaskBook(0, None), TaskAsk(0), SelectJoin, FailEnds]);
            && t.Some? && t.value.g.ucis == s.g.ucis
            && HasLost(t.value.g.status, players.HumanColor().value, Abandonment)
  {
    var d := ChessDesk(r, start, players);
    var moved := Moved(r, start, s.g, uci).value;
    MovedExactly(r, start, s.g, uci);
    MoveChangesTurn(r, start, s.g, uci);
    assert s.g.(thinking := false) == s.g;
    TakeBackIsUndone(r, start, players, s.g, uci);
    QuickTakeBackForfeits(d, s, uci);
  }

  lemma TakeBackIsUndone<P(!new)>(r: Rules<P>, start: P, players: Players, g: Game, uci: string)
    requires TurnsAlternate(r) && players.HumanColor().Some? && Playable(r, start, g.ucis) && !g.thinking
    requires g.status == Playing && SideToMove(r, start, g) == players.HumanColor().value
    requires VerdictAfter(r, start, g.ucis) == None && Moved(r, start, g, uci).Some?
    ensures ChessDesk(r, start, players).takenBack(Moved(r, start, g, uci).value.(thinking := true)) == g
  {
    MovedExactly(r, start, g, uci);
    MoveChangesTurn(r, start, g, uci);
    TakeBackUndoesMove(r, start, players, g.(thinking := true), uci);
  }
}
