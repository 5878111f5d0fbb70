/**
  The desktop game controller: a position, a repetition map, two clocks and a status
  kept up to date move by move, and recomputed from the move list by a take-back.

  `Valid` says that everything kept incrementally is what a replay of the move list
  from the initial position would give. Every operation keeps it, and `View` ties
  each operation to the functions of `Replay` that say what it does to a game.
 */
module GameController {
  import opened Prelude
  import opened Replay

  const U64: int := 0x1_0000_0000_0000_0000
  type u64 = x: int | 0 <= x < U64

  // u64 arithmetic as the release build does it.
  function SaturatingSub(a: u64, b: u64): u64 {
    if a < b then 0 else a - b
  }

  function WrappingAdd(a: u64, b: u64): u64 {
    (a + b) % U64
  }

  // Milliseconds from one clock reading to another; a reading never goes backwards.
  function Elapsed(since: nat, now: nat): u64 {
    (if now < since then 0 else now - since) % U64
  }

  datatype TimeControl = TimeControl(initialTime: u64, increment: u64)

  datatype Config = Config(
    players: Players,
    whiteControl: Option<TimeControl>,
    blackControl: Option<TimeControl>,
    initialFen: string,
    initialMoves: seq<string>)

  datatype Times = Times(white: Option<u64>, black: Option<u64>) {
    function Of(c: Color): Option<u64> {
      if c == White then white else black
    }
  }
  datatype Clock = Clock(times: Times, whiteIncrement: u64, blackIncrement: u64, lastTick: nat)

  // The mover, if it has a clock, pays for the time since the last reading and gets its
  // increment; the other side's time stands.
  predicate PaidBy(mover: Color, c: Clock, after: Times, read: nat) {
    var increment := if mover == White then c.whiteIncrement else c.blackIncrement;
    && after.Of(mover.Other()) == c.times.Of(mover.Other())
    && (match c.times.Of(mover)
        case None => after.Of(mover) == None
        case Some(t) => after.Of(mover) == Some(WrappingAdd(SaturatingSub(t, Elapsed(c.lastTick, read)), increment)))
  }

  // The clock after a move: the mover pays, and its next reading starts from `now`.
  function Ticked(clock: Option<Clock>, mover: Color, read: nat, now: nat): Option<Clock> {
    match clock
    case None => None
    case Some(c) =>
      var times := if mover == White then c.times.(white := Paid(c, c.times.white, c.whiteIncrement, read))
                   else c.times.(black := Paid(c, c.times.black, c.blackIncrement, read));
      Some(c.(times := times, lastTick := now))
  }

  function Paid(c: Clock, time: Option<u64>, increment: u64, read: nat): Option<u64> {
    match time
    case None => None
    case Some(t) => Some(WrappingAdd(SaturatingSub(t, Elapsed(c.lastTick, read)), increment))
  }

  /** What the move costs: the other side's time stands, and the mover loses what it has
      spent, down to zero, and gains its increment. */
  lemma TickedPays(c: Clock, mover: Color, read: nat, now: nat)
    ensures var after := Ticked(Some(c), mover, read, now);
      && after.Some? && PaidBy(mover, c, after.value.times, read)
      && after.value == c.(times := after.value.times, lastTick := now)
    ensures var time := if mover == White then c.times.white else c.times.black;
            var increment := if mover == White then c.whiteIncrement else c.blackIncrement;
            var after := Ticked(Some(c), mover, read, now).value.times;
            var left := if mover == White then after.white else after.black;
            var spent := (if read < c.lastTick then 0 else read - c.lastTick) % U64;
            && (time.None? ==> left.None?)
            && (time.Some? && time.value <= spent ==> left == Some(increment))
            && (time.Some? && time.value > spent ==> left == Some((time.value - spent + increment) % U64))
            && (if mover == White then after.black == c.times.black else after.white == c.times.white)
  {}

  /** The clock of a new game: none without a time control, and otherwise each side's initial
      time and increment, read at `now`. */
  predicate IsFirstClock(config: Config, clock: Option<Clock>, now: nat) {
    if config.whiteControl.None? && config.blackControl.None? then clock.None?
    else
      && clock.Some? && clock.value.lastTick == now
      && (match config.whiteControl
          case None => clock.value.times.white.None? && clock.value.whiteIncrement == 0
          case Some(tc) => clock.value.times.white == Some(tc.initialTime) && clock.value.whiteIncrement == tc.increment)
      && (match config.blackControl
          case None => clock.value.times.black.None? && clock.value.blackIncrement == 0
          case Some(tc) => clock.value.times.black == Some(tc.initialTime) && clock.value.blackIncrement == tc.increment)
  }

  datatype GameMove = GameMove(uci: string, fenAfter: string, clock: Option<u64>, times: Times)

  datatype Error = BadFen | BadMove | GameNotInProgress | NotHumanTurn | NoMovesFound

  function InitialTime(control: Option<TimeControl>): Option<u64> {
    if control.Some? then Some(control.value.initialTime) else None
  }

  function Increment(control: Option<TimeControl>): u64 {
    if control.Some? then control.value.increment else 0
  }

  function InitialTimes(config: Config): Times {
    Times(InitialTime(config.whiteControl), InitialTime(config.blackControl))
  }

  predicate IsTimed(config: Config) {
    config.whiteControl.Some? || config.blackControl.Some?
  }

  // A verdict ends the game; no verdict leaves its status alone.
  function Settle(status: Status, verdict: Option<GameResult>): Status {
    if verdict.Some? then Finished(verdict.value) else status
  }

  function Ucis(moves: seq<GameMove>): (ucis: seq<string>)
    ensures |ucis| == |moves| && forall i :: 0 <= i < |moves| ==> ucis[i] == moves[i].uci
  {
    seq(|moves|, i requires 0 <= i < |moves| => moves[i].uci)
  }

  lemma UcisSnoc(moves: seq<GameMove>, m: GameMove)
    ensures Ucis(moves + [m]) == Ucis(moves) + [m.uci]
  {
    var longer := moves + [m];
    assert forall i :: 0 <= i < |moves| ==> Ucis(longer)[i] == moves[i].uci;
  }

  lemma UcisPrefix(moves: seq<GameMove>, n: nat)
    requires n <= |moves|
    ensures Ucis(moves[..n]) == Ucis(moves)[..n]
  {}

  // The times the clocks show when nobody is thinking: those of the last move, or
  // the initial ones before the first move.
  function TimesAfter(config: Config, moves: seq<GameMove>): Times {
    if moves == [] then InitialTimes(config) else moves[|moves| - 1].times
  }

  // Only the sides that have a time control have a time.
  predicate TimesMatch(config: Config, times: Times) {
    && (times.white.Some? <==> config.whiteControl.Some?)
    && (times.black.Some? <==> config.blackControl.Some?)
  }

  /** All the controller stores that a move or a take-back changes, except the status,
      the request to the engine and the reading `lastTick`. */
  datatype Stored<P> = Stored(moves: seq<GameMove>, position: P, history: map<string, nat>, times: Option<Times>)

  // The record of move i shows the position and the times after that move.
  predicate RecordAgrees<P>(r: Rules<P>, config: Config, start: P, moves: seq<GameMove>, i: nat) {
    && i < |moves|
    && Playable(r, start, Ucis(moves[..i + 1]))
    && moves[i].fenAfter == r.fen(PositionAfter(r, start, Ucis(moves[..i + 1])))
    && TimesMatch(config, moves[i].times)
  }

  ghost predicate RecordsAgree<P>(r: Rules<P>, config: Config, start: P, moves: seq<GameMove>) {
    forall i: nat :: i < |moves| ==> RecordAgrees(r, config, start, moves, i)
  }

  /** Stored state agrees with a replay of the moves. */
  ghost predicate Agrees<P>(r: Rules<P>, config: Config, start: P, s: Stored<P>) {
    && r.parseFen(config.initialFen) == Some(start)
    && Replayed(r, start, Ucis(s.moves)) == Some(s.position)
    && s.history == HistoryAfter(r, start, Ucis(s.moves))
    && RecordsAgree(r, config, start, s.moves)
    && s.times == if IsTimed(config) then Some(TimesAfter(config, s.moves)) else None
  }

  /** What agreement says of a single move and of a single repetition key. */
  lemma AgreementMeans<P>(r: Rules<P>, config: Config, start: P, s: Stored<P>, i: nat, k: string)
    requires Agrees(r, config, start, s) && i < |s.moves|
    ensures var ucis := Ucis(s.moves);
            && Playable(r, start, ucis[..i + 1])
            && s.moves[i].fenAfter == r.fen(PositionAfter(r, start, ucis[..i + 1]))
            && (if k in s.history then s.history[k] else 0) == Occurrences(r, start, ucis, k)
  {
    assert RecordAgrees(r, config, start, s.moves, i);
    UcisPrefix(s.moves, i + 1);
    HistoryCounts(r, start, Ucis(s.moves), k);
  }

  lemma RecordsAgreePrefix<P>(r: Rules<P>, config: Config, start: P, moves: seq<GameMove>, n: nat)
    requires RecordsAgree(r, config, start, moves) && Playable(r, start, Ucis(moves)) && n <= |moves|
    ensures RecordsAgree(r, config, start, moves[..n])
    ensures Ucis(moves[..n]) == Ucis(moves)[..n]
    ensures Playable(r, start, Ucis(moves)[..n])
  {
    UcisPrefix(moves, n);
    PrefixPlayable(r, start, Ucis(moves), n);
    forall i: nat | i < n ensures RecordAgrees(r, config, start, moves[..n], i) {
      assert RecordAgrees(r, config, start, moves, i);
      assert moves[..n][..i + 1] == moves[..i + 1];
    }
  }

  // The moves determine all the rest, the repetition map and both clocks included.
  lemma MovesDetermineState<P>(r: Rules<P>, config: Config, start: P, a: Stored<P>, b: Stored<P>)
    requires Agrees(r, config, start, a) && Agrees(r, config, start, b)
    requires a.moves == b.moves
    ensures a == b
  {}

  // A legal move, recorded with the times the clocks then show, keeps the agreement.
  lemma AgreesAfterMove<P>(r: Rules<P>, config: Config, start: P, s: Stored<P>, m: GameMove, after: Stored<P>)
    requires Agrees(r, config, start, s)
    requires r.step(s.position, m.uci) == Some(after.position)
    requires after.moves == s.moves + [m]
    requires after.history == Bumped(s.history, r.key(after.position))
    requires m.fenAfter == r.fen(after.position)
    requires TimesMatch(config, m.times)
    requires after.times == if IsTimed(config) then Some(m.times) else None
    ensures Agrees(r, config, start, after)
  {
    UcisSnoc(s.moves, m);
    ReplaySnoc(r, start, Ucis(s.moves), m.uci);
    HistorySnoc(r, start, Ucis(s.moves), m.uci);
    forall i: nat | i < |after.moves| ensures RecordAgrees(r, config, start, after.moves, i) {
      if i < |s.moves| {
        assert RecordAgrees(r, config, start, s.moves, i);
        assert after.moves[..i + 1] == s.moves[..i + 1];
      } else {
        assert after.moves[..i + 1] == after.moves;
      }
    }
  }

  class Controller<P(==)> {
    const rules: Rules<P>
    const config: Config
    const start: P
    var moves: seq<GameMove>
    var position: P
    var history: map<string, nat>
    var status: Status
    var clock: Option<Clock>
    var engineThinking: bool

    ghost function State(): Stored<P>
      reads this
    {
      Stored(moves, position, history, if clock.Some? then Some(clock.value.times) else None)
    }

    ghost predicate Valid()
      reads this
    {
      && Agrees(rules, config, start, State())
      && ClockFits()
      && (status == Playing ==> NotDecidedYet())
    }

    // There is a clock exactly when some side has a time control, and it has that
    // side's times and increments.
    predicate ClockFits()
      reads this
    {
      && (clock.Some? <==> IsTimed(config))
      && (clock.Some? ==>
            && TimesMatch(config, clock.value.times)
            && clock.value.whiteIncrement == Increment(config.whiteControl)
            && clock.value.blackIncrement == Increment(config.blackControl))
    }

    ghost function View(): Game
      reads this
    {
      Game(Ucis(moves), status, engineThinking)
    }

    // A controller before its initial moves are applied.
    constructor (rules: Rules<P>, config: Config, start: P, now: nat)
      requires rules.parseFen(config.initialFen) == Some(start)
      ensures Valid() && fresh(this)
      ensures this.rules == rules && this.config == config && this.start == start
      ensures View() == Game([], Playing, false)
      ensures IsFirstClock(config, clock, now)
    {
      this.rules, this.config, this.start := rules, config, start;
      moves, position, history := [], start, map[rules.key(start) := 1];
      status, engineThinking := Playing, false;
      clock := if IsTimed(config)
               then Some(Clock(InitialTimes(config), Increment(config.whiteControl),
                               Increment(config.blackControl), now))
               else None;
    }

    /** Reads the initial position and plays the initial moves off the clock. Fails
        exactly when the position cannot be read or some initial move is not legal. */
    static method New(rules: Rules<P>, config: Config, now: nat) returns (res: Result<Controller<P>, Error>)
      ensures res.Ok? <==> var start := rules.parseFen(config.initialFen);
                           start.Some? && Playable(rules, start.value, config.initialMoves)
      ensures res.Ok? ==>
                var c := res.value;
                && fresh(c) && c.Valid() && c.rules == rules && c.config == config
                && c.View().ucis == config.initialMoves && !c.engineThinking
                && IsFirstClock(config, c.clock, now)
      ensures res.Err? ==> res.error == if rules.parseFen(config.initialFen).None? then BadFen else BadMove
    {
      var start := rules.parseFen(config.initialFen);
      if start.None? {
        return Err(BadFen);
      }
      var c := new Controller(rules, config, start.value, now);
      var played := c.PlayInitialMoves();
      return if played.Ok? then Ok(c) else Err(played.error);
    }

    method PlayInitialMoves() returns (res: Result<(), Error>)
      requires Valid() && View() == Game([], Playing, false)
      modifies this
      ensures Valid() && !engineThinking
      ensures res.Ok? <==> Playable(rules, start, config.initialMoves)
      ensures res.Ok? ==> View().ucis == config.initialMoves
      ensures clock == old(clock) && (res.Err? ==> res.error == BadMove)
    {
      var initial := config.initialMoves;
      for i := 0 to |initial|
        invariant Valid() && !engineThinking && clock == old(clock)
        invariant View().ucis == initial[..i]
      {
        assert initial[..i] + [initial[i]] == initial[..i + 1];
        var applied := ApplyMoveNoClock(initial[i]);
        if applied.Err? {
          if Playable(rules, start, initial) {
            PrefixPlayable(rules, start, initial, i + 1);
          }
          return Err(applied.error);
        }
      }
      assert initial[..|initial|] == initial;
      return Ok(());
    }

    // A running game has no verdict on its position, except that the position a game is
    // set up with is not examined before the first move.
    ghost predicate NotDecidedYet()
      requires Playable(rules, start, View().ucis)
      reads this
    {
      moves == [] || VerdictAfter(rules, start, View().ucis) == None
    }

    predicate EngineToMove()
      reads this
    {
      config.players.Of(rules.turn(position)).Engine?
    }

    // The time shown to the side to move, before its move.
    function ClockToMove(): Option<u64>
      reads this
    {
      if clock.None? then None else clock.value.times.Of(rules.turn(position))
    }

    /** Plays a move on the clock, which is read twice: for the time spent, and for the time
        the next move begins. */
    method ApplyMove(uci: string, read: nat, now: nat) returns (res: Result<GameMove, Error>)
      requires Valid()
      modifies this
      ensures Valid()
      ensures res.Ok? <==> Moved(rules, start, old(View()), uci).Some?
      ensures res.Ok? ==> View() == Moved(rules, start, old(View()), uci).value
      ensures res.Err? ==> View() == old(View()) && State() == old(State()) && clock == old(clock)
      ensures res.Err? ==> res.error == if old(status) != Playing then GameNotInProgress else BadMove
      ensures res.Ok? ==> moves == old(moves) + [res.value] && res.value.uci == uci
      ensures res.Ok? ==> res.value.clock == if old(clock).None? then None
                                             else if rules.turn(old(position)) == White then old(clock).value.times.white
                                             else old(clock).value.times.black
      ensures res.Ok? ==> clock == Ticked(old(clock), rules.turn(position).Other(), read, now)
    {
      ReplaySnoc(rules, start, Ucis(moves), uci);
      if status != Playing {
        return Err(GameNotInProgress);
      }
      var next := rules.step(position, uci);
      if next.None? {
        return Err(BadMove);
      }
      var m := PlayLegalMove(uci, next.value, read, now);
      return Ok(m);
    }

    // The part of ApplyMove after its checks.
    method PlayLegalMove(uci: string, next: P, read: nat, now: nat) returns (m: GameMove)
      requires Agrees(rules, config, start, State()) && ClockFits() && status == Playing
      requires rules.step(position, uci) == Some(next)
      modifies `moves, `position, `history, `status, `clock
      ensures Valid()
      ensures moves == old(moves) + [m] && m.uci == uci && m.clock == old(ClockToMove())
      ensures Ucis(moves) == Ucis(old(moves)) + [uci]
      ensures status == Settled(VerdictAfter(rules, start, Ucis(moves)))
      ensures clock == Ticked(old(clock), rules.turn(position).Other(), read, now)
    {
      ghost var before := State();
      var shown := ClockToMove();
      position := next;
      TickClock(read, now);
      m := Record(uci, shown, before);
    }

    // Called when the mover has just handed over the turn: its clock pays for the time
    // since the last reading and gets its increment.
    method TickClock(read: nat, now: nat)
      requires ClockFits()
      modifies `clock
      ensures ClockFits()
      ensures clock == Ticked(old(clock), rules.turn(position).Other(), read, now)
    {
      if clock.Some? {
        var c := clock.value;
        var spent := Elapsed(c.lastTick, read);
        var times := c.times;
        if rules.turn(position) == Black {
          if times.white.Some? {
            var left := SaturatingSub(times.white.value, spent);
            times := times.(white := Some(WrappingAdd(left, c.whiteIncrement)));
          }
        } else if times.black.Some? {
          var left := SaturatingSub(times.black.value, spent);
          times := times.(black := Some(WrappingAdd(left, c.blackIncrement)));
        }
        clock := Some(c.(times := times, lastTick := now));
      }
    }

    /** Plays one of the initial moves: no clock runs, and a decided game goes on. */
    method ApplyMoveNoClock(uci: string) returns (res: Result<GameMove, Error>)
      requires Valid()
      modifies this
      ensures Valid() && engineThinking == old(engineThinking)
      ensures res.Ok? <==> Playable(rules, start, old(View().ucis) + [uci])
      ensures res.Err? ==> View() == old(View()) && State() == old(State()) && clock == old(clock)
      ensures res.Err? ==> res.error == BadMove
      ensures res.Ok? ==>
                && moves == old(moves) + [res.value] && res.value.uci == uci && res.value.clock == None
                && View().ucis == old(View().ucis) + [uci]
                && clock == old(clock)
                && status == Settle(old(status), VerdictAfter(rules, start, old(View().ucis) + [uci]))
    {
      ReplaySnoc(rules, start, Ucis(moves), uci);
      var next := rules.step(position, uci);
      if next.Some? {
        ghost var before := State();
        position := next.value;
        var m := Record(uci, None, before);
        res := Ok(m);
      } else {
        res := Err(BadMove);
      }
    }

    // The two ways of playing a move end alike: count the new position, append the
    // record of the move, look whether the game has ended.
    method Record(uci: string, shown: Option<u64>, ghost before: Stored<P>) returns (m: GameMove)
      requires Agrees(rules, config, start, before)
      requires moves == before.moves && history == before.history
      requires rules.step(before.position, uci) == Some(position)
      requires ClockFits()
      modifies `moves, `history, `status
      ensures Valid()
      ensures moves == before.moves + [m] && m.uci == uci && m.clock == shown
      ensures Ucis(moves) == Ucis(before.moves) + [uci]
      ensures status == Settle(old(status), VerdictAfter(rules, start, Ucis(moves)))
    {
      history := Bumped(history, rules.key(position));
      var times := if clock.Some? then clock.value.times else Times(None, None);
      m := GameMove(uci, rules.fen(position), shown, times);
      moves := moves + [m];
      UcisSnoc(before.moves, m);
      AgreesAfterMove(rules, config, start, before, m, State());
      CheckGameEnd();
    }

    /** Sets the status when the game has ended by rule; never clears it. */
    method CheckGameEnd()
      requires Agrees(rules, config, start, State())
      modifies `status
      ensures status == Settle(old(status), VerdictAfter(rules, start, Ucis(moves)))
    {
      if rules.isCheckmate(position) {
        status := Finished(if rules.turn(position) == White then BlackWins(Checkmate) else WhiteWins(Checkmate));
        return;
      }
      if rules.isStalemate(position) {
        status := Finished(Draw(Stalemate));
        return;
      }
      if rules.isInsufficient(position) {
        status := Finished(Draw(InsufficientMaterial));
        return;
      }
      if rules.halfmoves(position) >= 100 {
        status := Finished(Draw(FiftyMoveRule));
        return;
      }
      var key := rules.key(position);
      if key in history {
        if history[key] >= 3 {
          status := Finished(Draw(ThreefoldRepetition));
        }
      }
    }

    /** Recomputes the position, the repetition map and the clocks from the move list. */
    method RebuildPositionFromMoves(now: nat) returns (res: Result<(), Error>)
      requires Replays() && ClockFits()
      modifies `position, `history, `clock
      ensures res.Ok? && Agrees(rules, config, start, State()) && ClockFits()
      ensures clock.Some? ==> clock.value.lastTick == now
    {
      res := ReplayMoves();
      RestoreClock(now);
    }

    // Replays the move list from the initial position, counting positions.
    method ReplayMoves() returns (res: Result<(), Error>)
      requires Replays()
      modifies `position, `history
      ensures res.Ok?
      ensures Replayed(rules, start, Ucis(moves)) == Some(position)
      ensures history == HistoryAfter(rules, start, Ucis(moves))
    {
      var parsed := rules.parseFen(config.initialFen);
      if parsed.None? {
        return Err(BadFen);
      }
      position := parsed.value;
      history := map[rules.key(position) := 1];
      ghost var ucis := Ucis(moves);
      for i := 0 to |moves|
        invariant Replayed(rules, start, ucis[..i]) == Some(position)
        invariant history == HistoryAfter(rules, start, ucis[..i])
      {
        PrefixPlayable(rules, start, ucis, i + 1);
        assert ucis[..i] + [moves[i].uci] == ucis[..i + 1];
        var played := ReplayMove(moves[i].uci, ucis[..i]);
        if !played {
          return Err(BadMove);
        }
      }
      assert ucis[..|moves|] == ucis;
      return Ok(());
    }

    // One turn of the replay, after the moves already done.
    method ReplayMove(uci: string, ghost done: seq<string>) returns (played: bool)
      requires Playable(rules, start, done + [uci]) && Playable(rules, start, done)
      requires Replayed(rules, start, done) == Some(position) && history == HistoryAfter(rules, start, done)
      modifies `position, `history
      ensures played
      ensures Replayed(rules, start, done + [uci]) == Some(position)
      ensures history == HistoryAfter(rules, start, done + [uci])
    {
      ReplaySnoc(rules, start, done, uci);
      HistorySnoc(rules, start, done, uci);
      var next := rules.step(position, uci);
      if next.None? {
        return false;
      }
      position := next.value;
      history := Bumped(history, rules.key(position));
      return true;
    }

    // The move list can be replayed from the initial position, and its records are right.
    ghost predicate Replays()
      reads this
    {
      && rules.parseFen(config.initialFen) == Some(start)
      && Playable(rules, start, Ucis(moves))
      && RecordsAgree(rules, config, start, moves)
    }

    // Sets the clocks back to the last move's times, or to the initial times.
    method RestoreClock(now: nat)
      requires ClockFits()
      requires RecordsAgree(rules, config, start, moves)
      modifies `clock
      ensures ClockFits()
      ensures clock.Some? ==> clock.value.times == TimesAfter(config, moves) && clock.value.lastTick == now
    {
      if clock.Some? {
        var times := InitialTimes(config);
        if moves != [] {
          assert RecordAgrees(rules, config, start, moves, |moves| - 1);
          var last := moves[|moves| - 1].times;
          if last.white.Some? || last.black.Some? {
            times := last;
          }
        }
        clock := Some(clock.value.(times := times, lastTick := now));
      }
    }

    /** A human's move. */
    method MakeMove(uci: string, read: nat, now: nat) returns (res: Result<GameMove, Error>)
      requires Valid()
      modifies this
      ensures Valid()
      ensures res.Ok? <==> !IsEngineTurn(rules, start, config.players, old(View()))
                           && Moved(rules, start, old(View()), uci).Some?
      ensures res.Err? ==>
                res.error == if IsEngineTurn(rules, start, config.players, old(View())) then NotHumanTurn
                             else if old(status) != Playing then GameNotInProgress else BadMove
      ensures res.Ok? ==> View() == Moved(rules, start, old(View()), uci).value
      ensures res.Err? ==> View() == old(View()) && State() == old(State())
    {
      if EngineToMove() {
        return Err(NotHumanTurn);
      }
      res := ApplyMove(uci, read, now);
    }

    /** Takes back one move, or two when the human of a game against an engine is to
        move. Fails only when there is nothing to take back. */
    method TakeBackMove(now: nat) returns (res: Result<(), Error>)
      requires Valid()
      modifies this
      ensures Valid()
      ensures res.Ok? <==> old(moves) != []
      ensures res.Err? ==> View() == old(View()) && State() == old(State())
      ensures res.Ok? ==> View() == TakenBack(rules, start, config.players, old(View()))
      ensures res.Ok? ==> moves == old(moves)[..|moves|]
    {
      if moves == [] {
        return Err(NoMovesFound);
      }
      res := DropMoves(now);
    }

    // The part of TakeBackMove after its check.
    method DropMoves(now: nat) returns (res: Result<(), Error>)
      requires Valid() && moves != []
      modifies this
      ensures Valid() && res.Ok?
      ensures View() == TakenBack(rules, start, config.players, old(View()))
      ensures |moves| < |old(moves)| && moves == old(moves)[..|moves|]
    {
      var human := config.players.HumanColor();
      PopMoves(human.Some? && rules.turn(position) == human.value);
      res := Resume(now);
    }

    // After moves have been dropped: the game runs again, unless it is decided.
    method Resume(now: nat) returns (res: Result<(), Error>)
      requires Replays() && ClockFits()
      modifies `position, `history, `clock, `status, `engineThinking
      ensures Valid() && res.Ok?
      ensures View() == Game(Ucis(moves), Settled(VerdictAfter(rules, start, Ucis(moves))), false)
    {
      status := Playing;
      engineThinking := false;
      res := RebuildPositionFromMoves(now);
      if res.Ok? {
        CheckGameEnd();
      }
    }

    // Drops the last move, and the one before it if asked and if there is one.
    method PopMoves(popTwo: bool)
      requires Replays() && moves != []
      modifies `moves
      ensures Replays()
      ensures |moves| == if popTwo && |old(moves)| >= 2 then |old(moves)| - 2 else |old(moves)| - 1
      ensures moves == old(moves)[..|moves|]
      ensures Ucis(moves) == Ucis(old(moves))[..|moves|]
    {
      moves := moves[..|moves| - 1];
      if popTwo && moves != [] {
        moves := moves[..|moves| - 1];
      }
      assert moves == old(moves)[..|moves|];
      RecordsAgreePrefix(rules, config, start, old(moves), |moves|);
    }

    /** Playing a move and taking it back restores the moves, the position, the
        repetition map and both stored clocks. The running status comes back too, except
        when the move was the first of a game set up in a position already decided. */
    method ApplyThenTakeBack(uci: string, read: nat, now: nat, later: nat) returns (played: bool)
      requires Valid()
      modifies this
      ensures played <==> Moved(rules, start, old(View()), uci).Some?
      ensures var after := Moved(rules, start, old(View()), uci);
              after.Some? && config.players.HumanColor() != Some(SideToMove(rules, start, after.value)) ==>
                && State() == old(State())
                && (status == old(status) <==> old(moves) != [] || VerdictAfter(rules, start, []) == None)
    {
      ghost var before := State();
      var g := ApplyMove(uci, read, now);
      played := g.Ok?;
      if played {
        ghost var all := moves;
        var _ := TakeBackMove(later);
        if |moves| == |before.moves| {
          assert moves == all[..|moves|] == before.moves;
          assert before.moves == [] ==> Ucis(before.moves) == [];
          MovesDetermineState(rules, config, start, before, State());
        }
      }
    }
  }
}
