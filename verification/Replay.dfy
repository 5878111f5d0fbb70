/**
  What a game of chess is, as far as the desktop game controller is concerned.

  The rules of chess themselves stay abstract: a `Rules` value holds one function
  for each question the controller asks the chess library. Everything a game
  knows is then a function of the starting position and the moves played, and
  this module defines those functions: the position reached, the number of times
  each repetition key has occurred, and the verdict on the final position.
 */
module Replay {
  import opened Prelude

  datatype Color = White | Black {
    function Other(): Color {
      if this == White then Black else White
    }
  }

  datatype EndReason = Checkmate | Timeout | Resignation | Abandonment
  datatype DrawReason = Stalemate | InsufficientMaterial | ThreefoldRepetition | FiftyMoveRule
  datatype GameResult = WhiteWins(reason: EndReason) | BlackWins(reason: EndReason) | Draw(draw: DrawReason)
  datatype Status = Playing | Finished(result: GameResult)

  // Who has won, if anyone has.
  function Winner(result: GameResult): Option<Color> {
    match result
    case WhiteWins(_) => Some(White)
    case BlackWins(_) => Some(Black)
    case Draw(_) => None
  }

  // The game is over, and the side has lost it for the reason.
  predicate HasLost(status: Status, side: Color, reason: EndReason) {
    && status.Finished? && !status.result.Draw?
    && Winner(status.result) == Some(side.Other()) && status.result.reason == reason
  }

  datatype Player = Human | Engine
  datatype Players = Players(white: Player, black: Player) {
    function Of(c: Color): Player {
      if c == White then white else black
    }

    // The color of the only human of a human-versus-engine game.
    function HumanColor(): Option<Color> {
      if white.Human? && black.Engine? then Some(White)
      else if white.Engine? && black.Human? then Some(Black)
      else None
    }
  }

  /** The chess library, seen from the controller. `step` is None when the text is
      not a move or the move is not legal in the position. */
  datatype Rules<!P> = Rules(
    parseFen: string -> Option<P>,
    step: (P, string) -> Option<P>,
    fen: P -> string,
    key: P -> string,
    turn: P -> Color,
    isCheckmate: P -> bool,
    isStalemate: P -> bool,
    isInsufficient: P -> bool,
    halfmoves: P -> nat)

  ghost predicate TurnsAlternate<P(!new)>(r: Rules<P>) {
    forall p: P, uci :: r.step(p, uci).Some? ==> r.turn(r.step(p, uci).value) == r.turn(p).Other()
  }

  // ---------- the position after a list of moves ----------

  function Replayed<P>(r: Rules<P>, start: P, ucis: seq<string>): Option<P> {
    if ucis == [] then Some(start)
    else
      match Replayed(r, start, ucis[..|ucis| - 1])
      case None => None
      case Some(p) => r.step(p, ucis[|ucis| - 1])
  }

  predicate Playable<P>(r: Rules<P>, start: P, ucis: seq<string>) {
    Replayed(r, start, ucis).Some?
  }

  function PositionAfter<P>(r: Rules<P>, start: P, ucis: seq<string>): P
    requires Playable(r, start, ucis)
  {
    Replayed(r, start, ucis).value
  }

  lemma ReplaySnoc<P>(r: Rules<P>, start: P, ucis: seq<string>, uci: string)
    requires Playable(r, start, ucis)
    ensures Replayed(r, start, ucis + [uci]) == r.step(PositionAfter(r, start, ucis), uci)
  {
    assert (ucis + [uci])[..|ucis|] == ucis;
  }

  lemma {:induction false} PrefixPlayable<P>(r: Rules<P>, start: P, ucis: seq<string>, n: nat)
    requires Playable(r, start, ucis) && n <= |ucis|
    ensures Playable(r, start, ucis[..n])
    decreases |ucis|
  {
    if n == |ucis| {
      assert ucis[..n] == ucis;
    } else {
      var shorter := ucis[..|ucis| - 1];
      PrefixPlayable(r, start, shorter, n);
      assert shorter[..n] == ucis[..n];
    }
  }

  // With alternating turns the side to move depends on the parity of the moves only.
  lemma {:induction false} TurnByParity<P(!new)>(r: Rules<P>, start: P, ucis: seq<string>)
    requires TurnsAlternate(r) && Playable(r, start, ucis)
    ensures r.turn(PositionAfter(r, start, ucis))
         == if |ucis| % 2 == 0 then r.turn(start) else r.turn(start).Other()
  {
    if ucis != [] {
      var shorter := ucis[..|ucis| - 1];
      PrefixPlayable(r, start, ucis, |ucis| - 1);
      TurnByParity(r, start, shorter);
      assert r.step(PositionAfter(r, start, shorter), ucis[|ucis| - 1]).Some?;
    }
  }

  // ---------- repetition counts ----------

  function KeyAfter<P>(r: Rules<P>, start: P, ucis: seq<string>, n: nat): Option<string>
    requires n <= |ucis|
  {
    match Replayed(r, start, ucis[..n])
    case None => None
    case Some(p) => Some(r.key(p))
  }

  // The moments of the game, counted in moves played, at which the position had key k.
  function Moments<P>(r: Rules<P>, start: P, ucis: seq<string>, k: string): set<nat> {
    set n: nat | n <= |ucis| && KeyAfter(r, start, ucis, n) == Some(k)
  }

  function Occurrences<P>(r: Rules<P>, start: P, ucis: seq<string>, k: string): nat {
    |Moments(r, start, ucis, k)|
  }

  lemma OccurrencesOfStart<P>(r: Rules<P>, start: P, k: string)
    ensures Occurrences(r, start, [], k) == if k == r.key(start) then 1 else 0
  {
    assert Moments(r, start, [], k) == if k == r.key(start) then {0} else {};
  }

  lemma OccurrencesSnoc<P>(r: Rules<P>, start: P, ucis: seq<string>, uci: string, k: string)
    requires Playable(r, start, ucis + [uci])
    ensures Occurrences(r, start, ucis + [uci], k)
         == Occurrences(r, start, ucis, k)
            + if r.key(PositionAfter(r, start, ucis + [uci])) == k then 1 else 0
  {
    var earlier, longer := Moments(r, start, ucis, k), ucis + [uci];
    var added: set<nat> := if r.key(PositionAfter(r, start, longer)) == k then {|longer|} else {};
    forall n: nat ensures n in Moments(r, start, longer, k) <==> n in earlier || n in added {
      KeyAfterSnoc(r, start, ucis, uci, n);
    }
    assert Moments(r, start, longer, k) == earlier + added;
    assert earlier !! added;
  }

  lemma KeyAfterSnoc<P>(r: Rules<P>, start: P, ucis: seq<string>, uci: string, n: nat)
    requires Playable(r, start, ucis + [uci])
    ensures n <= |ucis| ==> KeyAfter(r, start, ucis + [uci], n) == KeyAfter(r, start, ucis, n)
    ensures n == |ucis| + 1 ==>
      KeyAfter(r, start, ucis + [uci], n) == Some(r.key(PositionAfter(r, start, ucis + [uci])))
  {
    var longer := ucis + [uci];
    if n <= |ucis| {
      assert longer[..n] == ucis[..n];
    } else if n == |longer| {
      assert longer[..n] == longer;
    }
  }

  function Bumped(history: map<string, nat>, k: string): map<string, nat> {
    history[k := if k in history then history[k] + 1 else 1]
  }

  // The repetition map as a replay from the start builds it, position by position.
  function HistoryAfter<P>(r: Rules<P>, start: P, ucis: seq<string>): map<string, nat>
    requires Playable(r, start, ucis)
  {
    if ucis == [] then map[r.key(start) := 1]
    else
      var shorter := ucis[..|ucis| - 1];
      Bumped(HistoryAfter(r, start, shorter), r.key(PositionAfter(r, start, ucis)))
  }

  lemma HistorySnoc<P>(r: Rules<P>, start: P, ucis: seq<string>, uci: string)
    requires Playable(r, start, ucis + [uci]) && Playable(r, start, ucis)
    ensures HistoryAfter(r, start, ucis + [uci])
         == Bumped(HistoryAfter(r, start, ucis), r.key(PositionAfter(r, start, ucis + [uci])))
  {
    assert (ucis + [uci])[..|ucis|] == ucis;
  }

  /** The map built move by move holds exactly the keys that occurred, each with the
      number of moments of the game at which it occurred. */
  lemma {:induction false} HistoryCounts<P>(r: Rules<P>, start: P, ucis: seq<string>, k: string)
    requires Playable(r, start, ucis)
    ensures var history := HistoryAfter(r, start, ucis);
            && (k in history <==> Occurrences(r, start, ucis, k) > 0)
            && (k in history ==> history[k] == Occurrences(r, start, ucis, k))
  {
    if ucis == [] {
      OccurrencesOfStart(r, start, k);
    } else {
      var shorter := ucis[..|ucis| - 1];
      HistoryCounts(r, start, shorter, k);
      assert ucis == shorter + [ucis[|ucis| - 1]];
      OccurrencesSnoc(r, start, shorter, ucis[|ucis| - 1], k);
    }
  }

  // ---------- the verdict on a position ----------

  predicate EarlierRuleFires<P>(r: Rules<P>, p: P) {
    r.isCheckmate(p) || r.isStalemate(p) || r.isInsufficient(p) || r.halfmoves(p) >= 100
  }

  /** The result a game has by rule when position p stands on the board for the
      `seen`-th time. */
  function Verdict<P>(r: Rules<P>, p: P, seen: nat): Option<GameResult> {
    if r.isCheckmate(p) then
      Some(if r.turn(p) == White then BlackWins(Checkmate) else WhiteWins(Checkmate))
    else if r.isStalemate(p) then Some(Draw(Stalemate))
    else if r.isInsufficient(p) then Some(Draw(InsufficientMaterial))
    else if r.halfmoves(p) >= 100 then Some(Draw(FiftyMoveRule))
    else if seen >= 3 then Some(Draw(ThreefoldRepetition))
    else None
  }

  function VerdictAfter<P>(r: Rules<P>, start: P, ucis: seq<string>): Option<GameResult>
    requires Playable(r, start, ucis)
  {
    var p, history := PositionAfter(r, start, ucis), HistoryAfter(r, start, ucis);
    Verdict(r, p, if r.key(p) in history then history[r.key(p)] else 0)
  }

  // Article 9.2 of the FIDE Laws of Chess, as the controller applies it: the game is
  // drawn by repetition exactly when three moments of the game share the current key.
  lemma ThreefoldExactly<P>(r: Rules<P>, start: P, ucis: seq<string>)
    requires Playable(r, start, ucis)
    ensures VerdictAfter(r, start, ucis) == Some(Draw(ThreefoldRepetition)) <==>
            && !EarlierRuleFires(r, PositionAfter(r, start, ucis))
            && exists i: nat, j: nat :: i < j < |ucis|
                 && KeyAfter(r, start, ucis, i) == KeyAfter(r, start, ucis, j)
                                                == KeyAfter(r, start, ucis, |ucis|)
  {
    var k := r.key(PositionAfter(r, start, ucis));
    HistoryCounts(r, start, ucis, k);
    assert ucis[..|ucis|] == ucis;
    var ms := Moments(r, start, ucis, k);
    assert |ucis| in ms;
    if |ms| >= 3 {
      var i, j := TwoOthers(ms, |ucis|);
      assert KeyAfter(r, start, ucis, i) == KeyAfter(r, start, ucis, j);
    }
    if i: nat, j: nat :| (
         && i < j < |ucis|
         && KeyAfter(r, start, ucis, i) == KeyAfter(r, start, ucis, j) == KeyAfter(r, start, ucis, |ucis|)) {
      ThreeMembers(ms, i, j, |ucis|);
    }
  }

  // Three numbers have two below their greatest.
  lemma TwoOthers(s: set<nat>, last: nat) returns (a: nat, b: nat)
    requires |s| >= 3 && last in s && forall n :: n in s ==> n <= last
    ensures a in s && b in s && a < b < last
  {
    var rest := s - {last};
    assert |rest| >= 2;
    var x :| x in rest;
    assert |rest - {x}| >= 1;
    var y :| y in rest - {x};
    a, b := if x < y then x else y, if x < y then y else x;
  }

  /** A game is won by rule exactly by checkmate, and then by the side that is not to move:
      the one that moved last. */
  lemma WonByCheckmateExactly<P(!new)>(r: Rules<P>, start: P, ucis: seq<string>)
    requires TurnsAlternate(r) && Playable(r, start, ucis)
    ensures var p, v := PositionAfter(r, start, ucis), VerdictAfter(r, start, ucis);
            && ((v.Some? && Winner(v.value).Some?) <==> r.isCheckmate(p))
            && (r.isCheckmate(p) ==> HasLost(Finished(v.value), r.turn(p), Checkmate))
    ensures ucis != [] ==>
              var before, v := ucis[..|ucis| - 1], VerdictAfter(r, start, ucis);
              && Playable(r, start, before)
              && (v.Some? && Winner(v.value).Some? ==> Winner(v.value) == Some(r.turn(PositionAfter(r, start, before))))
  {
    if ucis != [] {
      PrefixPlayable(r, start, ucis, |ucis| - 1);
      assert r.step(PositionAfter(r, start, ucis[..|ucis| - 1]), ucis[|ucis| - 1]).Some?;
    }
  }

  /** When each draw is the verdict, and when there is none. */
  lemma DrawnExactly<P>(r: Rules<P>, start: P, ucis: seq<string>)
    requires Playable(r, start, ucis)
    ensures var p, v := PositionAfter(r, start, ucis), VerdictAfter(r, start, ucis);
            && (v == Some(Draw(Stalemate)) <==> !r.isCheckmate(p) && r.isStalemate(p))
            && (v == Some(Draw(InsufficientMaterial)) <==>
                  !r.isCheckmate(p) && !r.isStalemate(p) && r.isInsufficient(p))
            && (v == Some(Draw(FiftyMoveRule)) <==>
                  !r.isCheckmate(p) && !r.isStalemate(p) && !r.isInsufficient(p) && r.halfmoves(p) >= 100)
            && (v == None <==>
                  && !r.isCheckmate(p) && !r.isStalemate(p) && !r.isInsufficient(p) && r.halfmoves(p) < 100
                  && Occurrences(r, start, ucis, r.key(p)) < 3)
  {
    HistoryCounts(r, start, ucis, r.key(PositionAfter(r, start, ucis)));
  }

  lemma ThreeMembers(s: set<nat>, a: nat, b: nat, c: nat)
    requires a in s && b in s && c in s && a < b < c
    ensures |s| >= 3
  {
    assert {a, b, c} <= s;
    SubsetSize({a, b, c}, s);
  }

  lemma {:induction false} SubsetSize(a: set<nat>, b: set<nat>)
    requires a <= b
    ensures |a| <= |b|
  {
    if x :| x in a {
      SubsetSize(a - {x}, b - {x});
    }
  }

  // ---------- the game as its commands see it ----------

  /** What decides how the commands behave: the moves, the status, and whether the
      engine has been asked to think. */
  datatype Game = Game(ucis: seq<string>, status: Status, thinking: bool)

  function Settled(verdict: Option<GameResult>): Status {
    if verdict.Some? then Finished(verdict.value) else Playing
  }

  /** The game after a move, or None when the move is refused. */
  function Moved<P>(r: Rules<P>, start: P, g: Game, uci: string): (m: Option<Game>)
    ensures m.Some? ==> Playable(r, start, m.value.ucis) && |m.value.ucis| == |g.ucis| + 1
    ensures m.Some? ==> m.value.thinking == g.thinking
  {
    var ucis := g.ucis + [uci];
    if g.status != Playing || !Playable(r, start, ucis) then None
    else Some(Game(ucis, Settled(VerdictAfter(r, start, ucis)), g.thinking))
  }

  /** A move is taken exactly by a running game in which it can be played; it is added to
      the moves, and ends the game exactly when the new position has a verdict. */
  lemma MovedExactly<P>(r: Rules<P>, start: P, g: Game, uci: string)
    requires Playable(r, start, g.ucis)
    ensures var m := Moved(r, start, g, uci);
            && (m.Some? <==> g.status == Playing && r.step(PositionAfter(r, start, g.ucis), uci).Some?)
            && (m.Some? ==>
                  && m.value.ucis == g.ucis + [uci]
                  && (m.value.status == Playing <==> VerdictAfter(r, start, m.value.ucis) == None)
                  && (m.value.status.Finished? ==> VerdictAfter(r, start, m.value.ucis) == Some(m.value.status.result)))
  {
    ReplaySnoc(r, start, g.ucis, uci);
  }

  function SideToMove<P>(r: Rules<P>, start: P, g: Game): Color
    requires Playable(r, start, g.ucis)
  {
    r.turn(PositionAfter(r, start, g.ucis))
  }

  // How many moves a take-back leaves: in a game against an engine it goes back to
  // the human's previous turn, otherwise it undoes one move.
  function KeptByTakeBack<P>(r: Rules<P>, start: P, players: Players, g: Game): (n: nat)
    requires Playable(r, start, g.ucis) && g.ucis != []
    ensures n < |g.ucis|
  {
    if players.HumanColor() == Some(SideToMove(r, start, g)) && |g.ucis| >= 2 then |g.ucis| - 2
    else |g.ucis| - 1
  }

  function TakenBack<P>(r: Rules<P>, start: P, players: Players, g: Game): Game
    requires Playable(r, start, g.ucis) && g.ucis != []
  {
    var kept := g.ucis[..KeptByTakeBack(r, start, players, g)];
    PrefixPlayable(r, start, g.ucis, |kept|);
    Game(kept, Settled(VerdictAfter(r, start, kept)), false)
  }

  predicate IsEngineTurn<P>(r: Rules<P>, start: P, players: Players, g: Game)
    requires Playable(r, start, g.ucis)
  {
    players.Of(SideToMove(r, start, g)).Engine?
  }

  /** The human's color, player by player. */
  lemma HumanColorExactly(players: Players)
    ensures players.HumanColor() == Some(White) <==> players == Players(Human, Engine)
    ensures players.HumanColor() == Some(Black) <==> players == Players(Engine, Human)
  {}

  /** Whose turn is the engine's, player by player. */
  lemma EngineTurnExactly<P>(r: Rules<P>, start: P, players: Players, g: Game)
    requires Playable(r, start, g.ucis)
    ensures r.turn(PositionAfter(r, start, g.ucis)) == White ==> (IsEngineTurn(r, start, players, g) <==> players.white == Engine)
    ensures r.turn(PositionAfter(r, start, g.ucis)) == Black ==> (IsEngineTurn(r, start, players, g) <==> players.black == Engine)
  {}

  // In a game against an engine, a take-back hands the turn to the human exactly when
  // two moves had been played or the human was not to move; otherwise the engine's
  // opening move is undone and the engine is to move again.
  lemma TakeBackHandsTurnToHuman<P(!new)>(r: Rules<P>, start: P, players: Players, g: Game)
    requires TurnsAlternate(r) && Playable(r, start, g.ucis) && g.ucis != []
    requires players.HumanColor().Some?
    ensures var after := TakenBack(r, start, players, g);
            Playable(r, start, after.ucis) &&
            (IsEngineTurn(r, start, players, after) <==>
               |g.ucis| == 1 && SideToMove(r, start, g) == players.HumanColor().value)
  {
    var after := TakenBack(r, start, players, g);
    PrefixPlayable(r, start, g.ucis, |after.ucis|);
    TurnByParity(r, start, g.ucis);
    TurnByParity(r, start, after.ucis);
  }

  // Undoing a move gives back the moves and, unless the game began in a position that is
  // already decided, the running status. Only the request to the engine is forgotten.
  lemma TakeBackUndoesMove<P(!new)>(r: Rules<P>, start: P, players: Players, g: Game, uci: string)
    requires Playable(r, start, g.ucis) && Moved(r, start, g, uci).Some?
    requires players.HumanColor() != Some(SideToMove(r, start, Moved(r, start, g, uci).value))
    ensures TakenBack(r, start, players, Moved(r, start, g, uci).value)
         == g.(thinking := false, status := Settled(VerdictAfter(r, start, g.ucis)))
  {
    assert (g.ucis + [uci])[..|g.ucis|] == g.ucis;
  }

  // A game of two bare kings, as far as it matters here: a position is the side to move, any
  // move is legal, and material is always insufficient.
  const BARE_KINGS: Rules<Color> := Rules(
    (fen: string) => Some(White),
    (p: Color, uci: string) => Some(p.Other()),
    (p: Color) => "",
    (p: Color) => "",
    (p: Color) => p,
    (p: Color) => false,
    (p: Color) => false,
    (p: Color) => true,
    (p: Color) => 0)

  // A game set up from such a position is running. Its first move ends it, and taking that
  // move back does not make it run again.
  lemma BareKingsEndByTakeBack(uci: string)
    ensures var g, players := Game([], Playing, false), Players(Human, Human);
            var moved := Moved(BARE_KINGS, White, g, uci);
            && TurnsAlternate(BARE_KINGS) && moved.Some?
            && TakenBack(BARE_KINGS, White, players, moved.value) == g.(status := Finished(Draw(InsufficientMaterial)))
  {
    ReplaySnoc(BARE_KINGS, White, [], uci);
    assert [] + [uci] == [uci];
    TakeBackUndoesMove(BARE_KINGS, White, Players(Human, Human), Game([], Playing, false), uci);
  }
}
