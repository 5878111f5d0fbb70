# Models and proofs of the chess coach's stateful core

This project models the parts of the chess coach that keep state, loop or do arithmetic across
several functions, and proves what they promise over every input, every run and every
interleaving. `dafny verify dfyconfig.toml` checks all of it.

| module | what it models |
|---|---|
| `Replay`, `GameController` | a game on the desktop: position, repetition map, clocks and status kept move by move, and recomputed by a take-back |
| `GameLoop` | the asynchronous life of one game: the loop, the engine task, moves, take-backs, resignations, interleaved |
| `OpeningBook` | picking a game of a PGN book in one pass, and a book move by weight |
| `Quiescence` | material count, alpha-beta quiescence search, the sacrifice mark, in 32-bit arithmetic |
| `MultiPv` | assembling the engine's lines into sets of one depth |
| `Citations` | checking a narration's quoted moves, evaluations and sentences |
| `Protection` | token bucket and circuit breaker |
| `Polyglot` | writing a binary opening book, and finding entries in its bytes |
| `Tilt` | loss streaks and the games after them |
| `UciInfo`, `EngineLines` | reading an engine's info lines, and choosing the lines of an answer |
| `EnginePool` | coroutines sharing engine processes |
| `Bootstrap` | bootstrap confidence intervals |
| `Migrations` | numbered database migrations across failures and crashes |
| `Sorting` | the stable sort that several of these call |

How the models are made:

- Chess itself is abstract. `Replay.Rules`, `GameLoop.Desk`, `Quiescence.Chess` and
  `Polyglot.Chess` hold one function for each question asked of the chess library; the theorems
  hold for all such functions, with the few facts they need named (`TurnsAlternate`, `Lawful`).
- Objects that change in place are classes. Each method is tied to a function of the old state,
  and the theorems are about those functions and about runs of them. Concurrency is a state
  machine: an event is one stretch of code that runs without another party getting in.
- Clock readings, random draws, engine answers, the outcome of sending an event or of starting a
  process, and crashes are inputs, so every theorem covers all of them. Fairness is a count over
  all equally likely draws.
- `i32` overflow, `u64` wrap-around and saturation are explicit. Python's unbounded integers are
  `int`; floating-point numbers are exact reals.

## What the proofs found

Some promises fail on particular inputs. For each, a lemma gives such an input and another the
exact condition.

- *A wake-up can be lost.* `make_move` and `take_back_move` return early when telling the user
  interface fails, after the game has changed and before the loop is notified
  (`apps/desktop/src-tauri/src/game.rs:690`, `game.rs:748`). The engine then stays unasked until
  another command or the end of the game (`GameLoop.UndeliveredMoveIsLost`, `AwakeStepExactly`,
  `LostForGood`).
- *The human can be recorded as having abandoned the game.* When the engine's task fails, whoever is
  then to move loses. That is the human after a take-back quicker than the task
  (`GameLoop.QuickTakeBackForfeits`), and whenever else the last change of the moves since the engine
  was asked left the human to move (`HumanForfeitsExactly`, `HandsOverExactly`, `TaskFailsExactly`).
- *The engine's task can move in the human's place.* It looks into the opening book for whichever
  side is to move (`GameLoop.QuickTakeBackPlaysForHuman`, `MovesForHumanExactly`).
- *A take-back does not always restore the status.* The position a game is set up with is never
  examined, so undoing the first move from a position already decided ends the game
  (`Replay.BareKingsEndByTakeBack`, `GameController.Controller.ApplyThenTakeBack`).
- *A failed change of engine options can leave a collector that cannot publish.* The number of lines
  is changed before the options are sent, and a buffer that has outgrown it is emptied only when
  options are set again (`MultiPv.BrokenOffChangeBlocks`, `CanPublishExactly`). This is a statement
  about the collector: the live analysis stops its search before it changes the options, starts none
  after a failure, and sets them again the next time.
- *A late result can decide a half-open breaker.* The comment promises the probe's result; a call
  still in flight from before can report first (`Protection.LateSuccessCloses`,
  `ProbeDecidesExactly`).
- *A promotion is written without its piece*: every promotion, and no other move, reads back
  differently (`Polyglot.MoveSurvivesExactly`).
- *A line with a score of kind `q` is refused*, although the module's own pattern lists that kind and
  every number in it can be read (`UciInfo.UnknownScoreIsRefused`, `RefusedExactly`).
- *A hung engine can be handed out again.* If the coroutine that is collecting a killed process is
  cancelled, its `except Exception` does not catch the cancellation, the line that empties the
  slot is never reached, and the slot keeps the engine (`EnginePool.AbandonedEngineIsReused`,
  `HungStaysExactly`).

Where comments and code disagree the models follow the code: the validator's comment speaks of a
common substring and its docstring of both floors at once, the code measures a subsequence and
accepts either; the book writer's docstring asks for strictly ascending keys, the code and the
reader allow equal ones; the tilt metric's "winrate of a window" is the rate of all observations up
to that window; a pawn counts 90 although the evaluation's tests speak of 100; and the pool's
check for a dead process asks for a `poll` that an asyncio process does not have, so its answer is
an input of the model.

## Model

| member | source | states |
|---|---|---|
| Replay.TurnByParity | apps/desktop/src-tauri/src/game.rs:411-416 | after a replay, the side to move depends only on who began and the parity of the move list |
| Replay.HistoryCounts | apps/desktop/src-tauri/src/game.rs:404-417 | the repetition map holds exactly the keys that occurred, each with the number of moments of the game at which it occurred |
| Replay.ThreefoldExactly | apps/desktop/src-tauri/src/game.rs:441-493 | a game is drawn by repetition if and only if no earlier rule fires and two earlier moments share the current key (FIDE Laws of Chess, article 9.2) |
| Replay.WonByCheckmateExactly | apps/desktop/src-tauri/src/game.rs:441-452 | over every playable list of moves: the game is won by rule if and only if the position is checkmate; the reason is checkmate and the winner the side not to move, which moved last |
| Replay.DrawnExactly | apps/desktop/src-tauri/src/game.rs:454-493 | exactly when each of stalemate, insufficient material and the fifty-move rule is the verdict, and when there is none (FIDE Laws of Chess, articles 9.2 and 9.3) |
| Replay.MovedExactly | apps/desktop/src-tauri/src/game.rs:305-313 | a move is taken if and only if the game is running and the move legal; it is added to the moves and ends the game exactly by the verdict on the new position |
| Replay.HumanColorExactly | apps/desktop/src-tauri/src/game.rs:718-722 | the human's color is white or black exactly when that side is human and the other an engine |
| Replay.EngineTurnExactly | apps/desktop/src-tauri/src/game.rs:293-303 | it is the engine's turn exactly when the side to move is played by one |
| Replay.TakeBackHandsTurnToHuman | apps/desktop/src-tauri/src/game.rs:718-732 | against an engine, a take-back leaves the engine to move if and only if its opening move was the only move; with two moves or more the human is to move |
| Replay.TakeBackUndoesMove | apps/desktop/src-tauri/src/game.rs:706-738 | a one-move take-back after a move gives back the moves and the verdict on the position before, and forgets the request to the engine |
| Replay.BareKingsEndByTakeBack | apps/desktop/src-tauri/src/game.rs:195-250 | a game set up with two bare kings is running; a move and its take-back leave it drawn |
| GameController.AgreementMeans | apps/desktop/src-tauri/src/game.rs:222-250 | agreement with a replay, spelled out: every record's FEN is that of its own prefix, every count is the number of occurrences |
| GameController.AgreesAfterMove | apps/desktop/src-tauri/src/game.rs:305-399 | incremental bookkeeping is right: one legal move recorded with the times shown keeps agreement with the replay |
| GameController.MovesDetermineState | apps/desktop/src-tauri/src/game.rs:401-439 | two stored states that agree with a replay and have the same moves are the same, repetition map and clocks included |
| GameController.RecordsAgreePrefix | apps/desktop/src-tauri/src/game.rs:728-731 | dropping moves from the end keeps every remaining record right and the rest playable |
| GameController.Controller.constructor | apps/desktop/src-tauri/src/game.rs:195-243 | a new controller agrees with the replay of no moves, and is running |
| GameController.Controller.New | apps/desktop/src-tauri/src/game.rs:195-251 | a game is made if and only if the FEN parses and the initial moves can be played; it then has just those moves, agrees with their replay, and has each side's initial time and increment on its clock |
| GameController.Controller.PlayInitialMoves | apps/desktop/src-tauri/src/game.rs:246-248 | the initial moves are applied in order, failing exactly when they cannot be replayed |
| GameController.TickedPays | apps/desktop/src-tauri/src/game.rs:328-342 | a move costs its mover the elapsed time, down to zero, and gains it the increment modulo 2^64; the other side's time stands and the clock counts on from its second reading |
| GameController.Controller.ApplyMove | apps/desktop/src-tauri/src/game.rs:305-365 | a move succeeds exactly when the game is running and the move legal; moves, status and view become those of the game with that move, and the clock is ticked; a refusal changes nothing; agreement with the replay is kept |
| GameController.Controller.PlayLegalMove | apps/desktop/src-tauri/src/game.rs:313-365 | the part after the checks: records the time shown before the move, and the status the replayed game has |
| GameController.Controller.TickClock | apps/desktop/src-tauri/src/game.rs:328-342 | the clock, read twice, becomes the ticked clock of the side that has just moved |
| GameController.Controller.ApplyMoveNoClock | apps/desktop/src-tauri/src/game.rs:367-399 | a move is played whenever it is legal, clocks untouched, even in a decided game; agreement is kept |
| GameController.Controller.Record | apps/desktop/src-tauri/src/game.rs:320-364 | counting the position, appending the record and looking for the end restore agreement with the longer game |
| GameController.Controller.CheckGameEnd | apps/desktop/src-tauri/src/game.rs:441-493 | sets the status to the replayed game's verdict if there is one and leaves it alone otherwise |
| GameController.Controller.RebuildPositionFromMoves | apps/desktop/src-tauri/src/game.rs:401-439 | never fails on a playable move list, and restores full agreement with the replay |
| GameController.Controller.ReplayMoves | apps/desktop/src-tauri/src/game.rs:402-414 | position and repetition map become those of the replayed moves |
| GameController.Controller.ReplayMove | apps/desktop/src-tauri/src/game.rs:408-414 | one turn of the replay carries position and map one move further |
| GameController.Controller.RestoreClock | apps/desktop/src-tauri/src/game.rs:416-436 | the clocks go back to the last record's times, or the initial times |
| GameController.Controller.MakeMove | apps/desktop/src-tauri/src/game.rs:663-704 | a human's move succeeds exactly when it is not the engine's turn and the move is playable; otherwise nothing changes, and the error says which |
| GameController.Controller.TakeBackMove | apps/desktop/src-tauri/src/game.rs:706-738 | fails exactly when there is no move; otherwise the game becomes the taken-back game, keeping a prefix of the moves and full agreement |
| GameController.Controller.DropMoves | apps/desktop/src-tauri/src/game.rs:718-738 | the part after the check: fewer moves, status from the remaining game |
| GameController.Controller.Resume | apps/desktop/src-tauri/src/game.rs:732-738 | after moves are dropped the game is playing or decided by its position, with nothing asked of the engine, and agrees with the replay |
| GameController.Controller.PopMoves | apps/desktop/src-tauri/src/game.rs:728-731 | drops one move, or two when asked and there are two |
| GameController.Controller.ApplyThenTakeBack | apps/desktop/src-tauri/src/game.rs:305-439 | a move and its one-move take-back restore moves, position, repetition map and both clocks exactly; the status too if and only if a move had been played before or the initial position is undecided |
| GameLoop.SoundStep | apps/desktop/src-tauri/src/game.rs:1187-1313 | every event keeps: the loop knows the only task there is, and a running game marked as thinking is being thought about |
| GameLoop.SoundTaskStep | apps/desktop/src-tauri/src/game.rs:1368-1504 | the same for the events of the engine task |
| GameLoop.AlwaysSound | apps/desktop/src-tauri/src/game.rs:1204-1313 | over every interleaving there is at most one engine task, and thinking is real |
| GameLoop.AwakeStepExactly | apps/desktop/src-tauri/src/game.rs:663-763 | a step keeps the loop awake if and only if it is not a human's command whose move event fails to be sent while nothing else is pending |
| GameLoop.NoLostWakeUp | apps/desktop/src-tauri/src/game.rs:1187-1313 | over every interleaving in which such events are delivered: when a running game waits for the engine, a task is out, a token is pending, or the loop is about to look |
| GameLoop.LostForGood | apps/desktop/src-tauri/src/game.rs:1219-1313 | without a command a lost wake-up stays lost until the loop ends |
| GameLoop.UndeliveredMoveIsLost | apps/desktop/src-tauri/src/game.rs:683-701 | the run that loses one: an opening move whose event is not delivered |
| GameLoop.LateAskForfeits | apps/desktop/src-tauri/src/game.rs:1420-1435 | a task that asks when the human is to move fails, and the loop records the human as having abandoned the game |
| GameLoop.QuickTakeBackForfeits | apps/desktop/src-tauri/src/game.rs:706-763 | from every start of a game: a run in which the human moves, takes the move back before the engine's task has looked, and has lost by abandonment |
| GameLoop.QuickTakeBackLosesToEngine | apps/desktop/src-tauri/src/game.rs:706-763 | the same in a game of chess against an engine: the human's color has lost |
| GameLoop.TaskFailsExactly | apps/desktop/src-tauri/src/game.rs:1368-1504 | a task has failed after its event if and only if it died, asked when no engine was to move, or played a move that was refused or not told to the user interface |
| GameLoop.HumanForfeitsExactly | apps/desktop/src-tauri/src/game.rs:1240-1268 | over every run: the loop is about to end the game against the human if and only if, since the engine was asked, its task has failed and been joined and the last change of the moves left the human to move |
| GameLoop.FailureIsRecorded | apps/desktop/src-tauri/src/game.rs:1240-1268 | ending after a failure records that whoever is to move has lost, by abandonment, whatever the status was |
| GameLoop.FlagFallIsRecorded | apps/desktop/src-tauri/src/game.rs:1282-1297 | a fallen flag ends the loop and records that the side to move has lost, on time |
| GameLoop.ResignationIsRecorded | apps/desktop/src-tauri/src/game.rs:766-799 | a resignation records that the side that resigns has lost |
| GameLoop.AsksExactly | apps/desktop/src-tauri/src/game.rs:1187-1202 | the loop asks the engine if and only if the game is running, the engine is to move, and nothing has been asked yet |
| GameLoop.LoopEndsExactly | apps/desktop/src-tauri/src/game.rs:1222-1308 | the loop ends if and only if it has been told to, or its clock branch finds the game over or out of time, or a failure has been joined |
| GameLoop.LoopIsShutDown | apps/desktop/src-tauri/src/game.rs:1222-1230 | after a resignation or an abort a waiting loop can end, and its task is gone with it |
| GameLoop.HandsOverExactly | apps/desktop/src-tauri/src/game.rs:706-763 | against an engine that is to move, an event leaves the human to move if and only if it is a take-back or a move of the engine's task |
| GameLoop.QuickTakeBackPlaysForHuman | apps/desktop/src-tauri/src/game.rs:1374-1410 | from every start of a game: a run in which, after a quick take-back, the engine's task plays a book move in the human's place |
| GameLoop.AlwaysSearchesForEngine | apps/desktop/src-tauri/src/game.rs:1416-1445 | over every run a task searches only for a side that an engine plays |
| GameLoop.MovesForHumanExactly | apps/desktop/src-tauri/src/game.rs:1374-1410 | over every run the engine's task moves in the human's place if and only if it plays a book move that it looked up for the human's side |
| GameLoop.EngineMoveComesCloser | apps/desktop/src-tauri/src/game.rs:1471-1483 | a task holding a move plays it, fails, or finds the turn changed, and is nearer to its end, whether or not its event is delivered |
| GameLoop.TaskComesCloser | apps/desktop/src-tauri/src/game.rs:1368-1504 | every event of the task serves the engine's turn, or leaves the engine due for the same turn with less remaining |
| GameLoop.EveryStepComesCloser | apps/desktop/src-tauri/src/game.rs:1219-1313 | every event but a command serves the engine's turn, or leaves the engine due for the same turn with less remaining; only the clock branch leaves as much |
| GameLoop.ServedStaysServed | apps/desktop/src-tauri/src/game.rs:1219-1313 | without a command a served turn stays served |
| GameLoop.EveryRunServes | apps/desktop/src-tauri/src/game.rs:1187-1313 | every run without a command serves the engine's turn before its twentieth event, the clock's not counted |
| GameLoop.NextIsPossible | apps/desktop/src-tauri/src/game.rs:1219-1313 | an awake loop with the engine due is never stuck: a particular next event can happen |
| GameLoop.EngineIsServed | apps/desktop/src-tauri/src/game.rs:1187-1313 | from every awake state in which the engine is due, some run of at most twenty events and no command serves its turn |
| GameLoop.ChessRuns | apps/desktop/src-tauri/src/game.rs:1187-1504 | the same for the chess operations: every interleaving keeps a replayable game, a sound loop, and no lost wake-up when events are delivered |
| OpeningBook.PgnVisitor.EndGame | apps/desktop/src-tauri/src/game.rs:973-994 | a usable game is counted and replaces the selection exactly when its draw is zero; any other game changes neither |
| OpeningBook.PgnVisitor.ReadGame | apps/desktop/src-tauri/src/game.rs:917-994 | reading a game with its headers and moves counts it exactly when nothing in it is malformed and it has a move |
| OpeningBook.CandidateExactly | apps/desktop/src-tauri/src/game.rs:973-986 | what is selected of a game: the last position its headers give, or the usual one, and all its moves |
| OpeningBook.SelectRandomPgnEntry | apps/desktop/src-tauri/src/game.rs:997-1010 | one pass returns the usable game that the draws name, or an error exactly when there is none |
| OpeningBook.DrawsArePossible | apps/desktop/src-tauri/src/game.rs:988-991 | the counted sequences of draws are all the possible ones: the k-th below k+1 |
| OpeningBook.DrawsSize | apps/desktop/src-tauri/src/game.rs:988-991 | there are n! of them |
| OpeningBook.SelectionIsUniform | apps/desktop/src-tauri/src/game.rs:973-1010 | of the n! sequences, exactly (n-1)! select each of the n usable games |
| OpeningBook.ChooseWeightedIndex | apps/desktop/src-tauri/src/game.rs:1052-1068 | the loop returns the index on whose band the draw falls; with all weights zero the draw itself; the fallback is never reached |
| OpeningBook.WeightedChoiceIsProportional | apps/desktop/src-tauri/src/game.rs:1052-1068 | of the equally likely draws exactly weight-many give an index, and each draw gives one index only |
| Quiescence.CountMaterial | apps/desktop/src-tauri/src/chess.rs:636-652 | the material balance for the side to move, within 64000 either way, without overflow |
| Quiescence.BalanceIsOfPieces | apps/desktop/src-tauri/src/chess.rs:640-652 | short of checkmate, the balance is the value of the mover's pieces less that of the other side's, piece by piece |
| Quiescence.MoreIsBetter | apps/desktop/src-tauri/src/chess.rs:636-652 | a mover with at least as many of every kind is not behind, with more of some kind is ahead, and a checkmated one is 10000 behind |
| Quiescence.OneMorePiece | apps/desktop/src-tauri/src/chess.rs:640-652 | each further own piece raises the balance by its value, each further piece of the other side lowers it |
| Quiescence.Prices | apps/desktop/src-tauri/src/chess.rs:654-663 | the values of the pieces |
| Quiescence.SortByVictimSorts | apps/desktop/src-tauri/src/chess.rs:677-681 | captures are tried most valuable victim first, none lost or added |
| Quiescence.QValueIsMinimax | apps/desktop/src-tauri/src/chess.rs:665-696 | the quiescence value is the maximum of standing pat and the negated values after the captures |
| Quiescence.QValueBounded | apps/desktop/src-tauri/src/chess.rs:636-696 | it stays within 64000 either way |
| Quiescence.QSearch | apps/desktop/src-tauri/src/chess.rs:665-696 | for every window the search returns that value clamped to the window; it terminates and no negation overflows, even with the widest window |
| Quiescence.TryCaptures | apps/desktop/src-tauri/src/chess.rs:683-695 | the capture loop gives the same result for any order of the captures |
| Quiescence.TryCapture | apps/desktop/src-tauri/src/chess.rs:684-686 | the negated recursive result bounds the capture's value from the side where the window cuts |
| Quiescence.NaiveEval | apps/desktop/src-tauri/src/chess.rs:698-708 | the greatest negated quiescence value over the legal moves, or the least integer without moves |
| Quiescence.NegationFitsExactly | apps/desktop/src-tauri/src/chess.rs:512-514 | negating the evaluation fits 32 bits if and only if there is a legal move |
| Quiescence.SacrificeMark | apps/desktop/src-tauri/src/chess.rs:512-519 | no mark on a finished game, otherwise the comparison of the two evaluations, without overflow |
| MultiPv.EngineProcess.SetOptions | apps/desktop/src-tauri/src/chess.rs:82-120 | on success an empty collector for the new number of lines; a failure before that number is known changes nothing, a later one only that number |
| MultiPv.EngineProcess.OnInfo | apps/desktop/src-tauri/src/chess.rs:373-417 | the new collector and the published set are those of the specification function |
| MultiPv.EngineProcess.OnInfoInGame | apps/desktop/src-tauri/src/chess.rs:571-591 | whole-game analysis publishes exactly complete sets of one depth, its assertion holds, and a full buffer is emptied |
| MultiPv.PublishedSetsAreComplete | apps/desktop/src-tauri/src/chess.rs:373-438 | over every stream of messages and option changes, failed ones too, every published set that is not empty is lines 1 to k of one depth, in order |
| MultiPv.PublishesExactly | apps/desktop/src-tauri/src/chess.rs:384-413 | the buffer and the new line are published if and only if the line has a score, is the last asked for, as deep as all others and no less deep than before, and the rate limiter is open |
| MultiPv.BoundsLeaveNoTrace | apps/desktop/src-tauri/src/chess.rs:376-380 | over every run, messages whose score is only a bound might as well not have come |
| MultiPv.DepthNeverDecreases | apps/desktop/src-tauri/src/chess.rs:384-413 | until the options change, the published depth never decreases |
| MultiPv.CollectsFullSets | apps/desktop/src-tauri/src/chess.rs:97-119 | after successful option changes the buffer is always shorter than a full set, and published sets are full ones |
| MultiPv.CanPublishExactly | apps/desktop/src-tauri/src/chess.rs:373-417 | some further messages make the collector publish if and only if its buffer is shorter than a full set |
| MultiPv.BrokenOffChangeBlocks | apps/desktop/src-tauri/src/chess.rs:104-119 | a run from a new process in which a change of options broken off after its number of lines is set leaves a collector that cannot publish |
| Citations.LcsIsReached | services/chess_coach/narration/validator.py:98-117 | some common subsequence has the computed length |
| Citations.LcsIsLongest | services/chess_coach/narration/validator.py:98-117 | no common subsequence is longer |
| Citations.LcsWordCount | services/chess_coach/narration/validator.py:98-117 | the table filled row by row ends in that length |
| Citations.WordTokens | services/chess_coach/narration/validator.py:83-95 | the loop keeps the pieces that have a word, stripped of punctuation and lowered, in order |
| Citations.StripsPunctuation | services/chess_coach/narration/validator.py:92-93 | stripping takes away punctuation at both ends, all of it and nothing else |
| Citations.TokenExactly | services/chess_coach/narration/validator.py:90-94 | a piece gives a token if and only if it is not all punctuation, and the token is the piece without its outer punctuation, lowered |
| Citations.GroundedExactly | services/chess_coach/narration/validator.py:130-146 | a citation is grounded if and only if it has a word and its longest common subsequence with the paragraph has 30 words or half of its own |
| Citations.GroundingSimilarityOk | services/chess_coach/narration/validator.py:120-146 | true if and only if the citation has a word and some common subsequence has 30 words or half of the citation's words |
| Citations.VerbatimRunIsGrounded | services/chess_coach/narration/validator.py:120-146 | every verbatim run of a paragraph that has a word passes |
| Citations.CheckMoves | services/chess_coach/narration/validator.py:170-178 | the missing moves are exactly the quoted ones that cannot be read or are in no line, in order |
| Citations.CheckEvals | services/chess_coach/narration/validator.py:181-200 | the missing evaluations are exactly those not within tolerance of a line's score, mates exactly |
| Citations.AgreesExactly | services/chess_coach/narration/validator.py:186-199 | centipawns agree within 20 of each other, mates only with the same mate, and neither with the other |
| Citations.HoldsExactly | services/chess_coach/narration/validator.py:170-200 | a quoted move holds if and only if it is a move of the lines, an evaluation if and only if some score of the lines agrees |
| Citations.CheckGroundings | services/chess_coach/narration/validator.py:206-217 | the failed quotes are exactly those not grounded in the paragraph |
| Citations.ValidateCitations | services/chess_coach/narration/validator.py:149-225 | a narration is valid if and only if every quoted move and evaluation holds and, given a paragraph, every quoted sentence is grounded |
| Protection.TokenBucket.Create | services/chess_coach/pdf_ocr/protection.py:99-105 | a bucket is made exactly for positive capacity and rate, and starts full |
| Protection.TokenBucket.TryAcquire | services/chess_coach/pdf_ocr/protection.py:107-118 | refills and takes a token if there is one, keeping the tokens between zero and the capacity |
| Protection.InflowIsRateTimesTime | services/chess_coach/pdf_ocr/protection.py:107-111 | what flows in is the rate in every unit of time |
| Protection.CallsKeepValid | services/chess_coach/pdf_ocr/protection.py:107-118 | over any calls with a clock that does not go back, tokens stay between zero and the capacity |
| Protection.RateBound | services/chess_coach/pdf_ocr/protection.py:107-118 | in every window of every run at most capacity plus rate times length calls are granted |
| Protection.RefusalIsForced | services/chess_coach/pdf_ocr/protection.py:107-118 | a refusal is never needless: granting the call would have broken the bound of some window |
| Protection.CircuitBreaker.ShouldAllow | services/chess_coach/pdf_ocr/protection.py:154-169 | the new state and the answer are those of the specification function |
| Protection.CircuitBreaker.RecordSuccess | services/chess_coach/pdf_ocr/protection.py:171-179 | closes a half-open breaker and clears the failures; stays valid |
| Protection.CircuitBreaker.RecordFailure | services/chess_coach/pdf_ocr/protection.py:181-195 | counts, opens at the threshold or from half-open with the time stamped; stays valid |
| Protection.ClosedCountsFailures | services/chess_coach/pdf_ocr/protection.py:154-195 | over any calls and results, a closed breaker's count is the failures since the last success, below the threshold |
| Protection.OpensAtThresholdExactly | services/chess_coach/pdf_ocr/protection.py:154-195 | over every run: while the failures since the last success stay below the threshold the breaker is closed and lets every call through, and the failure with which they reach it opens it |
| Protection.LateResultsOnlyCount | services/chess_coach/pdf_ocr/protection.py:171-195 | late results that reach an open breaker change its count and nothing else |
| Protection.ProbesWhileHalfOpenExactly | services/chess_coach/pdf_ocr/protection.py:154-195 | over every run a probe is out if and only if the breaker is half-open |
| Protection.CooldownEndsExactly | services/chess_coach/pdf_ocr/protection.py:157-169 | an open breaker lets a call through if and only if its cooldown is over, whatever its failures, and that call is the probe |
| Protection.NothingDuringCooldown | services/chess_coach/pdf_ocr/protection.py:154-169 | after opening, no call passes before the cooldown is over, whatever late results come in |
| Protection.OpeningIsStamped | services/chess_coach/pdf_ocr/protection.py:181-195 | only a failure opens a breaker, and its time is the opening time |
| Protection.ProbeIsAlone | services/chess_coach/pdf_ocr/protection.py:154-169 | from half-opening to the next result only the call that half-opened it passes |
| Protection.AnyReportDecides | services/chess_coach/pdf_ocr/protection.py:171-189 | any report decides a half-open breaker: a success closes it, a failure opens it |
| Protection.ProbeDecidesExactly | services/chess_coach/pdf_ocr/adapter.py:216-228 | when the breaker has half-opened, every call in flight decides it by its report, and another call than the probe can if and only if one was in flight before |
| Protection.LateSuccessCloses | services/chess_coach/pdf_ocr/protection.py:171-179 | a run in which a late success closes the breaker while its probe is out |
| Polyglot.BigEndianRoundTrip | services/chess_coach/repertoire/polyglot_writer.py:94-95 | a number below 256^w read back from w bytes, highest first, is itself |
| Polyglot.HighestByteFirst | services/chess_coach/repertoire/polyglot_writer.py:94-95 | the first byte of a number weighs most, and the others hold the rest |
| Polyglot.BitsOfMove | services/chess_coach/repertoire/polyglot_writer.py:111-133 | the reader's layout of a move: six bits for the target, six for the origin, three for the promotion |
| Polyglot.EncodeMove | services/chess_coach/repertoire/polyglot_writer.py:111-133 | a move is encoded if and only if both squares are on the board, the origin above the target |
| Polyglot.MoveSurvivesExactly | services/chess_coach/repertoire/polyglot_writer.py:111-133 | a move survives encoding and decoding if and only if it is not a promotion |
| Polyglot.EntryRoundTrip | services/chess_coach/repertoire/polyglot_writer.py:136-152 | key, squares, weight and learn survive the 16 bytes |
| Polyglot.EntryFields | services/chess_coach/repertoire/polyglot_writer.py:152 | key, move, weight and learn lie one after the other in 8, 2, 2 and 4 bytes |
| Polyglot.RefusedFor | services/chess_coach/repertoire/polyglot_writer.py:136-152 | an entry is refused for the first of its faults: unreadable move, illegal move, weight, learn |
| Polyglot.UnreadablePosition | services/chess_coach/repertoire/polyglot_writer.py:194-198 | a book is refused for a position if and only if one cannot be read, before anything else is looked at |
| Polyglot.WritableExactly | services/chess_coach/repertoire/polyglot_writer.py:136-152 | an entry can be written if and only if its position and move can be read, the move is legal, and weight and learn fit their fields |
| Polyglot.GivenIsWhatWasGiven | services/chess_coach/repertoire/polyglot_writer.py:136-152 | what a reader sees of an entry: its position's key, its move's squares, its weight and its learning data |
| Polyglot.SortKeepsGroups | services/chess_coach/repertoire/polyglot_writer.py:198 | sorting by key keeps the entries of each position in the given order |
| Polyglot.WritesExactly | services/chess_coach/repertoire/polyglot_writer.py:187-202 | a book is written if and only if each entry is valid, whatever their order |
| Polyglot.WrittenBook | services/chess_coach/repertoire/polyglot_writer.py:187-202 | 16 bytes an entry, and decoding gives a key-sorted permutation of the entries, each position's in the given order |
| Polyglot.BisectKeyLeft | services/chess_coach/repertoire/polyglot_writer.py:38-46 | the reader's binary search over the bytes finds the leftmost place of a key |
| Polyglot.FindAll | services/chess_coach/repertoire/polyglot_writer.py:38-46 | the reader's lookup returns exactly the entries with the key |
| Polyglot.WriteAndFind | services/chess_coach/repertoire/polyglot_writer.py:155-202 | end to end: looking up a key in a written book gives exactly the entries of that position, with the squares of their moves, weights and learning data, in the given order |
| Tilt.BuildLossStreaks | services/chess_coach/profile/tilt.py:115-142 | the loop returns the streaks of the specification |
| Tilt.StreaksAreTheMaximalRuns | services/chess_coach/profile/tilt.py:115-142 | those are the lengths of the maximal runs of losses, each run once, left to right, and every run |
| Tilt.StreaksAccountForLosses | services/chess_coach/profile/tilt.py:115-142 | the streak lengths add up to the number of losses |
| Tilt.CollectObservations | services/chess_coach/profile/tilt.py:194-215 | the nested loops collect the observations of windows 1 to 5, and the lowest rate so far |
| Tilt.WindowLost | services/chess_coach/profile/tilt.py:199-200 | looking back finds exactly whether the whole window was lost |
| Tilt.ObservationsInClosedForm | services/chess_coach/profile/tilt.py:194-215 | for every sequence, the number of observations is the sum over the streaks of min(j, 5) for each loss another game follows, and their wins are min(length, 5) for each streak a win ends |
| Tilt.TriangleIs | services/chess_coach/profile/tilt.py:194-200 | a streak of 1, 2, 3, 4 losses followed by games gives 1, 3, 6, 10 observations, and each further loss five more |
| Tilt.WinsAndLossesAreCounted | services/chess_coach/profile/tilt.py:188-190 | the wins and losses are how many games were won and lost |
| Tilt.GatesExactly | services/chess_coach/profile/tilt.py:174-187 | the gates are thirty games and five streaks of at least two losses |
| Tilt.LowestIsBelow | services/chess_coach/profile/tilt.py:195-215 | the worst rate is at most the baseline and every rate seen after a window |
| Tilt.LowestIsReached | services/chess_coach/profile/tilt.py:195-215 | and it is one of them |
| Tilt.VarianceVanishesExactly | services/chess_coach/profile/tilt.py:228-234 | the variance is never negative, and zero if and only if all observations are the same |
| Tilt.SquaresOfOneMore | services/chess_coach/profile/tilt.py:228-232 | each observation adds the square of its distance from the mean |
| Tilt.VarianceShares | services/chess_coach/profile/tilt.py:228-232 | the variance times one less than the number of observations is the sum of squares |
| Tilt.EffectSizeMeans | services/chess_coach/profile/tilt.py:228-234 | the effect size is missing if and only if all observations are the same; otherwise it is the distance of their mean from the baseline in standard deviations |
| Tilt.SequenceBasedTilt | services/chess_coach/profile/tilt.py:177-245 | below the gates nothing is reported; otherwise the sample size is the closed form, the estimate lies between 0 and the share of wins, the effect size is that of the observations, and the interval is the bootstrap interval of their mean, within 0 and 1 |
| Tilt.GatesGiveObservations | services/chess_coach/profile/tilt.py:180-220 | games that pass the gates give at least 13 observations, so the guard against none is never taken |
| UciInfo.First | libs/chess_coach/uci/engine.py:251-285 | the front item's words are a non-empty front of the line, so the scan always gets further |
| UciInfo.RenderItems | libs/chess_coach/uci/engine.py:249-285 | every line is the rendering of a well-formed list of items: nothing is skipped or read twice |
| UciInfo.ItemsRender | libs/chess_coach/uci/engine.py:249-285 | and of only one: well-formed items come back from their words |
| UciInfo.ScanItem | libs/chess_coach/uci/engine.py:251-285 | one turn of the loop consumes the front item and enters its value |
| UciInfo.ParseInfo | libs/chess_coach/uci/engine.py:238-296 | the scan terminates with the meaning of the line's items |
| UciInfo.RefusedExactly | libs/chess_coach/uci/engine.py:251-273 | a line is refused if and only if one of its numbers cannot be read or a score's kind is neither `cp` nor `mate` |
| UciInfo.UnknownScoreIsRefused | libs/chess_coach/protocol_types/analysis.py:12-22 | such a line: all its numbers can be read, its score is of kind `q` |
| UciInfo.ReadsEveryField | libs/chess_coach/uci/engine.py:248-285 | of distinct fields every value is read, and nothing else is filled in |
| UciInfo.FieldOrderDoesNotMatter | libs/chess_coach/uci/engine.py:238-296 | two lines with the same distinct fields parse alike, in any order and with any ignored items and unknown words between |
| UciInfo.ParsesWhatIsSaid | libs/chess_coach/uci/engine.py:286-296 | the event says what the fields say and no more; the line number defaults to 1; without a depth there is no event |
| UciInfo.Keywords | libs/chess_coach/uci/engine.py:253-279 | the keywords of the number fields |
| UciInfo.KeywordMeans | libs/chess_coach/uci/engine.py:253-296 | each keyword fills its own field of the event and no other |
| UciInfo.ScoreMeans | libs/chess_coach/uci/engine.py:266-271 | a score's kind and value are those of the two words after it |
| UciInfo.MovesMean | libs/chess_coach/uci/engine.py:280-285 | the words after `pv` are the moves, those after `string` are nothing |
| UciInfo.IgnoredMeanNothing | libs/chess_coach/uci/engine.py:276-279 | each of the ignored keywords takes the word after it along, whatever it is |
| EngineLines.KeepsTheFirstDeepest | services/chess_coach/engine_orch/pool.py:238-254 | per line number the kept event is the first of the deepest usable ones, and there is none only if none was usable |
| EngineLines.Collect | services/chess_coach/engine_orch/pool.py:238-254 | the loop ends with the kept line of every number heard of, or fails exactly when some usable event is out of bounds |
| EngineLines.SortedKeys | services/chess_coach/engine_orch/pool.py:256 | the numbers in strictly ascending order, none missing |
| EngineLines.ChooseLines | services/chess_coach/engine_orch/pool.py:238-275 | an error if and only if some usable event is out of a line's bounds or no event is usable; otherwise one kept line per number in ascending order |
| EngineLines.EventsExactly | libs/chess_coach/protocol_types/analysis.py:25-34 | which events make a line, and within which bounds, field by field |
| EngineLines.LinesAreEvents | services/chess_coach/engine_orch/pool.py:238-256 | each line of the answer is, field by field, the first of the deepest usable events of its number |
| EngineLines.DepthIsReached | services/chess_coach/engine_orch/pool.py:267 | the reported depth is the greatest of any usable event |
| EngineLines.ChoiceIsUnique | services/chess_coach/engine_orch/pool.py:238-256 | no other list of lines fits the same events |
| EnginePool.StepKeepsSound | services/chess_coach/engine_orch/pool.py:168-279 | every step keeps: permits and analyses add up to the workers, a slot's worker holds its lock, and each slot's engine was started for it |
| EnginePool.AlwaysSound | services/chess_coach/engine_orch/pool.py:168-337 | that holds over every interleaving of analyses, info calls, warm-ups and cancellations |
| EnginePool.Exclusion | services/chess_coach/engine_orch/pool.py:168-337 | no two coroutines work on one slot or drive one engine process, and at most max_workers analyses are past the semaphore |
| EnginePool.NothingLeaks | services/chess_coach/engine_orch/pool.py:168-279 | when every call has ended, every lock is free and the semaphore whole |
| EnginePool.BeginsExactly | services/chess_coach/engine_orch/pool.py:168-337 | an analysis begins at the semaphore, a question at the engine's first slot, a warm-up at the first slot of all |
| EnginePool.LocksExactly | services/chess_coach/engine_orch/pool.py:402-470 | a slot without an engine gets a new one, a process found dead is collected first, and any other is used again |
| EnginePool.GoesOnExactly | services/chess_coach/engine_orch/pool.py:168-337 | with its engine at hand an analysis searches and a question is answered; a warm-up goes on, slot by slot in order, also when an engine does not start |
| EnginePool.StartFillsSlotExactly | services/chess_coach/engine_orch/pool.py:446-450 | an engine is in its slot if and only if it has started |
| EnginePool.EndsExactly | services/chess_coach/engine_orch/pool.py:168-337 | how a call ends: cancelled, with a hung engine, with a failed engine, or answered, each exactly by its own events |
| EnginePool.UnknownExactly | services/chess_coach/engine_orch/pool.py:152-154 | a call ends at once if and only if it is for an engine the pool does not know |
| EnginePool.TimeoutEndsHung | services/chess_coach/engine_orch/pool.py:200-237 | a search that times out has its process killed, and the call then ends with a hung engine |
| EnginePool.SlotsTakeTurns | services/chess_coach/engine_orch/pool.py:395-400 | the k-th admitted analysis of an engine gets slot k modulo the number of workers |
| EnginePool.NoDeadlock | services/chess_coach/engine_orch/pool.py:168-337 | while a call has not ended, some coroutine can go on |
| EnginePool.EveryStepAdvances | services/chess_coach/engine_orch/pool.py:168-337 | every step lowers the number of steps still possible, so runs without new calls are bounded |
| EnginePool.HungStaysExactly | services/chess_coach/engine_orch/pool.py:200-237 | a step leaves a hung engine in its slot if and only if it cancels the coroutine that is collecting the killed process |
| EnginePool.HungEngineIsNotReused | services/chess_coach/engine_orch/pool.py:200-237 | without such a cancellation an engine whose search timed out is never driven again |
| EnginePool.AbandonedEngineIsReused | services/chess_coach/engine_orch/pool.py:211-231 | in every new pool some run with such a cancellation drives a hung engine |
| Sorting.SortedSorts | services/chess_coach/profile/effect_size.py:184 | a sort by any order puts the elements in that order |
| Sorting.SortedPermutes | services/chess_coach/profile/effect_size.py:184 | it loses and adds none |
| Bootstrap.SortedSorts | services/chess_coach/profile/effect_size.py:184 | sorting gives an ordered permutation |
| Bootstrap.MeanWithin | services/chess_coach/profile/effect_size.py:174 | a mean lies within any bounds of its sample |
| Bootstrap.MeanBalancesExactly | services/chess_coach/profile/effect_size.py:174 | the mean is the one point from which the values deviate by nothing on the whole |
| Bootstrap.StatisticsExactly | services/chess_coach/profile/effect_size.py:173-183 | there are two statistics, by their names |
| Bootstrap.MedianWithin | services/chess_coach/profile/effect_size.py:176-181 | a median lies within any bounds of its sample |
| Bootstrap.MedianIsMiddle | services/chess_coach/profile/effect_size.py:176-181 | the lower half of the sorted values is at most the median, the upper half at least |
| Bootstrap.PlacesSpanConfidence | services/chess_coach/profile/effect_size.py:186-188 | the two places cut off the same at both ends and leave the share given by the confidence between them |
| Bootstrap.PercentileInRange | services/chess_coach/profile/effect_size.py:189-200 | every interpolation index is in range, and the percentile lies between the two neighbouring entries |
| Bootstrap.PercentileGrows | services/chess_coach/profile/effect_size.py:189-200 | percentiles grow with their place |
| Bootstrap.PercentileAtEntry | services/chess_coach/profile/effect_size.py:189-200 | at a whole number the percentile is that entry |
| Bootstrap.PercentileInterpolates | services/chess_coach/profile/effect_size.py:189-200 | between two entries the percentile is their mixture, by how far its place lies from each |
| Bootstrap.IndexExactly | services/chess_coach/profile/effect_size.py:194-200 | a negative index counts from the end, one beyond either end is refused |
| Bootstrap.RefusedFor | services/chess_coach/profile/effect_size.py:165-183 | no sample gives the empty interval, no resamples an index error, and otherwise an unknown statistic its own error |
| Bootstrap.BootstrapCi | services/chess_coach/profile/effect_size.py:165-203 | the loop computes the interval of the specification, errors included; for confidence in [0, 1] it is ordered and within the sample |
| Bootstrap.IntervalIsBounded | services/chess_coach/profile/effect_size.py:165-203 | for every sample, draws and number of resamples: least of sample <= low <= high <= greatest of sample |
| Bootstrap.MoreConfidenceIsWider | services/chess_coach/profile/effect_size.py:186-203 | more confidence gives an interval around the old one |
| Bootstrap.FullConfidenceSpansAll | services/chess_coach/profile/effect_size.py:186-203 | at confidence 1 the interval runs from the least statistic to the greatest |
| Migrations.NameOrderIsVersionOrder | libs/chess_coach/storage/migrate.py:57-61 | zero padding makes the order of file names the order of versions |
| Migrations.VersionOfNumber | libs/chess_coach/storage/migrate.py:34 | a file named after a zero-padded number has that number as its version |
| Migrations.NamesExactly | libs/chess_coach/storage/migrate.py:34 | a migration's name is four digits, an underscore, a slug and the suffix, with at most a line end after it |
| Migrations.CharactersExactly | libs/chess_coach/storage/migrate.py:34 | the characters of the digits and of the slug |
| Migrations.MatchingExactly | libs/chess_coach/storage/migrate.py:57-65 | the migrations are those of the files so named, with their text, name and number |
| Migrations.ContiguousExactly | libs/chess_coach/storage/migrate.py:51-74 | the contiguity check passes if and only if every number from 1 to n is some file's, whatever order the directory lists them in |
| Migrations.DiscoverMigrations | libs/chess_coach/storage/migrate.py:51-74 | returns all matching files, numbered 1 to n in order, or fails exactly when the numbers are not 1 to n |
| Migrations.Store.Migrate | libs/chess_coach/storage/migrate.py:106-177 | one run over the pending migrations, with its database, backups, report and ending, however the run ends |
| Migrations.Store.Apply | libs/chess_coach/storage/migrate.py:143-174 | one migration: a backup if risky, and only then script and number together or not at all |
| Migrations.PendingAreTheRest | libs/chess_coach/storage/migrate.py:130-131 | of contiguous migrations the pending ones are those after the first user_version |
| Migrations.RunKeepsConsistent | libs/chess_coach/storage/migrate.py:106-177 | however a run ends, the database is the in-order application of exactly its first user_version migrations |
| Migrations.RunMakesProgress | libs/chess_coach/storage/migrate.py:143-175 | a normal run applies and reports all pending ones, a failed run those before the one it names, a cut-off run reports at most one fewer than it applied |
| Migrations.EndsAsFated | libs/chess_coach/storage/migrate.py:143-175 | a run takes the pending migrations as far as the first that is not committed, and ends as that one's fate says |
| Migrations.LacksBackupExactly | libs/chess_coach/storage/migrate.py:143-150 | only a risky migration of a run that keeps backups can lack one, and then it is not applied |
| Migrations.BackupsAreConsistent | libs/chess_coach/storage/migrate.py:143-150 | every backup is consistent, and there is one from just before each risky migration applied |
| Migrations.BackupsAreForRisky | libs/chess_coach/storage/migrate.py:143-150 | backups are made only where they are kept, and only before risky migrations |
| Migrations.SurvivesEverything | libs/chess_coach/storage/migrate.py:106-177 | the same over any sequence of runs with growing lists of migrations, each ending normally, in a failure or in a crash |
| Migrations.NormalRunIsComplete | libs/chess_coach/storage/migrate.py:130-177 | a normal run reaches the last version, and a rerun applies none and changes nothing |
| Migrations.ResumesWhereItFailed | libs/chess_coach/storage/migrate.py:163-172 | a failed run stops just short of the migration it names, and a later good run resumes there |

## Left out

- GameLoop.NoLostWakeUp: holds of the runs in which the move events of human commands are delivered, because it is false of the others; `GameLoop.AwakeStepExactly` gives the exact condition for all.
- GameController.Controller.ApplyThenTakeBack: the clock reading `last_tick` is not restored, and the status only under the condition stated, because the code does not restore them.
- MultiPv.CollectsFullSets: speaks of option changes that succeed and ask for at least one line, because it is false after a failed one; `MultiPv.CanPublishExactly` says what is left then.
- EnginePool.HungEngineIsNotReused: excludes a cancellation during the collection of a killed process, because it is false then; `EnginePool.HungStaysExactly` is the exact condition.
- Polyglot.WrittenBook: speaks of the squares of a move, because the writer does not encode a promotion piece.
- Tilt.SequenceBasedTilt: rounding its numbers to four digits is not modelled; square roots are those of a given function.
- Migrations.DiscoverMigrations: digits in file names are ASCII digits; the regular expression allows the digits of other scripts, which sort elsewhere.
- EngineLines.ChooseLines: the answer's other fields, and their own bounds (a thread count from the options, say), are not modelled.
- Not claimed: that an engine's move was computed for the position it is played in. The task re-checks only status and side to move, and take-backs during a search defeat more.
- The rules of chess, move notation (SAN), Zobrist hashing and the FEN text behind a repetition key: abstract functions.
- `check_timeout` and the times shown while a clock runs: the loop's model takes the outcome of the timeout check as an input.
- The EPD book, the book's file formats and the filtering of illegal book moves.
- Splitting a text into words, reading an evaluation tag, and the reason strings and previews of a failed citation: inputs of `Citations`.
- `ProtectionRegistry`: a table of one bucket and one breaker per backend.
- The atomic replacement of a file, SQLite and its backup facility: assumed to be atomic.
- `EnginePool.shutdown`: it clears slots without their locks, so it is outside the exclusion model. Lock queues are not first-come-first-served in the model, which allows more interleavings than the code.
- An engine's start-up has no timeout of its own; the model only says that a coroutine waiting for it keeps its slot.
- Floating-point rounding, logging, and the user interface.
