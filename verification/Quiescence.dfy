/**
  The static evaluation behind the sacrifice mark: material count, quiescence search
  with a fail-hard alpha-beta window, and the best quiescence value over all moves.

  The search works on 32-bit integers (`i32`), so the verifier also checks that none of
  its negations and additions overflows, although the root window is the widest there is.
  What it computes is stated over the integers.
 */
module Quiescence {
  import opened Prelude
  import Sorting

  newtype i32 = x: int | -0x8000_0000 <= x < 0x8000_0000
  const I32_MIN: i32 := -0x8000_0000
  const I32_MAX: i32 := 0x7fff_ffff

  datatype Role = Pawn | Knight | Bishop | Rook | Queen | King

  function PieceValue(role: Role): i32 {
    match role
    case Pawn => 90
    case Knight => 300
    case Bishop => 300
    case Rook => 500
    case Queen => 1000
    case King => 0
  }

  // How many pieces of each kind a side has; kings are not counted.
  datatype Material = Material(pawn: nat, knight: nat, bishop: nat, rook: nat, queen: nat) {
    function Count(): nat {
      pawn + knight + bishop + rook + queen
    }

    function Worth(): int {
      90 * pawn + 300 * knight + 300 * bishop + 500 * rook + 1000 * queen
    }
  }

  datatype Move<P> = Move(after: P, capture: Option<Role>)

  /** The chess library, seen from the evaluation. */
  datatype Chess<!P> = Chess(
    white: P -> Material,
    black: P -> Material,
    pieces: P -> nat,
    whiteToMove: P -> bool,
    isCheckmate: P -> bool,
    isGameOver: P -> bool,
    legalMoves: P -> seq<Move<P>>)

  /** The facts about chess the evaluation rests on: a board has 64 squares, a capture
      removes a piece, and a game without legal moves is over. */
  ghost predicate Lawful<P(!new)>(c: Chess<P>) {
    && (forall p :: c.white(p).Count() + c.black(p).Count() <= c.pieces(p) <= 64)
    && (forall p, m :: m in c.legalMoves(p) && m.capture.Some? ==> c.pieces(m.after) < c.pieces(p))
    && (forall p :: c.legalMoves(p) == [] ==> c.isGameOver(p))
  }

  const MATERIAL_BOUND: int := 64000

  // ---------- material ----------

  // The material balance for the side to move; being checkmated has a price of its own.
  function StandPat<P>(c: Chess<P>, p: P): int {
    if c.isCheckmate(p) then -10000
    else if c.whiteToMove(p) then c.white(p).Worth() - c.black(p).Worth()
    else c.black(p).Worth() - c.white(p).Worth()
  }

  lemma StandPatBounded<P(!new)>(c: Chess<P>, p: P)
    requires Lawful(c)
    ensures -MATERIAL_BOUND <= StandPat(c, p) <= MATERIAL_BOUND
  {
    assert c.white(p).Count() + c.black(p).Count() <= 64;
  }

  // Material with one more piece.
  function WithPiece(m: Material, role: Role): Material {
    match role
    case Pawn => m.(pawn := m.pawn + 1)
    case Knight => m.(knight := m.knight + 1)
    case Bishop => m.(bishop := m.bishop + 1)
    case Rook => m.(rook := m.rook + 1)
    case Queen => m.(queen := m.queen + 1)
    case King => m
  }

  lemma WorthOfPiece(m: Material, role: Role)
    ensures WithPiece(m, role).Worth() == m.Worth() + PieceValue(role) as int
  {}

  // A list of pieces, counted by kind and added up by value.
  function Tally(roles: seq<Role>): Material {
    if roles == [] then Material(0, 0, 0, 0, 0)
    else WithPiece(Tally(roles[..|roles| - 1]), roles[|roles| - 1])
  }

  function ValueOf(roles: seq<Role>): int {
    if roles == [] then 0 else ValueOf(roles[..|roles| - 1]) + PieceValue(roles[|roles| - 1]) as int
  }

  lemma {:induction false} WorthIsValue(roles: seq<Role>)
    ensures Tally(roles).Worth() == ValueOf(roles)
  {
    if roles == [] {
    } else {
      WorthIsValue(roles[..|roles| - 1]);
      WorthOfPiece(Tally(roles[..|roles| - 1]), roles[|roles| - 1]);
    }
  }

  /** Short of checkmate, the balance is the value of the mover's pieces less that of the
      other side's. */
  lemma BalanceIsOfPieces<P>(c: Chess<P>, p: P, white: seq<Role>, black: seq<Role>)
    requires !c.isCheckmate(p) && c.white(p) == Tally(white) && c.black(p) == Tally(black)
    ensures c.whiteToMove(p) ==> StandPat(c, p) == ValueOf(white) - ValueOf(black)
    ensures !c.whiteToMove(p) ==> StandPat(c, p) == ValueOf(black) - ValueOf(white)
  {
    WorthIsValue(white);
    WorthIsValue(black);
  }

  predicate AtLeast(a: Material, b: Material) {
    a.pawn >= b.pawn && a.knight >= b.knight && a.bishop >= b.bishop && a.rook >= b.rook && a.queen >= b.queen
  }

  /** A mover with at least as many of every kind is not behind, one with more of some kind
      is ahead, and being checkmated costs 10000. */
  lemma MoreIsBetter<P>(c: Chess<P>, p: P)
    ensures var own, other := if c.whiteToMove(p) then c.white(p) else c.black(p),
                              if c.whiteToMove(p) then c.black(p) else c.white(p);
            && (!c.isCheckmate(p) && AtLeast(own, other) ==> StandPat(c, p) >= 0)
            && (!c.isCheckmate(p) && AtLeast(own, other) && own != other ==> StandPat(c, p) > 0)
    ensures c.isCheckmate(p) ==> StandPat(c, p) == -10000
  {}

  /** Each further own piece raises the balance by its value, each further piece of the other
      side lowers it. */
  lemma OneMorePiece<P>(c: Chess<P>, p: P, q: P, own: seq<Role>, other: seq<Role>, role: Role)
    requires !c.isCheckmate(p) && !c.isCheckmate(q) && c.whiteToMove(p) == c.whiteToMove(q)
    requires c.whiteToMove(p) ==> c.white(p) == Tally(own) && c.black(p) == Tally(other)
    requires !c.whiteToMove(p) ==> c.black(p) == Tally(own) && c.white(p) == Tally(other)
    ensures c.whiteToMove(p) && c.white(q) == Tally(own + [role]) && c.black(q) == Tally(other) ==>
              StandPat(c, q) == StandPat(c, p) + PieceValue(role) as int
    ensures !c.whiteToMove(p) && c.black(q) == Tally(own + [role]) && c.white(q) == Tally(other) ==>
              StandPat(c, q) == StandPat(c, p) + PieceValue(role) as int
    ensures c.whiteToMove(p) && c.white(q) == Tally(own) && c.black(q) == Tally(other + [role]) ==>
              StandPat(c, q) == StandPat(c, p) - PieceValue(role) as int
    ensures !c.whiteToMove(p) && c.black(q) == Tally(own) && c.white(q) == Tally(other + [role]) ==>
              StandPat(c, q) == StandPat(c, p) - PieceValue(role) as int
  {
    OneMoreOf(own, role);
    OneMoreOf(other, role);
  }

  lemma OneMoreOf(roles: seq<Role>, role: Role)
    ensures Tally(roles + [role]).Worth() == Tally(roles).Worth() + PieceValue(role) as int
  {
    assert (roles + [role])[..|roles|] == roles;
    WorthOfPiece(Tally(roles), role);
  }

  // The prices themselves.
  lemma Prices()
    ensures [PieceValue(Pawn), PieceValue(Knight), PieceValue(Bishop), PieceValue(Rook), PieceValue(Queen), PieceValue(King)]
         == [90, 300, 300, 500, 1000, 0]
  {}

  method SideWorth(m: Material) returns (worth: i32)
    requires m.Count() <= 64
    ensures worth as int == m.Worth()
  {
    var pawns, knights, bishops, rooks, queens :=
      m.pawn as i32 * 90, m.knight as i32 * 300, m.bishop as i32 * 300, m.rook as i32 * 500, m.queen as i32 * 1000;
    Prices();
    worth := pawns + knights + bishops + rooks + queens;
  }

  method CountMaterial<P(!new)>(c: Chess<P>, p: P) returns (balance: i32)
    requires Lawful(c)
    ensures balance as int == StandPat(c, p)
    ensures -MATERIAL_BOUND <= balance as int <= MATERIAL_BOUND
  {
    StandPatBounded(c, p);
    if c.isCheckmate(p) {
      return -10000;
    }
    assert c.white(p).Count() + c.black(p).Count() <= 64;
    var white := SideWorth(c.white(p));
    var black := SideWorth(c.black(p));
    balance := if c.whiteToMove(p) then white - black else black - white;
  }

  // ---------- the order captures are tried in ----------

  function Captures<P(!new)>(moves: seq<Move<P>>): (cs: seq<Move<P>>)
    ensures |cs| <= |moves|
    ensures forall m :: m in cs <==> m in moves && m.capture.Some?
  {
    if moves == [] then []
    else if moves[0].capture.Some? then [moves[0]] + Captures(moves[1..])
    else Captures(moves[1..])
  }

  function VictimValue<P>(m: Move<P>): int {
    if m.capture.Some? then PieceValue(m.capture.value) as int else 0
  }

  predicate AtLeastAsValuable<P>(a: Move<P>, b: Move<P>) {
    VictimValue(a) >= VictimValue(b)
  }

  ghost predicate MostValuableFirst<P>(ms: seq<Move<P>>) {
    forall i, j :: 0 <= i < j < |ms| ==> AtLeastAsValuable(ms[i], ms[j])
  }

  // A stable sort, most valuable victim first.
  function SortByVictim<P(!new)>(ms: seq<Move<P>>): (r: seq<Move<P>>)
    ensures forall x :: x in r <==> x in ms
  {
    SameMoves(ms);
    Sorting.Sorted(ms, AtLeastAsValuable)
  }

  lemma SameMoves<P(!new)>(ms: seq<Move<P>>)
    ensures forall m :: m in Sorting.Sorted(ms, AtLeastAsValuable) <==> m in ms
  {
    var sorted := Sorting.Sorted(ms, AtLeastAsValuable);
    Sorting.SortedPermutes(ms, AtLeastAsValuable);
    forall m ensures m in sorted <==> m in ms {
      assert m in sorted <==> m in multiset(sorted);
      assert m in ms <==> m in multiset(ms);
    }
  }

  lemma SortByVictimSorts<P(!new)>(ms: seq<Move<P>>)
    ensures MostValuableFirst(SortByVictim(ms)) && multiset(SortByVictim(ms)) == multiset(ms)
  {
    Sorting.SortedSorts(ms, AtLeastAsValuable);
    Sorting.SortedPermutes(ms, AtLeastAsValuable);
  }

  // ---------- the quiescence value ----------

  /** The value of a position when only captures are played: the side to move may stand
      on its material, or capture and leave the opponent the negated value. */
  ghost function QValue<P(!new)>(c: Chess<P>, p: P): int
    requires Lawful(c)
    decreases c.pieces(p), |c.legalMoves(p)| + 1
  {
    BestOver(c, p, StandPat(c, p), Captures(c.legalMoves(p)))
  }

  // The best of a floor and the negated values after the given captures.
  ghost function BestOver<P(!new)>(c: Chess<P>, p: P, floor: int, moves: seq<Move<P>>): int
    requires Lawful(c) && forall m :: m in moves ==> c.pieces(m.after) < c.pieces(p)
    decreases c.pieces(p), |moves|
  {
    if moves == [] then floor
    else Max(BestOver(c, p, floor, moves[..|moves| - 1]), -QValue(c, moves[|moves| - 1].after))
  }

  lemma {:induction false} BestOverIsMaximum<P(!new)>(c: Chess<P>, p: P, floor: int, moves: seq<Move<P>>)
    requires Lawful(c) && forall m :: m in moves ==> c.pieces(m.after) < c.pieces(p)
    ensures var best := BestOver(c, p, floor, moves);
            && floor <= best && (forall m :: m in moves ==> -QValue(c, m.after) <= best)
            && (best == floor || exists m :: m in moves && best == -QValue(c, m.after))
  {
    if moves != [] {
      var before, last := moves[..|moves| - 1], moves[|moves| - 1];
      BestOverIsMaximum(c, p, floor, before);
      assert moves == before + [last];
      assert last in moves;
    }
  }

  /** The quiescence value is the minimax value of the capture tree. */
  lemma QValueIsMinimax<P(!new)>(c: Chess<P>, p: P)
    requires Lawful(c)
    ensures StandPat(c, p) <= QValue(c, p)
    ensures forall m :: m in c.legalMoves(p) && m.capture.Some? ==> -QValue(c, m.after) <= QValue(c, p)
    ensures QValue(c, p) == StandPat(c, p)
            || exists m :: m in c.legalMoves(p) && m.capture.Some? && QValue(c, p) == -QValue(c, m.after)
  {
    BestOverIsMaximum(c, p, StandPat(c, p), Captures(c.legalMoves(p)));
  }

  lemma {:induction false} QValueBounded<P(!new)>(c: Chess<P>, p: P)
    requires Lawful(c)
    ensures -MATERIAL_BOUND <= QValue(c, p) <= MATERIAL_BOUND
    decreases c.pieces(p)
  {
    StandPatBounded(c, p);
    QValueIsMinimax(c, p);
    forall m | m in c.legalMoves(p) && m.capture.Some? ensures -MATERIAL_BOUND <= QValue(c, m.after) {
      QValueBounded(c, m.after);
    }
  }

  // ---------- the search ----------

  function Clamp(v: int, low: int, high: int): int
    requires low < high
  {
    if v < low then low else if v > high then high else v
  }

  lemma NegatedClamp(v: int, low: int, high: int)
    requires low < high
    ensures -Clamp(v, -high, -low) == Clamp(-v, low, high)
  {}

  /** Fail-hard alpha-beta is exact: the result is the quiescence value clamped to the
      window. No negation overflows, even with `alpha0 == I32_MIN` and `beta == I32_MAX`,
      because alpha is raised to the material count before it is negated. */
  method QSearch<P(!new)>(c: Chess<P>, p: P, alpha0: i32, beta: i32) returns (score: i32)
    requires Lawful(c) && alpha0 < beta
    ensures score as int == Clamp(QValue(c, p), alpha0 as int, beta as int)
    decreases c.pieces(p), 2
  {
    QValueIsMinimax(c, p);
    var alpha := alpha0;
    var standPat := CountMaterial(c, p);
    if standPat >= beta {
      return beta;
    }
    if alpha < standPat {
      alpha := standPat;
    }
    score := TryCaptures(c, p, SortByVictim(Captures(c.legalMoves(p))), alpha, beta);
  }

  // The greatest of a bound above the material count and the values after all captures.
  lemma AllTried<P(!new)>(c: Chess<P>, p: P, captures: seq<Move<P>>, raised: int, best: int)
    requires Lawful(c) && StandPat(c, p) <= raised <= best
    requires forall m :: m in captures <==> m in c.legalMoves(p) && m.capture.Some?
    requires forall j :: 0 <= j < |captures| ==> -QValue(c, captures[j].after) <= best
    requires best == raised || exists j :: 0 <= j < |captures| && best == -QValue(c, captures[j].after)
    ensures best == Max(raised, QValue(c, p))
  {
    QValueIsMinimax(c, p);
    if best != raised {
      var j :| 0 <= j < |captures| && best == -QValue(c, captures[j].after);
      assert captures[j] in captures;
    }
    forall m | m in captures ensures -QValue(c, m.after) <= best {}
  }

  // The loop of the search over the captures; any order gives the same result.
  method TryCaptures<P(!new)>(c: Chess<P>, p: P, captures: seq<Move<P>>, raised: i32, beta: i32) returns (score: i32)
    requires Lawful(c) && I32_MIN < raised < beta && StandPat(c, p) <= raised as int
    requires forall m :: m in captures <==> m in c.legalMoves(p) && m.capture.Some?
    ensures score as int == Min(Max(raised as int, QValue(c, p)), beta as int)
    decreases c.pieces(p), 1
  {
    var alpha := raised;
    for i := 0 to |captures|
      invariant raised <= alpha < beta
      invariant forall j :: 0 <= j < i ==> -QValue(c, captures[j].after) <= alpha as int
      invariant alpha == raised || exists j :: 0 <= j < i && alpha as int == -QValue(c, captures[j].after)
    {
      assert captures[i] in captures;
      score := TryCapture(c, p, captures[i], alpha, beta);
      if score >= beta {
        QValueIsMinimax(c, p);
        return beta;
      }
      if score > alpha {
        alpha := score;
      }
    }
    AllTried(c, p, captures, raised as int, alpha as int);
    return alpha;
  }

  // One capture, seen from the side that makes it.
  method TryCapture<P(!new)>(c: Chess<P>, p: P, capture: Move<P>, alpha: i32, beta: i32) returns (score: i32)
    requires Lawful(c) && I32_MIN < alpha < beta
    requires capture in c.legalMoves(p) && capture.capture.Some?
    ensures alpha <= score <= beta
    ensures score < beta ==> -QValue(c, capture.after) <= score as int
    ensures alpha < score ==> score as int <= -QValue(c, capture.after)
    decreases c.pieces(p), 0
  {
    NegatedClamp(QValue(c, capture.after), alpha as int, beta as int);
    var reply := QSearch(c, capture.after, -beta, -alpha);
    score := -reply;
  }

  // The greatest of some values, or the least integer when there is none.
  predicate IsGreatest(values: seq<int>, v: int) {
    if values == [] then v == I32_MIN as int
    else
      && (forall i :: 0 <= i < |values| ==> values[i] <= v)
      && (exists i :: 0 <= i < |values| && values[i] == v)
  }

  ghost function MoveValues<P(!new)>(c: Chess<P>, moves: seq<Move<P>>): (values: seq<int>)
    requires Lawful(c)
    ensures |values| == |moves|
  {
    if moves == [] then [] else MoveValues(c, moves[..|moves| - 1]) + [-QValue(c, moves[|moves| - 1].after)]
  }

  // The value of a position one move ahead: that of its best move by quiescence value.
  ghost predicate IsNaiveValue<P(!new)>(c: Chess<P>, p: P, v: int)
    requires Lawful(c)
  {
    IsGreatest(MoveValues(c, c.legalMoves(p)), v)
  }

  lemma {:induction false} MoveValueAt<P(!new)>(c: Chess<P>, moves: seq<Move<P>>, i: nat)
    requires Lawful(c) && i < |moves|
    ensures MoveValues(c, moves)[i] == -QValue(c, moves[i].after)
  {
    if i < |moves| - 1 {
      MoveValueAt(c, moves[..|moves| - 1], i);
    }
  }

  lemma GreatestSoFar(values: seq<int>, v: int, next: int)
    requires IsGreatest(values, v)
    ensures IsGreatest(values + [next], if values == [] || next > v then next else v)
  {
    var more := values + [next];
    assert more[|values|] == next;
    if values != [] {
      var i :| 0 <= i < |values| && values[i] == v;
      assert more[i] == v;
    }
  }

  method NaiveEval<P(!new)>(c: Chess<P>, p: P) returns (v: i32)
    requires Lawful(c)
    ensures IsNaiveValue(c, p, v as int)
  {
    v := I32_MIN;
    var moves := c.legalMoves(p);
    for i := 0 to |moves|
      invariant IsGreatest(MoveValues(c, moves[..i]), v as int)
    {
      assert moves[..i + 1] == moves[..i] + [moves[i]];
      v := BetterOf(c, moves[..i], v, moves[i]);
    }
    assert moves[..|moves|] == moves;
  }

  // One turn of the maximum.
  method BetterOf<P(!new)>(c: Chess<P>, ghost before: seq<Move<P>>, v: i32, m: Move<P>) returns (best: i32)
    requires Lawful(c) && IsGreatest(MoveValues(c, before), v as int)
    ensures IsGreatest(MoveValues(c, before + [m]), best as int)
  {
    var value := ValueOfMove(c, m);
    GreatestSoFar(MoveValues(c, before), v as int, value as int);
    assert (before + [m])[..|before|] == before;
    best := if value > v then value else v;
  }

  // Searched with the widest window there is, whose lower end has no negation.
  method ValueOfMove<P(!new)>(c: Chess<P>, m: Move<P>) returns (value: i32)
    requires Lawful(c)
    ensures value as int == -QValue(c, m.after) && value > I32_MIN
  {
    QValueBounded(c, m.after);
    var q := QSearch(c, m.after, I32_MIN, I32_MAX);
    value := -q;
  }

  /** Negating the value overflows exactly on a position without moves. */
  lemma NegationFitsExactly<P(!new)>(c: Chess<P>, p: P, v: int)
    requires Lawful(c) && IsNaiveValue(c, p, v)
    ensures I32_MIN as int <= -v <= I32_MAX as int <==> c.legalMoves(p) != []
    ensures c.legalMoves(p) != [] ==> -MATERIAL_BOUND <= v <= MATERIAL_BOUND
  {
    if c.legalMoves(p) != [] {
      var i :| 0 <= i < |c.legalMoves(p)| && MoveValues(c, c.legalMoves(p))[i] == v;
      MoveValueAt(c, c.legalMoves(p), i);
      QValueBounded(c, c.legalMoves(p)[i].after);
    }
  }

  /** The sacrifice mark of the move from `previous` to `current`: None when the game is
      over, where the move gets no mark; otherwise whether the mover could have kept more
      than 100 points over what it has left. The comparison does not overflow. */
  method SacrificeMark<P(!new)>(c: Chess<P>, previous: P, current: P) returns (mark: Option<bool>)
    requires Lawful(c) && exists m :: m in c.legalMoves(previous) && m.after == current
    ensures mark.None? <==> c.isGameOver(current)
    ensures mark.Some? ==> forall best, reply ::
              IsNaiveValue(c, previous, best) && IsNaiveValue(c, current, reply) ==>
                (mark.value <==> best + reply > 100)
  {
    if c.isGameOver(current) {
      return None;
    }
    var prevEval := NaiveEval(c, previous);
    var eval := NaiveEval(c, current);
    NegationFitsExactly(c, previous, prevEval as int);
    NegationFitsExactly(c, current, eval as int);
    var curEval := -eval;
    return Some(prevEval > curEval + 100);
  }
}
