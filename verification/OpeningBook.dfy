/**
  Choosing an opening at random: one game of a PGN book, picked while the book is read
  once, and one book move, picked by weight.

  Random draws are inputs. That a choice is fair is a statement about all draws: it
  counts how many of the equally likely ones lead to each outcome.
 */
module OpeningBook {
  import opened Prelude

  // ---------- one pass over a PGN book ----------

  /** One game of the book as the reader sees it: its FEN headers, each with the position
      it denotes if it denotes one, and its moves, each None when illegal. */
  datatype PgnGame = PgnGame(fens: seq<Option<string>>, sans: seq<Option<string>>)

  datatype Selection = Selection(initialFen: string, initialMoves: seq<string>)

  const STANDARD_FEN := "rnbqkbnr/pppppppp/8/8/8/8/PPPPPPPP/RNBQKBNR w KQkq - 0 1"

  // A game is usable when nothing in it is malformed and it has a move.
  predicate Usable(g: PgnGame) {
    && (forall i :: 0 <= i < |g.fens| ==> g.fens[i].Some?)
    && (forall i :: 0 <= i < |g.sans| ==> g.sans[i].Some?)
    && g.sans != []
  }

  lemma UsableExactly(g: PgnGame)
    ensures Usable(g) <==> g.sans != [] && None !in g.fens && None !in g.sans
  {
    if Usable(g) {
      assert forall i :: 0 <= i < |g.fens| ==> g.fens[i] != None;
    }
    forall i | 0 <= i < |g.fens| && g.fens[i] == None ensures None in g.fens {}
    forall i | 0 <= i < |g.sans| && g.sans[i] == None ensures None in g.sans {}
  }

  function Candidate(g: PgnGame): Selection
    requires Usable(g)
  {
    Selection(if g.fens == [] then STANDARD_FEN else g.fens[|g.fens| - 1].value,
              seq(|g.sans|, i requires 0 <= i < |g.sans| => g.sans[i].value))
  }

  /** What is selected of a game: the last position its headers give, or the usual one, and all
      its moves. */
  lemma CandidateExactly(g: PgnGame)
    requires Usable(g)
    ensures g.fens == [] ==> Candidate(g).initialFen == "rnbqkbnr/pppppppp/8/8/8/8/PPPPPPPP/RNBQKBNR w KQkq - 0 1"
    ensures g.fens != [] ==> Some(Candidate(g).initialFen) == g.fens[|g.fens| - 1]
    ensures |Candidate(g).initialMoves| == |g.sans|
    ensures forall i :: 0 <= i < |g.sans| ==> Some(Candidate(g).initialMoves[i]) == g.sans[i]
  {}

  // The usable games of a book, in order.
  function Candidates(games: seq<PgnGame>): seq<Selection> {
    if games == [] then []
    else
      var before, g := Candidates(games[..|games| - 1]), games[|games| - 1];
      if Usable(g) then before + [Candidate(g)] else before
  }

  /** Which candidate is left selected after `draws`: the last one that drew zero. */
  function Selected(draws: seq<nat>): (k: Option<nat>)
    ensures k.Some? ==> k.value < |draws|
    ensures draws != [] && draws[0] == 0 ==> k.Some?
  {
    if draws == [] then None
    else if draws[|draws| - 1] == 0 then Some(|draws| - 1)
    else Selected(draws[..|draws| - 1])
  }

  // What the generator may return: the k-th draw is below k + 1.
  predicate PossibleDraws(n: nat, draws: seq<nat>) {
    |draws| == n && forall k :: 0 <= k < n ==> draws[k] <= k
  }

  class PgnVisitor {
    var selected: Option<Selection>
    var seen: nat
    var initialFen: Option<string>
    var moves: seq<string>
    var skip: bool

    constructor ()
      ensures selected == None && seen == 0
    {
      selected, seen, initialFen, moves, skip := None, 0, None, [], false;
    }

    method BeginGame()
      modifies `initialFen, `moves, `skip
      ensures initialFen == None && moves == [] && !skip
    {
      initialFen, moves, skip := None, [], false;
    }

    method Header(fen: Option<string>)
      modifies `initialFen, `skip
      ensures skip == (old(skip) || fen.None?)
      ensures initialFen == if fen.Some? then fen else old(initialFen)
    {
      match fen
      case Some(_) => initialFen := fen;
      case None => skip := true;
    }

    method San(uci: Option<string>)
      modifies `moves, `skip
      ensures skip == (old(skip) || uci.None?)
      ensures moves == if old(skip) || uci.None? then old(moves) else old(moves) + [uci.value]
    {
      if skip {
        return;
      }
      match uci
      case None => skip := true;
      case Some(u) => moves := moves + [u];
    }

    /** `draw` is the number the generator returns if it is asked; it lies in [0, seen). */
    method EndGame(draw: nat)
      requires draw <= seen
      modifies `seen, `selected
      ensures seen == if skip || moves == [] then old(seen) else old(seen) + 1
      ensures selected ==
              if skip || moves == [] || draw != 0 then old(selected)
              else Some(Selection(if initialFen.Some? then initialFen.value else STANDARD_FEN, moves))
    {
      if skip || moves == [] {
        return;
      }
      var candidate := Selection(if initialFen.Some? then initialFen.value else STANDARD_FEN, moves);
      seen := seen + 1;
      if draw == 0 {
        selected := Some(candidate);
      }
    }

    /** Reads one game, leaving out its moves when a header was malformed. */
    method ReadGame(g: PgnGame, draw: nat)
      requires draw <= seen
      modifies this
      ensures seen == old(seen) + if Usable(g) then 1 else 0
      ensures selected == if Usable(g) && draw == 0 then Some(Candidate(g)) else old(selected)
    {
      BeginGame();
      ReadHeaders(g);
      if !skip {
        ReadMoves(g);
      }
      EndGame(draw);
      if Usable(g) {
        assert moves == Candidate(g).initialMoves;
      }
    }

    method ReadHeaders(g: PgnGame)
      requires !skip && initialFen == None
      modifies `initialFen, `skip
      ensures skip <==> exists j :: 0 <= j < |g.fens| && g.fens[j].None?
      ensures !skip ==> initialFen == if g.fens == [] then None else g.fens[|g.fens| - 1]
    {
      for i := 0 to |g.fens|
        invariant skip <==> exists j :: 0 <= j < i && g.fens[j].None?
        invariant !skip ==> initialFen == if i == 0 then None else g.fens[i - 1]
      {
        Header(g.fens[i]);
      }
    }

    method ReadMoves(g: PgnGame)
      requires !skip && moves == []
      modifies `moves, `skip
      ensures skip <==> exists j :: 0 <= j < |g.sans| && g.sans[j].None?
      ensures !skip ==> |moves| == |g.sans| && forall j :: 0 <= j < |g.sans| ==> g.sans[j] == Some(moves[j])
    {
      for i := 0 to |g.sans|
        invariant skip <==> exists j :: 0 <= j < i && g.sans[j].None?
        invariant !skip ==> |moves| == i
        invariant !skip ==> forall j :: 0 <= j < i ==> g.sans[j] == Some(moves[j])
      {
        San(g.sans[i]);
      }
    }
  }

  /** Reads a whole book. `draws[k]` is what the generator returns for the k-th usable
      game. The selection is the candidate that `Selected` names; a book without usable
      games is an error. */
  method SelectRandomPgnEntry(games: seq<PgnGame>, draws: seq<nat>) returns (res: Option<Selection>)
    requires PossibleDraws(|Candidates(games)|, draws)
    ensures res == if Candidates(games) == [] then None else Some(Candidates(games)[Selected(draws).value])
  {
    var visitor := new PgnVisitor();
    for n := 0 to |games|
      invariant fresh(visitor)
      invariant visitor.seen == |Candidates(games[..n])| <= |draws|
      invariant visitor.selected == SelectionSoFar(games[..n], draws[..visitor.seen])
    {
      var draw := if visitor.seen < |draws| then draws[visitor.seen] else 0;
      OneMoreGame(games, draws, n, draw);
      visitor.ReadGame(games[n], draw);
    }
    assert games[..|games|] == games && draws[..|draws|] == draws;
    return visitor.selected;
  }

  // What one more game of the book changes.
  lemma OneMoreGame(games: seq<PgnGame>, draws: seq<nat>, n: nat, draw: nat)
    requires n < |games| && |draws| == |Candidates(games)|
    requires |Candidates(games[..n])| <= |draws|
    requires |Candidates(games[..n])| < |draws| ==> draw == draws[|Candidates(games[..n])|]
    ensures var seen, more := |Candidates(games[..n])|, |Candidates(games[..n + 1])|;
            && more == seen + (if Usable(games[n]) then 1 else 0) && more <= |draws|
            && SelectionSoFar(games[..n + 1], draws[..more])
               == if Usable(games[n]) && draw == 0 then Some(Candidate(games[n])) else SelectionSoFar(games[..n], draws[..seen])
  {
    var seen := |Candidates(games[..n])|;
    CandidatesMonotone(games, n + 1);
    SelectionSnoc(games[..n], games[n], draws[..seen], draw);
    assert games[..n] + [games[n]] == games[..n + 1];
    assert seen < |draws| ==> draws[..seen] + [draw] == draws[..seen + 1];
  }

  function SelectionSoFar(games: seq<PgnGame>, draws: seq<nat>): Option<Selection>
    requires |draws| == |Candidates(games)|
  {
    match Selected(draws)
    case None => None
    case Some(k) => Some(Candidates(games)[k])
  }

  lemma SelectionSnoc(games: seq<PgnGame>, g: PgnGame, draws: seq<nat>, draw: nat)
    requires |draws| == |Candidates(games)|
    ensures Candidates(games + [g]) == Candidates(games) + if Usable(g) then [Candidate(g)] else []
    ensures Usable(g) ==>
              SelectionSoFar(games + [g], draws + [draw])
              == if draw == 0 then Some(Candidate(g)) else SelectionSoFar(games, draws)
    ensures !Usable(g) ==> SelectionSoFar(games + [g], draws) == SelectionSoFar(games, draws)
  {
    assert (games + [g])[..|games|] == games;
    assert (draws + [draw])[..|draws|] == draws;
  }

  lemma {:induction false} CandidatesMonotone(games: seq<PgnGame>, n: nat)
    requires n <= |games|
    ensures Candidates(games[..n]) <= Candidates(games)
    decreases |games|
  {
    if n == |games| {
      assert games[..n] == games;
    } else {
      var shorter := games[..|games| - 1];
      CandidatesMonotone(shorter, n);
      assert shorter[..n] == games[..n];
    }
  }

  // ---------- the pick is fair ----------

  function Extended(ds: set<seq<nat>>, x: nat): set<seq<nat>> {
    set d | d in ds :: d + [x]
  }

  // All d + [x] with d from ds and x < m.
  function ExtendedBelow(ds: set<seq<nat>>, m: nat): set<seq<nat>> {
    if m == 0 then {} else ExtendedBelow(ds, m - 1) + Extended(ds, m - 1)
  }

  /** The equally likely sequences of draws for n candidates: the k-th draw is below k+1. */
  function Draws(n: nat): set<seq<nat>> {
    if n == 0 then {[]} else ExtendedBelow(Draws(n - 1), n)
  }

  function Factorial(n: nat): nat {
    if n == 0 then 1 else n * Factorial(n - 1)
  }

  lemma InExtended(ds: set<seq<nat>>, x: nat, e: seq<nat>)
    ensures e in Extended(ds, x) <==> e != [] && e[|e| - 1] == x && e[..|e| - 1] in ds
  {
    if e != [] && e[|e| - 1] == x {
      assert e == e[..|e| - 1] + [x];
    }
  }

  lemma {:induction false} InExtendedBelow(ds: set<seq<nat>>, m: nat, e: seq<nat>)
    ensures e in ExtendedBelow(ds, m) <==> e != [] && e[|e| - 1] < m && e[..|e| - 1] in ds
  {
    if m > 0 {
      InExtendedBelow(ds, m - 1, e);
      InExtended(ds, m - 1, e);
    }
  }

  // `Draws` holds all possible sequences of draws and no others.
  lemma {:induction false} DrawsArePossible(n: nat, d: seq<nat>)
    ensures d in Draws(n) <==> PossibleDraws(n, d)
  {
    if n > 0 {
      InExtendedBelow(Draws(n - 1), n, d);
      if d != [] {
        DrawsArePossible(n - 1, d[..|d| - 1]);
      }
      if |d| == n {
        assert PossibleDraws(n, d) <==> PossibleDraws(n - 1, d[..n - 1]) && d[n - 1] < n;
      }
    }
  }

  lemma {:induction false} ExtendedSize(ds: set<seq<nat>>, x: nat)
    ensures |Extended(ds, x)| == |ds|
  {
    if d :| d in ds {
      ExtendedSize(ds - {d}, x);
      assert Extended(ds, x) == Extended(ds - {d}, x) + {d + [x]};
      InExtended(ds - {d}, x, d + [x]);
    } else {
      assert Extended(ds, x) == {};
    }
  }

  lemma DisjointSizes<T>(a: set<T>, b: set<T>)
    requires forall e :: !(e in a && e in b)
    ensures |a + b| == |a| + |b|
  {
    assert a !! b;
  }

  // The m-fold of a number, by addition.
  function Fold(m: nat, size: nat): nat {
    if m == 0 then 0 else Fold(m - 1, size) + size
  }

  lemma {:induction false} FoldIsProduct(m: nat, size: nat)
    ensures Fold(m, size) == m * size
  {
    if m == 0 {
    } else {
      FoldIsProduct(m - 1, size);
      OneMore(m - 1, size);
    }
  }

  lemma OneMore(m: nat, size: nat)
    ensures m * size + size == (m + 1) * size
  {}

  lemma {:induction false} ExtendedBelowSize(ds: set<seq<nat>>, m: nat, size: nat)
    requires |ds| == size
    ensures |ExtendedBelow(ds, m)| == Fold(m, size)
  {
    if m == 0 {
    } else {
      ExtendedBelowSize(ds, m - 1, size);
      OneMoreDraw(ds, m - 1);
    }
  }

  // Each further value of the last draw adds as many sequences.
  lemma OneMoreDraw(ds: set<seq<nat>>, x: nat)
    ensures |ExtendedBelow(ds, x + 1)| == |ExtendedBelow(ds, x)| + |ds|
  {
    ExtendedSize(ds, x);
    var earlier, latest := ExtendedBelow(ds, x), Extended(ds, x);
    forall e ensures !(e in earlier && e in latest) {
      InExtendedBelow(ds, x, e);
      InExtended(ds, x, e);
    }
    DisjointSizes(earlier, latest);
  }

  lemma {:induction false} DrawsSize(n: nat)
    ensures |Draws(n)| == Factorial(n)
  {
    if n > 0 {
      DrawsSize(n - 1);
      ExtendedBelowSize(Draws(n - 1), n, Factorial(n - 1));
      FoldIsProduct(n, Factorial(n - 1));
    }
  }

  // The sequences of draws that leave candidate i selected.
  function Selecting(n: nat, i: nat): set<seq<nat>> {
    set d | d in Draws(n) && Selected(d) == Some(i)
  }

  /** The pick is exactly uniform: of the n! equally likely sequences of draws, each of
      the n candidates is selected by (n-1)!. */
  lemma SelectionIsUniform(n: nat, i: nat)
    requires i < n
    ensures |Draws(n)| == Factorial(n)
    ensures |Selecting(n, i)| == Factorial(n - 1)
  {
    DrawsSize(n);
    SelectingSize(n, i);
  }

  lemma {:induction false} SelectingSize(n: nat, i: nat)
    requires i < n
    ensures |Selecting(n, i)| == Factorial(n - 1)
  {
    if i == n - 1 {
      LatestSize(n);
    } else {
      SelectingSize(n - 1, i);
      EarlierSize(n, i, Factorial(n - 2));
      FactorialStep(n - 1);
    }
  }

  lemma LatestSize(n: nat)
    requires n > 0
    ensures |Selecting(n, n - 1)| == Factorial(n - 1)
  {
    SelectedLast(n);
    DrawsSize(n - 1);
    ExtendedSize(Draws(n - 1), 0);
  }

  lemma FactorialStep(n: nat)
    requires n > 0
    ensures Factorial(n) == n * Factorial(n - 1)
  {}

  lemma EarlierSize(n: nat, i: nat, size: nat)
    requires i < n - 1 && |Selecting(n - 1, i)| == size
    ensures |Selecting(n, i)| == (n - 1) * size
  {
    SelectedEarlier(n, i);
    ExtendedNonzeroSize(Selecting(n - 1, i), n, size);
  }

  // The last candidate is selected exactly when it draws zero.
  lemma SelectedLast(n: nat)
    requires n > 0
    ensures Selecting(n, n - 1) == Extended(Draws(n - 1), 0)
  {
    var last, extended := Selecting(n, n - 1), Extended(Draws(n - 1), 0);
    forall d ensures d in last <==> d in extended {
      InExtendedBelow(Draws(n - 1), n, d);
      InExtended(Draws(n - 1), 0, d);
      DrawsArePossible(n, d);
    }
  }

  // An earlier candidate stays selected exactly when the last one does not draw zero.
  lemma SelectedEarlier(n: nat, i: nat)
    requires i < n - 1
    ensures Selecting(n, i) == ExtendedNonzero(Selecting(n - 1, i), n)
  {
    var earlier := Selecting(n - 1, i);
    forall d ensures d in Selecting(n, i) <==> d in ExtendedNonzero(earlier, n) {
      InExtendedBelow(Draws(n - 1), n, d);
      InExtendedBelow(earlier, n, d);
      InExtended(earlier, 0, d);
      DrawsArePossible(n, d);
    }
  }

  // All d + [x] with d from ds and 0 < x < m.
  function ExtendedNonzero(ds: set<seq<nat>>, m: nat): set<seq<nat>> {
    ExtendedBelow(ds, m) - Extended(ds, 0)
  }

  lemma ExtendedNonzeroSize(ds: set<seq<nat>>, m: nat, size: nat)
    requires m > 0 && |ds| == size
    ensures |ExtendedNonzero(ds, m)| == (m - 1) * size
  {
    ExtendedBelowSize(ds, m, size);
    ExtendedSize(ds, 0);
    var all, zero := ExtendedBelow(ds, m), Extended(ds, 0);
    forall e ensures e in zero ==> e in all {
      InExtendedBelow(ds, m, e);
      InExtended(ds, 0, e);
    }
    assert zero <= all && |all - zero| == |all| - |zero|;
    FoldIsProduct(m - 1, size);
  }

  // ---------- picking a book move by weight ----------

  lemma {:induction false} TotalMonotone(weights: seq<nat>, i: nat)
    requires i <= |weights|
    ensures Total(weights[..i]) <= Total(weights)
    decreases |weights|
  {
    if i == |weights| {
      assert weights[..i] == weights;
    } else {
      var shorter := weights[..|weights| - 1];
      TotalMonotone(shorter, i);
      assert shorter[..i] == weights[..i];
    }
  }

  // The draws below the total that fall on index i.
  predicate FallsOn(weights: seq<nat>, target: nat, i: nat) {
    i < |weights| && Total(weights[..i]) <= target < Total(weights[..i]) + weights[i]
  }

  /** `draw` is what the generator returns: below the number of weights when they are all
      zero, below their sum otherwise. The loop's fallback after the last weight is never
      reached. */
  method ChooseWeightedIndex(weights: seq<nat>, draw: nat) returns (index: nat)
    requires weights != []
    requires draw < if Total(weights) == 0 then |weights| else Total(weights)
    ensures index < |weights|
    ensures if Total(weights) == 0 then index == draw else FallsOn(weights, draw, index)
  {
    var total := 0;
    for i := 0 to |weights|
      invariant total == Total(weights[..i])
    {
      assert weights[..i + 1][..i] == weights[..i];
      total := total + weights[i];
    }
    assert weights[..|weights|] == weights;
    if total == 0 {
      return draw;
    }
    var target := draw;
    for i := 0 to |weights|
      invariant 0 <= target && target + Total(weights[..i]) == draw
    {
      if target < weights[i] {
        return i;
      }
      assert weights[..i + 1][..i] == weights[..i];
      target := target - weights[i];
    }
    assert false;  // the source's fallback to the last index
  }

  /** The pick follows the weights: of the equally likely draws, exactly weights[i] give
      index i, and each draw gives one index only. */
  lemma WeightedChoiceIsProportional(weights: seq<nat>, i: nat)
    requires i < |weights|
    ensures |set t: nat | t < Total(weights) && FallsOn(weights, t, i)| == weights[i]
    ensures forall t: nat, j: nat :: FallsOn(weights, t, i) && FallsOn(weights, t, j) ==> i == j
  {
    var low := Total(weights[..i]);
    TotalMonotone(weights, i + 1);
    assert weights[..i + 1][..i] == weights[..i];
    assert (set t: nat | t < Total(weights) && FallsOn(weights, t, i)) == Interval(low, weights[i]);
    forall t: nat, j: nat | FallsOn(weights, t, i) && FallsOn(weights, t, j) ensures i == j {
      if i < j {
        BandsOrdered(weights, i, j);
      } else if j < i {
        BandsOrdered(weights, j, i);
      }
    }
  }

  lemma BandsOrdered(weights: seq<nat>, i: nat, j: nat)
    requires i < j < |weights|
    ensures Total(weights[..i]) + weights[i] <= Total(weights[..j])
  {
    TotalMonotone(weights[..j], i + 1);
    assert weights[..j][..i + 1] == weights[..i + 1];
    assert weights[..i + 1][..i] == weights[..i];
  }

  function Interval(low: nat, size: nat): (s: set<nat>)
    ensures |s| == size && forall t: nat :: t in s <==> low <= t < low + size
  {
    if size == 0 then {} else Interval(low, size - 1) + {low + size - 1}
  }
}
