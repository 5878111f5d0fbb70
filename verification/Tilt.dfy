/**
  The games that follow losses: the loss streaks of a player's games, and the observations
  the sliding-window tilt metric collects after them.

  The metric looks back over windows of one to five games, all starting again for every
  window; the closed forms say what that gives, streak by streak.
 */
module Tilt {
  import opened Prelude
  import Bootstrap

  datatype Outcome = Win | Loss | Drawn

  const MIN_SAMPLE: nat := 30
  const MIN_LOSS_STREAKS: nat := 5
  const MAX_WINDOW: nat := 5

  // ---------- loss streaks ----------

  // The length of the run of losses at the end.
  function Tail(games: seq<Outcome>): (n: nat)
    ensures n <= |games|
  {
    if games == [] || games[|games| - 1] != Loss then 0 else Tail(games[..|games| - 1]) + 1
  }

  // The streaks that some later game has ended.
  function Ended(games: seq<Outcome>): seq<nat> {
    if games == [] then []
    else
      var before := games[..|games| - 1];
      if games[|games| - 1] != Loss && Tail(before) > 0 then Ended(before) + [Tail(before)] else Ended(before)
  }

  function Streaks(games: seq<Outcome>): seq<nat> {
    if Tail(games) > 0 then Ended(games) + [Tail(games)] else Ended(games)
  }

  method BuildLossStreaks(games: seq<Outcome>) returns (streaks: seq<nat>)
    ensures streaks == Streaks(games)
  {
    streaks := [];
    var current := 0;
    for i := 0 to |games|
      invariant streaks == Ended(games[..i]) && current == Tail(games[..i])
    {
      assert games[..i + 1][..i] == games[..i];
      if games[i] == Loss {
        current := current + 1;
      } else {
        if current > 0 {
          streaks := streaks + [current];
        }
        current := 0;
      }
    }
    assert games[..|games|] == games;
    if current > 0 {
      streaks := streaks + [current];
    }
  }

  // Where the ended streaks lie.
  datatype Run = Run(from: nat, upTo: nat)

  // A run of losses that cannot be extended on either side.
  predicate Maximal(games: seq<Outcome>, r: Run) {
    && r.from < r.upTo <= |games|
    && (forall i :: r.from <= i < r.upTo ==> games[i] == Loss)
    && (r.from == 0 || games[r.from - 1] != Loss)
    && (r.upTo == |games| || games[r.upTo] != Loss)
  }

  function EndedRuns(games: seq<Outcome>): seq<Run> {
    if games == [] then []
    else
      var before := games[..|games| - 1];
      if games[|games| - 1] != Loss && Tail(before) > 0 then
        EndedRuns(before) + [Run(|before| - Tail(before), |before|)]
      else EndedRuns(before)
  }

  function Runs(games: seq<Outcome>): seq<Run> {
    if Tail(games) > 0 then EndedRuns(games) + [Run(|games| - Tail(games), |games|)] else EndedRuns(games)
  }

  predicate InOrder(runs: seq<Run>) {
    forall j, k :: 0 <= j < k < |runs| ==> runs[j].upTo < runs[k].from
  }

  predicate Measures(runs: seq<Run>, lengths: seq<nat>) {
    |runs| == |lengths| && forall k :: 0 <= k < |runs| ==> lengths[k] == runs[k].upTo - runs[k].from
  }

  /** The streaks are the lengths of the maximal runs of losses, each run once and from
      left to right. */
  lemma StreaksAreTheMaximalRuns(games: seq<Outcome>)
    ensures Measures(Runs(games), Streaks(games))
    ensures InOrder(Runs(games))
    ensures forall r :: r in Runs(games) <==> Maximal(games, r)
  {
    RunsMeasured(games);
    forall r ensures r in Runs(games) <==> Maximal(games, r) {
      WhereARunIs(games, r);
    }
  }

  lemma RunsMeasured(games: seq<Outcome>)
    ensures Measures(Runs(games), Streaks(games))
    ensures InOrder(Runs(games))
  {
    EndedRunsMeasured(games);
    EndedRunsMaximal(games);
    var runs, ended := Runs(games), EndedRuns(games);
    forall j, k | 0 <= j < k < |runs| ensures runs[j].upTo < runs[k].from {
      if k < |ended| {
        assert ended[j].upTo < ended[k].from;
      } else {
        assert ended[j] in ended;
      }
    }
  }

  lemma WhereARunIs(games: seq<Outcome>, r: Run)
    ensures r in Runs(games) <==> Maximal(games, r)
  {
    EndedRunsMaximal(games);
    TailIsRun(games);
    if Maximal(games, r) {
      if r.upTo == |games| {
        RunIsTail(games, r);
      } else {
        EndedRunsComplete(games, r);
      }
    }
  }

  // The ended runs lie before the tail and before the game that ended them.
  lemma {:induction false} EndedRunsMaximal(games: seq<Outcome>)
    ensures forall r :: r in EndedRuns(games) ==> Maximal(games, r) && r.upTo < |games| - Tail(games)
  {
    if games != [] {
      EndedRunsMaximal(games[..|games| - 1]);
      TailIsRun(games[..|games| - 1]);
    }
  }

  lemma {:induction false} EndedRunsMeasured(games: seq<Outcome>)
    ensures Measures(EndedRuns(games), Ended(games))
    ensures InOrder(EndedRuns(games))
  {
    if games != [] {
      var before := games[..|games| - 1];
      EndedRunsMeasured(before);
      EndedRunsMaximal(before);
      var runs := EndedRuns(before);
      forall j | 0 <= j < |runs| ensures runs[j].upTo < |before| - Tail(before) {
        assert runs[j] in runs;
      }
    }
  }

  lemma {:induction false} EndedRunsComplete(games: seq<Outcome>, r: Run)
    requires Maximal(games, r) && r.upTo < |games|
    ensures r in EndedRuns(games)
  {
    var before := games[..|games| - 1];
    if r.upTo < |before| {
      EndedRunsComplete(before, r);
    } else {
      RunIsTail(before, r);
    }
  }

  lemma RunIsTail(games: seq<Outcome>, r: Run)
    requires Maximal(games, r) && r.upTo == |games|
    ensures r.from == |games| - Tail(games)
  {
    TailIsRun(games);
    RunInTail(games, r.upTo - r.from);
  }

  lemma {:induction false} TailIsRun(games: seq<Outcome>)
    ensures forall j :: |games| - Tail(games) <= j < |games| ==> games[j] == Loss
    ensures Tail(games) < |games| ==> games[|games| - Tail(games) - 1] != Loss
  {
    if Tail(games) > 0 {
      TailIsRun(games[..|games| - 1]);
    }
  }

  lemma {:induction false} RunInTail(games: seq<Outcome>, w: nat)
    requires w <= |games| && forall j :: |games| - w <= j < |games| ==> games[j] == Loss
    ensures w <= Tail(games)
  {
    if w > 0 {
      RunInTail(games[..|games| - 1], w - 1);
    }
  }

  function Losses(games: seq<Outcome>): nat {
    if games == [] then 0
    else Losses(games[..|games| - 1]) + if games[|games| - 1] == Loss then 1 else 0
  }

  /** Streak by streak, the streaks account for every loss. */
  lemma StreaksAccountForLosses(games: seq<Outcome>)
    ensures Total(Streaks(games)) == Losses(games)
  {
    EndedAndTail(games);
    assert Tail(games) > 0 ==> (Ended(games) + [Tail(games)])[..|Ended(games)|] == Ended(games);
  }

  lemma {:induction false} EndedAndTail(games: seq<Outcome>)
    ensures Total(Ended(games)) + Tail(games) == Losses(games)
  {
    if games != [] {
      var before := games[..|games| - 1];
      EndedAndTail(before);
      assert (Ended(before) + [Tail(before)])[..|Ended(before)|] == Ended(before);
    }
  }

  // ---------- observations ----------

  predicate AllLost(games: seq<Outcome>, from: nat, upTo: nat) {
    upTo <= |games| && forall j :: from <= j < upTo ==> games[j] == Loss
  }

  // Game i counts for a window when the window before it is all losses.
  predicate Counts(games: seq<Outcome>, window: nat, i: nat) {
    window <= i < |games| && AllLost(games, i - window, i)
  }

  function Points(g: Outcome): real {
    if g == Win then 1.0 else 0.0
  }

  // What the first n games give for one window.
  function Observed(games: seq<Outcome>, window: nat, n: nat): seq<real>
    requires n <= |games|
  {
    if n == 0 then []
    else Observed(games, window, n - 1) + if Counts(games, window, n - 1) then [Points(games[n - 1])] else []
  }

  // The observations of windows 1 to w.
  function AllObserved(games: seq<Outcome>, w: nat): seq<real> {
    if w == 0 then [] else AllObserved(games, w - 1) + Observed(games, w, |games|)
  }

  // The share of wins among the observations of windows 1 to w.
  function Rate(games: seq<Outcome>, w: nat): Option<real> {
    var xs := AllObserved(games, w);
    if xs == [] then None else Some(Sum(xs) / |xs| as real)
  }

  function Rates(games: seq<Outcome>): nat -> Option<real> {
    (w: nat) => Rate(games, w)
  }

  // The lowest of a baseline and the rates 1 to w.
  function Lowest(rates: nat -> Option<real>, w: nat, baseline: real): real {
    if w == 0 then baseline else Lower(rates(w), Lowest(rates, w - 1, baseline))
  }

  function Lower(rate: Option<real>, worst: real): real {
    if rate.Some? && rate.value < worst then rate.value else worst
  }

  /** The loops of the metric. */
  method CollectObservations(games: seq<Outcome>, baseline: real) returns (observations: seq<real>, worst: real)
    ensures observations == AllObserved(games, MAX_WINDOW)
    ensures worst == Lowest(Rates(games), MAX_WINDOW, baseline)
  {
    observations := [];
    worst := baseline;
    for window := 1 to MAX_WINDOW + 1
      invariant observations == AllObserved(games, window - 1)
      invariant worst == Lowest(Rates(games), window - 1, baseline)
    {
      observations := ObserveWindow(games, window, observations);
      worst := LowerRate(games, window, observations, worst);
    }
  }

  // The loop over the games for one window.
  method ObserveWindow(games: seq<Outcome>, window: nat, earlier: seq<real>) returns (observations: seq<real>)
    requires window > 0
    ensures observations == earlier + Observed(games, window, |games|)
  {
    observations := earlier;
    NothingBefore(games, window, Min(window, |games|));
    var i := window;
    while i < |games|
      invariant window <= i && (i <= |games| || i == window)
      invariant observations == earlier + Observed(games, window, Min(i, |games|))
    {
      var all := WindowLost(games, i, window);
      if all {
        observations := observations + [Points(games[i])];
      }
      i := i + 1;
    }
  }

  // The rate so far, where it is lower than any before.
  method LowerRate(games: seq<Outcome>, w: nat, observations: seq<real>, worst: real) returns (lower: real)
    requires observations == AllObserved(games, w)
    ensures lower == Lower(Rates(games)(w), worst)
  {
    lower := worst;
    if observations != [] {
      var rate := Sum(observations) / |observations| as real;
      if rate < worst {
        lower := rate;
      }
    }
  }

  method WindowLost(games: seq<Outcome>, i: nat, window: nat) returns (all: bool)
    requires window <= i < |games|
    ensures all == Counts(games, window, i)
  {
    for k := 0 to window
      invariant AllLost(games, i - k, i)
    {
      if games[i - k - 1] != Loss {
        return false;
      }
    }
    return true;
  }

  lemma {:induction false} NothingBefore(games: seq<Outcome>, window: nat, n: nat)
    requires n <= window && n <= |games|
    ensures Observed(games, window, n) == []
  {
    if n > 0 {
      NothingBefore(games, window, n - 1);
    }
  }

  // ---------- the closed forms ----------

  // How many observations there are, or how many of them are wins.
  function CountedBelow(games: seq<Outcome>, winsOnly: bool, window: nat, n: nat): nat
    requires n <= |games|
  {
    if n == 0 then 0
    else
      CountedBelow(games, winsOnly, window, n - 1)
      + if Counts(games, window, n - 1) && (winsOnly ==> games[n - 1] == Win) then 1 else 0
  }

  function Counted(games: seq<Outcome>, winsOnly: bool, w: nat): nat {
    if w == 0 then 0 else Counted(games, winsOnly, w - 1) + CountedBelow(games, winsOnly, w, |games|)
  }

  lemma {:induction false} ObservedIsCounted(games: seq<Outcome>, window: nat, n: nat)
    requires n <= |games|
    ensures |Observed(games, window, n)| == CountedBelow(games, false, window, n)
    ensures Sum(Observed(games, window, n)) == CountedBelow(games, true, window, n) as real
  {
    if n > 0 {
      ObservedIsCounted(games, window, n - 1);
      var xs := Observed(games, window, n - 1);
      assert (xs + [Points(games[n - 1])])[..|xs|] == xs;
      assert xs + [] == xs;
    }
  }

  lemma {:induction false} AllObservedIsCounted(games: seq<Outcome>, w: nat)
    ensures |AllObserved(games, w)| == Counted(games, false, w)
    ensures Sum(AllObserved(games, w)) == Counted(games, true, w) as real
  {
    if w > 0 {
      AllObservedIsCounted(games, w - 1);
      ObservedIsCounted(games, w, |games|);
      SumAppend(AllObserved(games, w - 1), Observed(games, w, |games|));
    }
  }

  // min(1, MAX) + min(2, MAX) + ... + min(n, MAX).
  function Triangle(n: nat): nat {
    if n == 0 then 0 else Triangle(n - 1) + Min(n, MAX_WINDOW)
  }

  /** In numbers: 1, 3, 6, 10, 15, and five more for each further loss. */
  lemma TriangleIs(n: nat)
    ensures Triangle(0) == 0 && Triangle(1) == 1 && Triangle(2) == 3 && Triangle(3) == 6 && Triangle(4) == 10
    ensures n >= 4 ==> Triangle(n + 1) == Triangle(n) + 5
  {
    assert Triangle(2) == Triangle(1) + 2;
    assert Triangle(3) == Triangle(2) + 3;
    assert Triangle(4) == Triangle(3) + 4;
  }

  function Triangles(ns: seq<nat>): nat {
    if ns == [] then 0 else Triangles(ns[..|ns| - 1]) + Triangle(ns[|ns| - 1])
  }

  // A streak of n losses gives min(j, 5) observations after its j-th loss, provided a
  // game follows: the last loss of the last game gives none.
  function ClosedForm(games: seq<Outcome>): nat {
    Triangles(Ended(games)) + if Tail(games) == 0 then 0 else Triangle(Tail(games) - 1)
  }

  // A win counts once for every window that the streak it ends can fill.
  function WinsAfterStreaks(games: seq<Outcome>): nat {
    if games == [] then 0
    else
      var before := games[..|games| - 1];
      WinsAfterStreaks(before) + if games[|games| - 1] == Win then Min(Tail(before), MAX_WINDOW) else 0
  }

  // One more game adds one observation for each window that fits in the run before it.
  lemma {:induction false} OneMoreGame(games: seq<Outcome>, g: Outcome, winsOnly: bool, w: nat)
    ensures Counted(games + [g], winsOnly, w)
         == Counted(games, winsOnly, w) + if winsOnly ==> g == Win then Min(Tail(games), w) else 0
  {
    if w > 0 {
      OneMoreGame(games, g, winsOnly, w - 1);
      SamePrefixCounts(games, g, winsOnly, w, |games|);
      CountsByTail(games, g, w);
    }
  }

  lemma {:induction false} SamePrefixCounts(games: seq<Outcome>, g: Outcome, winsOnly: bool, w: nat, n: nat)
    requires n <= |games|
    ensures CountedBelow(games + [g], winsOnly, w, n) == CountedBelow(games, winsOnly, w, n)
  {
    if n > 0 {
      SamePrefixCounts(games, g, winsOnly, w, n - 1);
      SameGameCounts(games, g, w, n - 1);
    }
  }

  lemma SameGameCounts(games: seq<Outcome>, g: Outcome, w: nat, i: nat)
    requires i < |games|
    ensures Counts(games + [g], w, i) <==> Counts(games, w, i)
  {
    var more := games + [g];
    assert forall j :: 0 <= j < |games| ==> games[j] == more[j];
  }

  lemma CountsByTail(games: seq<Outcome>, g: Outcome, w: nat)
    ensures Counts(games + [g], w, |games|) <==> w <= Tail(games)
  {
    TailIsRun(games);
    var more := games + [g];
    assert forall j :: 0 <= j < |games| ==> games[j] == more[j];
    if w <= |games| && AllLost(more, |games| - w, |games|) {
      RunInTail(games, w);
    }
  }

  /** For every sequence of games: the number of observations is the sum, over the loss
      streaks, of min(j, 5) for each loss that another game follows; and the wins among
      them add up to min(length, 5) for each streak that a win ends. */
  lemma ObservationsInClosedForm(games: seq<Outcome>)
    ensures |AllObserved(games, MAX_WINDOW)| == ClosedForm(games)
    ensures Sum(AllObserved(games, MAX_WINDOW)) == WinsAfterStreaks(games) as real
  {
    AllObservedIsCounted(games, MAX_WINDOW);
    CountedInClosedForm(games);
  }

  lemma {:induction false} CountedInClosedForm(games: seq<Outcome>)
    ensures Counted(games, false, MAX_WINDOW) == ClosedForm(games)
    ensures Counted(games, true, MAX_WINDOW) == WinsAfterStreaks(games)
  {
    if games == [] {
      NoGames(false, MAX_WINDOW);
      NoGames(true, MAX_WINDOW);
    } else {
      var before, g := games[..|games| - 1], games[|games| - 1];
      assert games == before + [g];
      CountedInClosedForm(before);
      OneMoreGame(before, g, false, MAX_WINDOW);
      OneMoreGame(before, g, true, MAX_WINDOW);
      assert (Ended(before) + [Tail(before)])[..|Ended(before)|] == Ended(before);
    }
  }

  lemma {:induction false} NoGames(winsOnly: bool, w: nat)
    ensures Counted([], winsOnly, w) == 0
  {
    if w > 0 {
      NoGames(winsOnly, w - 1);
    }
  }

  // ---------- the metric and its gates ----------

  function AtLeastTwo(ns: seq<nat>): nat {
    if ns == [] then 0 else AtLeastTwo(ns[..|ns| - 1]) + if ns[|ns| - 1] >= 2 then 1 else 0
  }

  predicate PassesGates(games: seq<Outcome>) {
    |games| >= MIN_SAMPLE && AtLeastTwo(Streaks(games)) >= MIN_LOSS_STREAKS
  }

  /** The gates: thirty games, and five streaks of at least two losses. */
  lemma GatesExactly(games: seq<Outcome>)
    ensures PassesGates(games) <==>
              |games| >= 30 && |set k | 0 <= k < |Streaks(games)| && Streaks(games)[k] >= 2| >= 5
  {
    AtLeastTwoCounts(Streaks(games));
  }

  lemma {:induction false} AtLeastTwoCounts(ns: seq<nat>)
    ensures AtLeastTwo(ns) == |set k | 0 <= k < |ns| && ns[k] >= 2|
  {
    if ns == [] {
    } else {
      var init := ns[..|ns| - 1];
      AtLeastTwoCounts(init);
      var before, all := set k | 0 <= k < |init| && init[k] >= 2, set k | 0 <= k < |ns| && ns[k] >= 2;
      assert all == before + if ns[|ns| - 1] >= 2 then {|ns| - 1} else {};
    }
  }

  function Wins(games: seq<Outcome>): (n: nat)
    ensures n <= |games|
  {
    if games == [] then 0 else Wins(games[..|games| - 1]) + if games[|games| - 1] == Win then 1 else 0
  }

  const RESAMPLES: int := 1000
  const CONFIDENCE: real := 0.95

  // d is missing where the observations do not differ.
  datatype Estimate = Estimate(point: real, d: Option<real>, ciLow: real, ciHigh: real, sampleSize: nat)

  // What square roots are, as far as the metric is concerned.
  ghost predicate IsRoot(root: real -> real) {
    forall x :: x >= 0.0 ==> root(x) >= 0.0 && Square(root(x)) == x
  }

  function Squares(xs: seq<real>, mean: real): real {
    if xs == [] then 0.0
    else Squares(xs[..|xs| - 1], mean) + Square(xs[|xs| - 1] - mean)
  }

  function Square(x: real): real {
    Product(x, x)
  }

  function Product(a: real, b: real): real {
    a * b
  }

  predicate AllSame(xs: seq<real>) {
    forall j, k :: 0 <= j < |xs| && 0 <= k < |xs| ==> xs[j] == xs[k]
  }

  lemma {:induction false} SquaresVanishExactly(xs: seq<real>, mean: real)
    ensures Squares(xs, mean) >= 0.0
    ensures Squares(xs, mean) == 0.0 <==> forall k :: 0 <= k < |xs| ==> xs[k] == mean
  {
    if xs == [] {
    } else {
      SquaresVanishExactly(xs[..|xs| - 1], mean);
      SquareVanishesExactly(xs[|xs| - 1] - mean);
    }
  }

  /** Each value adds the square of its distance from the mean, and the variance shares their
      sum among all values but one. */
  lemma SquaresOfOneMore(xs: seq<real>, x: real, mean: real)
    ensures Squares(xs + [x], mean) == Squares(xs, mean) + (x - mean) * (x - mean)
    ensures Squares([], mean) == 0.0
  {
    assert (xs + [x])[..|xs|] == xs;
  }

  lemma VarianceShares(xs: seq<real>)
    requires |xs| > 1
    ensures Variance(xs) * (|xs| - 1) as real == Squares(xs, Bootstrap.Mean(xs))
  {
    Quotient(Squares(xs, Bootstrap.Mean(xs)), (|xs| - 1) as real);
  }

  lemma SquareVanishesExactly(x: real)
    ensures Square(x) >= 0.0
    ensures Square(x) == 0.0 <==> x == 0.0
  {
    if x > 0.0 {
      PositiveSquare(x);
    } else if x < 0.0 {
      PositiveSquare(-x);
      SquareOfNegation(x);
    }
  }

  lemma PositiveSquare(x: real)
    requires x > 0.0
    ensures Square(x) > 0.0
  {
    ProductIsPositive(x, x);
  }

  lemma ProductIsPositive(a: real, b: real)
    requires a > 0.0 && b > 0.0
    ensures Product(a, b) > 0.0
  {}

  lemma SquareOfNegation(x: real)
    ensures Square(-x) == Square(x)
  {}

  // Values that are all the same are all their mean.
  lemma SameAsMean(xs: seq<real>)
    requires xs != []
    ensures AllSame(xs) <==> forall k :: 0 <= k < |xs| ==> xs[k] == Bootstrap.Mean(xs)
  {
    if AllSame(xs) {
      Bootstrap.MeanWithin(xs, xs[0], xs[0]);
    }
  }

  lemma QuotientVanishesExactly(a: real, b: real)
    requires a >= 0.0 && b > 0.0
    ensures a / b >= 0.0 && (a / b == 0.0 <==> a == 0.0)
  {
    assert (a / b) * b == a;
  }

  function Variance(xs: seq<real>): real
    requires |xs| > 1
  {
    Squares(xs, Bootstrap.Mean(xs)) / (|xs| - 1) as real
  }

  lemma VarianceVanishesExactly(xs: seq<real>)
    requires |xs| > 1
    ensures Variance(xs) >= 0.0
    ensures Variance(xs) == 0.0 <==> AllSame(xs)
  {
    SquaresVanishExactly(xs, Bootstrap.Mean(xs));
    SameAsMean(xs);
    QuotientVanishesExactly(Squares(xs, Bootstrap.Mean(xs)), (|xs| - 1) as real);
  }

  // How many standard deviations the mean lies from the baseline, where there is a deviation.
  function EffectSize(xs: seq<real>, baseline: real, root: real -> real): Option<real>
    requires |xs| > 1
  {
    var std := root(Variance(xs));
    if std == 0.0 then None else Some((Bootstrap.Mean(xs) - baseline) / std)
  }

  /** The effect size is missing exactly when all the observations are the same. */
  lemma EffectSizeMeans(xs: seq<real>, baseline: real, root: real -> real)
    requires |xs| > 1 && IsRoot(root)
    ensures EffectSize(xs, baseline, root).None? <==> AllSame(xs)
    ensures var d := EffectSize(xs, baseline, root);
      d.Some? ==> d.value * root(Variance(xs)) == Bootstrap.Mean(xs) - baseline
  {
    VarianceVanishesExactly(xs);
    var std := root(Variance(xs));
    SquareVanishesExactly(std);
    if std != 0.0 {
      Quotient(Bootstrap.Mean(xs) - baseline, std);
    }
  }

  lemma Quotient(a: real, b: real)
    requires b != 0.0
    ensures (a / b) * b == a
  {}

  /** The metric. Below the gates it reports nothing. Otherwise the estimate lies between 0
      and the player's share of wins, the effect size is missing exactly when all the
      observations are the same, and the interval lies between 0 and 1. */
  method SequenceBasedTilt(games: seq<Outcome>, root: real -> real, draw: Bootstrap.Draw) returns (e: Estimate)
    requires IsRoot(root)
    requires PassesGates(games) ==> Bootstrap.DrawsFrom(draw, |AllObserved(games, MAX_WINDOW)|)
    ensures !PassesGates(games) ==> e == Estimate(0.0, None, 0.0, 0.0, |games|)
    ensures PassesGates(games) ==> Reports(games, root, draw, e)
  {
    if |games| < MIN_SAMPLE {
      return Estimate(0.0, None, 0.0, 0.0, |games|);
    }
    var streaks := BuildLossStreaks(games);
    if AtLeastTwo(streaks) < MIN_LOSS_STREAKS {
      return Estimate(0.0, None, 0.0, 0.0, |games|);
    }
    e := Measure(games, root, draw);
  }

  /** Wins and losses are how many of the games were won and lost. */
  lemma {:induction false} WinsAndLossesAreCounted(games: seq<Outcome>)
    ensures Wins(games) == |set i | 0 <= i < |games| && games[i] == Win|
    ensures Losses(games) == |set i | 0 <= i < |games| && games[i] == Loss|
  {
    if games == [] {
    } else {
      var init := games[..|games| - 1];
      WinsAndLossesAreCounted(init);
      OneMoreOf(init, games[|games| - 1], Win);
      OneMoreOf(init, games[|games| - 1], Loss);
      assert games == init + [games[|games| - 1]];
    }
  }

  lemma OneMoreOf(games: seq<Outcome>, g: Outcome, kind: Outcome)
    ensures |set i | 0 <= i < |games + [g]| && (games + [g])[i] == kind|
         == |set i | 0 <= i < |games| && games[i] == kind| + if g == kind then 1 else 0
  {
    var before := set i | 0 <= i < |games| && games[i] == kind;
    var after := set i | 0 <= i < |games + [g]| && (games + [g])[i] == kind;
    if g == kind {
      assert after == before + {|games|};
    } else {
      assert after == before;
    }
  }

  // The player's share of wins.
  function Baseline(games: seq<Outcome>): real
    requires games != []
  {
    Wins(games) as real / |games| as real
  }

  predicate IsPoint(games: seq<Outcome>, point: real)
    requires games != []
  {
    && 0.0 <= point <= Baseline(games)
    && point == Baseline(games) - Lowest(Rates(games), MAX_WINDOW, Baseline(games))
  }

  // What the metric reports of games that pass the gates.
  ghost predicate Reports(games: seq<Outcome>, root: real -> real, draw: Bootstrap.Draw, e: Estimate)
    requires PassesGates(games) && Bootstrap.DrawsFrom(draw, |AllObserved(games, MAX_WINDOW)|)
  {
    var baseline, xs := Baseline(games), AllObserved(games, MAX_WINDOW);
    && |xs| > 1 && e.sampleSize == |xs| == ClosedForm(games)
    && IsPoint(games, e.point)
    && e.d == EffectSize(xs, baseline, root) && (e.d.None? <==> AllSame(xs))
    && 0.0 <= e.ciLow <= e.ciHigh <= 1.0
    && Bootstrap.Expected(xs, "mean", 1000, 0.95, draw) == Ok(Bootstrap.Interval(e.ciLow, e.ciHigh))
  }

  method Measure(games: seq<Outcome>, root: real -> real, draw: Bootstrap.Draw) returns (e: Estimate)
    requires PassesGates(games) && IsRoot(root) && Bootstrap.DrawsFrom(draw, |AllObserved(games, MAX_WINDOW)|)
    ensures Reports(games, root, draw, e)
  {
    GatesGiveObservations(games);
    ObservationsInClosedForm(games);
    var point, observations := PointEstimate(games);
    if observations == [] {
      assert false; // the guard against having no observations is never taken
    }
    var d := EffectSize(observations, Baseline(games), root);
    EffectSizeMeans(observations, Baseline(games), root);
    var low, high := IntervalOfPoints(games, observations, draw);
    e := Estimate(point, d, low, high, |observations|);
  }

  method PointEstimate(games: seq<Outcome>) returns (point: real, observations: seq<real>)
    requires games != []
    ensures observations == AllObserved(games, MAX_WINDOW) && IsPoint(games, point)
  {
    var baseline := Baseline(games);
    var worst;
    observations, worst := CollectObservations(games, baseline);
    WorstIsARate(games, MAX_WINDOW, baseline);
    point := if baseline - worst < 0.0 then 0.0 else baseline - worst;
  }

  // The interval of observations that are all 0 or 1.
  method IntervalOfPoints(games: seq<Outcome>, xs: seq<real>, draw: Bootstrap.Draw) returns (low: real, high: real)
    requires xs != [] && xs == AllObserved(games, MAX_WINDOW) && Bootstrap.DrawsFrom(draw, |xs|)
    ensures 0.0 <= low <= high <= 1.0
    ensures Bootstrap.Expected(xs, "mean", 1000, 0.95, draw) == Ok(Bootstrap.Interval(low, high))
  {
    var interval := Bootstrap.BootstrapCi(xs, "mean", RESAMPLES, CONFIDENCE, draw);
    AllArePoints(games, MAX_WINDOW);
    Bootstrap.ExtremesBound(xs);
    return interval.value.low, interval.value.high;
  }

  predicate ArePoints(xs: seq<real>) {
    forall x :: x in xs ==> x == 0.0 || x == 1.0
  }

  lemma {:induction false} ObservedArePoints(games: seq<Outcome>, window: nat, n: nat)
    requires n <= |games|
    ensures ArePoints(Observed(games, window, n))
  {
    if n == 0 {
    } else {
      ObservedArePoints(games, window, n - 1);
    }
  }

  lemma {:induction false} AllArePoints(games: seq<Outcome>, w: nat)
    ensures ArePoints(AllObserved(games, w))
  {
    if w == 0 {
    } else {
      AllArePoints(games, w - 1);
      ObservedArePoints(games, w, |games|);
    }
  }

  lemma RateIsNotNegative(games: seq<Outcome>, w: nat)
    ensures Rate(games, w).Some? ==> Rate(games, w).value >= 0.0
  {
    var xs := AllObserved(games, w);
    AllObservedIsCounted(games, w);
    if xs != [] {
      QuotientVanishesExactly(Sum(xs), |xs| as real);
    }
  }

  lemma WorstIsARate(games: seq<Outcome>, w: nat, baseline: real)
    requires baseline >= 0.0
    ensures 0.0 <= Lowest(Rates(games), w, baseline) <= baseline
  {
    LowestIsBelow(Rates(games), w, baseline, 0);
    var v := LowestIsReached(Rates(games), w, baseline);
    RateIsNotNegative(games, v);
  }

  /** The worst rate is the lowest of the baseline and the rates seen after each window: it
      is below them all, ... */
  lemma {:induction false} LowestIsBelow(rates: nat -> Option<real>, w: nat, baseline: real, v: nat)
    requires v <= w
    ensures Lowest(rates, w, baseline) <= baseline
    ensures v > 0 && rates(v).Some? ==> Lowest(rates, w, baseline) <= rates(v).value
  {
    if w > 0 {
      LowestIsBelow(rates, w - 1, baseline, Min(v, w - 1));
    }
  }

  /** ... and one of them: the baseline if v is 0. */
  lemma {:induction false} LowestIsReached(rates: nat -> Option<real>, w: nat, baseline: real) returns (v: nat)
    ensures v <= w && (v > 0 ==> rates(v).Some?)
    ensures Lowest(rates, w, baseline) == if v == 0 then baseline else rates(v).value
  {
    v := 0;
    if w > 0 {
      v := LowestIsReached(rates, w - 1, baseline);
      if Lowest(rates, w, baseline) != Lowest(rates, w - 1, baseline) {
        v := w;
      }
    }
  }

  lemma {:induction false} TriangleGrows(n: nat)
    ensures Triangle(n) >= n
  {
    if n > 0 {
      TriangleGrows(n - 1);
    }
  }

  lemma {:induction false} TriangleOfTwo(n: nat)
    requires n >= 2
    ensures Triangle(n) >= 3
  {
    if n == 2 {
      assert Triangle(1) == 1;
    } else {
      TriangleOfTwo(n - 1);
    }
  }

  lemma {:induction false} TrianglesOfQualifying(ns: seq<nat>)
    ensures Triangles(ns) >= 3 * AtLeastTwo(ns)
  {
    if ns != [] {
      TrianglesOfQualifying(ns[..|ns| - 1]);
      var n := ns[|ns| - 1];
      if n >= 2 {
        TriangleOfTwo(n);
      }
    }
  }

  /** Games that pass the gates give at least 13 observations, so the metric's guard
      against having none is never taken. */
  lemma GatesGiveObservations(games: seq<Outcome>)
    requires PassesGates(games)
    ensures |AllObserved(games, MAX_WINDOW)| >= 13
  {
    ObservationsInClosedForm(games);
    TrianglesOfQualifying(Ended(games));
    if Tail(games) > 0 {
      var all := Ended(games) + [Tail(games)];
      assert all[..|all| - 1] == Ended(games);
      if Tail(games) >= 2 {
        TriangleGrows(Tail(games) - 1);
      }
    }
  }
}
