/**
  Checking the citations of a narration: the moves and evaluations it quotes against the
  engine's lines, and the sentences it quotes against the matched corpus paragraph.

  A quoted sentence is accepted by the length of the longest common subsequence of its
  words with the paragraph's. `Lcs` is the recurrence the table is filled by; the lemmas
  show that it is the greatest length of a common subsequence.
 */
module Citations {
  import opened Prelude

  type Word = string

  // ---------- subsequences ----------

  function Init<T>(s: seq<T>): seq<T>
    requires s != []
  {
    s[..|s| - 1]
  }

  function Last<T>(s: seq<T>): T
    requires s != []
  {
    s[|s| - 1]
  }

  /** s is t with some elements left out. */
  predicate IsSubsequence(s: seq<Word>, t: seq<Word>) {
    if s == [] then true
    else if t == [] then false
    else (Last(s) == Last(t) && IsSubsequence(Init(s), Init(t))) || IsSubsequence(s, Init(t))
  }

  predicate IsCommon(s: seq<Word>, a: seq<Word>, b: seq<Word>) {
    IsSubsequence(s, a) && IsSubsequence(s, b)
  }

  lemma {:induction false} SubsequenceInit(s: seq<Word>, t: seq<Word>)
    requires s != [] && IsSubsequence(s, t)
    ensures IsSubsequence(Init(s), t)
  {
    if !(Last(s) == Last(t) && IsSubsequence(Init(s), Init(t))) {
      SubsequenceInit(s, Init(t));
    }
  }

  // Leaving out the last element of both keeps the relation.
  lemma SubsequenceInits(s: seq<Word>, t: seq<Word>)
    requires s != [] && IsSubsequence(s, t)
    ensures t != [] && IsSubsequence(Init(s), Init(t))
  {
    if !(Last(s) == Last(t) && IsSubsequence(Init(s), Init(t))) {
      SubsequenceInit(s, Init(t));
    }
  }

  lemma {:induction false} SubsequenceOfItself(s: seq<Word>)
    ensures IsSubsequence(s, s)
  {
    if s != [] {
      SubsequenceOfItself(Init(s));
    }
  }

  lemma {:induction false} SubsequenceBefore(s: seq<Word>, t: seq<Word>, after: seq<Word>)
    requires IsSubsequence(s, t)
    ensures IsSubsequence(s, t + after)
  {
    if after == [] {
      assert t + after == t;
    } else {
      SubsequenceBefore(s, t, Init(after));
      assert Init(t + after) == t + Init(after);
    }
  }

  lemma {:induction false} SubsequenceAfter(s: seq<Word>, before: seq<Word>, t: seq<Word>)
    requires IsSubsequence(s, t)
    ensures IsSubsequence(s, before + t)
  {
    if s != [] {
      assert Last(before + t) == Last(t) && Init(before + t) == before + Init(t);
      if Last(s) == Last(t) && IsSubsequence(Init(s), Init(t)) {
        SubsequenceAfter(Init(s), before, Init(t));
      } else {
        SubsequenceAfter(s, before, Init(t));
      }
    }
  }

  // ---------- the longest common subsequence ----------

  function Lcs(a: seq<Word>, b: seq<Word>): nat
    decreases |a| + |b|
  {
    if a == [] || b == [] then 0
    else if Last(a) == Last(b) then Lcs(Init(a), Init(b)) + 1
    else Max(Lcs(Init(a), b), Lcs(a, Init(b)))
  }

  /** Some common subsequence has that length, ... */
  lemma {:induction false} LcsIsReached(a: seq<Word>, b: seq<Word>) returns (s: seq<Word>)
    ensures IsCommon(s, a, b) && |s| == Lcs(a, b)
    decreases |a| + |b|
  {
    if a == [] || b == [] {
      s := [];
    } else if Last(a) == Last(b) {
      var shorter := LcsIsReached(Init(a), Init(b));
      s := shorter + [Last(a)];
      assert Init(s) == shorter;
    } else if Lcs(Init(a), b) >= Lcs(a, Init(b)) {
      s := LcsIsReached(Init(a), b);
      assert a == Init(a) + [Last(a)];
      SubsequenceBefore(s, Init(a), [Last(a)]);
    } else {
      s := LcsIsReached(a, Init(b));
      assert b == Init(b) + [Last(b)];
      SubsequenceBefore(s, Init(b), [Last(b)]);
    }
  }

  /** ... and none is longer. */
  lemma {:induction false} LcsIsLongest(a: seq<Word>, b: seq<Word>, s: seq<Word>)
    requires IsCommon(s, a, b)
    ensures |s| <= Lcs(a, b)
    decreases |a| + |b|
  {
    if s != [] {
      if Last(a) == Last(b) {
        SubsequenceInits(s, a);
        SubsequenceInits(s, b);
        LcsIsLongest(Init(a), Init(b), Init(s));
      } else if Last(s) != Last(a) {
        LcsIsLongest(Init(a), b, s);
      } else {
        LcsIsLongest(a, Init(b), s);
      }
    }
  }

  /** The table of the dynamic program, filled row by row. */
  method LcsWordCount(a: seq<Word>, b: seq<Word>) returns (count: nat)
    ensures count == Lcs(a, b)
  {
    var n, m := |a|, |b|;
    if n == 0 || m == 0 {
      return 0;
    }
    var dp := new nat[n + 1, m + 1]((i, j) => 0);
    for i := 1 to n + 1
      invariant forall x :: 0 <= x <= n ==> dp[x, 0] == 0
      invariant forall x, y :: 0 <= x < i && 0 <= y <= m ==> dp[x, y] == Lcs(a[..x], b[..y])
    {
      FillRow(a, b, dp, i);
    }
    assert a[..n] == a && b[..m] == b;
    return dp[n, m];
  }

  // The inner loop: one row from the row above it.
  method FillRow(a: seq<Word>, b: seq<Word>, dp: array2<nat>, i: nat)
    requires 0 < i <= |a| && dp.Length0 == |a| + 1 && dp.Length1 == |b| + 1
    requires dp[i, 0] == 0
    requires forall y :: 0 <= y <= |b| ==> dp[i - 1, y] == Lcs(a[..i - 1], b[..y])
    modifies dp
    ensures forall y :: 0 <= y <= |b| ==> dp[i, y] == Lcs(a[..i], b[..y])
    ensures forall x, y :: 0 <= x <= |a| && x != i && 0 <= y <= |b| ==> dp[x, y] == old(dp[x, y])
  {
    var ai := a[i - 1];
    for j := 1 to |b| + 1
      invariant forall y :: 0 <= y < j ==> dp[i, y] == Lcs(a[..i], b[..y])
      invariant forall x, y :: 0 <= x <= |a| && x != i && 0 <= y <= |b| ==> dp[x, y] == old(dp[x, y])
    {
      LcsCell(a, b, i, j);
      if ai == b[j - 1] {
        dp[i, j] := dp[i - 1, j - 1] + 1;
      } else {
        dp[i, j] := Max(dp[i - 1, j], dp[i, j - 1]);
      }
    }
  }

  // A cell of the table from its three neighbours.
  lemma LcsCell(a: seq<Word>, b: seq<Word>, i: nat, j: nat)
    requires 0 < i <= |a| && 0 < j <= |b|
    ensures Lcs(a[..i], b[..j])
         == if a[i - 1] == b[j - 1] then Lcs(a[..i - 1], b[..j - 1]) + 1
            else Max(Lcs(a[..i - 1], b[..j]), Lcs(a[..i], b[..j - 1]))
  {
    assert Init(a[..i]) == a[..i - 1] && Init(b[..j]) == b[..j - 1];
  }

  // ---------- words ----------

  const PUNCTUATION: string := ".,;:!?\"'`()[]"

  function StripLeft(w: Word): Word {
    if w != [] && w[0] in PUNCTUATION then StripLeft(w[1..]) else w
  }

  function StripRight(w: Word): Word {
    if w != [] && w[|w| - 1] in PUNCTUATION then StripRight(w[..|w| - 1]) else w
  }

  predicate AllPunctuation(w: Word) {
    forall i :: 0 <= i < |w| ==> w[i] in PUNCTUATION
  }

  predicate IsBare(w: Word) {
    w == [] || (w[0] !in PUNCTUATION && w[|w| - 1] !in PUNCTUATION)
  }

  /** Stripping takes away punctuation, all of it at both ends and nothing else. */
  lemma StripsPunctuation(w: Word) returns (left: Word, right: Word)
    ensures w == left + StripRight(StripLeft(w)) + right
    ensures AllPunctuation(left) && AllPunctuation(right) && IsBare(StripRight(StripLeft(w)))
  {
    left := LeftOf(w);
    right := RightOf(StripLeft(w));
    var bare := StripRight(StripLeft(w));
    if bare != [] {
      assert bare[0] == StripLeft(w)[0];
    }
  }

  lemma {:induction false} LeftOf(w: Word) returns (left: Word)
    ensures w == left + StripLeft(w) && AllPunctuation(left)
    ensures StripLeft(w) == [] || StripLeft(w)[0] !in PUNCTUATION
  {
    if w != [] && w[0] in PUNCTUATION {
      left := LeftOf(w[1..]);
      left := [w[0]] + left;
    } else {
      left := [];
    }
  }

  lemma {:induction false} RightOf(w: Word) returns (right: Word)
    ensures w == StripRight(w) + right && AllPunctuation(right)
    ensures StripRight(w) == [] || StripRight(w)[|StripRight(w)| - 1] !in PUNCTUATION
  {
    if w != [] && w[|w| - 1] in PUNCTUATION {
      var init, last := w[..|w| - 1], w[|w| - 1];
      var shorter := RightOf(init);
      right := shorter + [last];
      OneMoreMark(StripRight(init), shorter, init, last, w);
    } else {
      right := [];
    }
  }

  lemma OneMoreMark(bare: Word, right: Word, init: Word, mark: char, w: Word)
    requires init == bare + right && AllPunctuation(right) && mark in PUNCTUATION
    requires w != [] && init == w[..|w| - 1] && mark == w[|w| - 1]
    ensures w == bare + (right + [mark]) && AllPunctuation(right + [mark])
  {}

  // Stripped of punctuation at both ends, and lowered by the given case mapping; nothing
  // when only punctuation was there.
  function Cleaner(lower: Word -> Word): Word -> seq<Word> {
    (w: Word) =>
      var clean := StripRight(StripLeft(w));
      if clean == [] then [] else [lower(clean)]
  }

  /** A piece of text gives a token exactly when it is not all punctuation, and the token is the
      piece without the punctuation at its ends, lowered. */
  lemma TokenExactly(lower: Word -> Word, w: Word) returns (left: Word, bare: Word, right: Word)
    ensures Cleaner(lower)(w) == [] <==> AllPunctuation(w)
    ensures Cleaner(lower)(w) != [] ==> Cleaner(lower)(w) == [lower(bare)]
    ensures w == left + bare + right && AllPunctuation(left) && AllPunctuation(right) && IsBare(bare)
  {
    left, right := StripsPunctuation(w);
    bare := StripRight(StripLeft(w));
    if bare == [] {
      assert w == left + right;
    } else {
      assert w[|left|] == bare[0];
    }
  }

  // The word tokens of a text, given as its whitespace-separated pieces.
  function Tokens(clean: Word -> seq<Word>, pieces: seq<Word>): seq<Word> {
    FlatMap(pieces, clean)
  }

  method WordTokens(lower: Word -> Word, pieces: seq<Word>) returns (out: seq<Word>)
    ensures out == Tokens(Cleaner(lower), pieces)
  {
    out := [];
    for i := 0 to |pieces|
      invariant out == Tokens(Cleaner(lower), pieces[..i])
    {
      var clean := StripRight(StripLeft(pieces[i]));
      if clean != [] {
        out := out + [lower(clean)];
      }
      assert Init(pieces[..i + 1]) == pieces[..i];
    }
    assert pieces[..|pieces|] == pieces;
  }

  // ---------- quoted sentences ----------

  const MIN_LCS_WORDS: nat := 30

  /** A citation is grounded in a paragraph when some common subsequence of their words
      has 30 words, or half of the citation's words. */
  ghost predicate Grounded(cited: seq<Word>, corpus: seq<Word>) {
    cited != [] && exists s :: IsCommon(s, cited, corpus) && (|s| >= MIN_LCS_WORDS || 2 * |s| >= |cited|)
  }

  /** That is: their longest common subsequence has 30 words, or half of the citation's. */
  lemma GroundedExactly(cited: seq<Word>, corpus: seq<Word>)
    ensures Grounded(cited, corpus) <==>
              cited != [] && (Lcs(cited, corpus) >= 30 || Lcs(cited, corpus) + Lcs(cited, corpus) >= |cited|)
  {
    var longest := LcsIsReached(cited, corpus);
    forall s | IsCommon(s, cited, corpus) ensures |s| <= Lcs(cited, corpus) {
      LcsIsLongest(cited, corpus, s);
    }
  }

  method GroundingSimilarityOk(lower: Word -> Word, citation: seq<Word>, paragraph: seq<Word>) returns (ok: bool)
    ensures ok <==> Grounded(Tokens(Cleaner(lower), citation), Tokens(Cleaner(lower), paragraph))
  {
    var cited := WordTokens(lower, citation);
    var corpus := WordTokens(lower, paragraph);
    if cited == [] {
      return false;
    }
    var lcs := LcsWordCount(cited, corpus);
    ok := lcs >= MIN_LCS_WORDS || lcs as real / Max(1, |cited|) as real >= 0.5;
    AtLeastHalf(lcs, |cited|);
    ghost var longest := LcsIsReached(cited, corpus);
    forall s | IsCommon(s, cited, corpus) ensures |s| <= lcs {
      LcsIsLongest(cited, corpus, s);
    }
  }

  lemma AtLeastHalf(k: nat, n: nat)
    requires n > 0
    ensures k as real / n as real >= 0.5 <==> 2 * k >= n
  {
    var q := k as real / n as real;
    assert q * n as real == k as real;
  }

  /** Quoting verbatim always passes: any run of a paragraph's pieces that has a word. */
  lemma VerbatimRunIsGrounded(clean: Word -> seq<Word>, before: seq<Word>, run: seq<Word>, after: seq<Word>)
    requires Tokens(clean, run) != []
    ensures Grounded(Tokens(clean, run), Tokens(clean, before + run + after))
  {
    var head, cited, tail := Tokens(clean, before), Tokens(clean, run), Tokens(clean, after);
    FlatMapAppend(before, run, clean);
    FlatMapAppend(before + run, after, clean);
    SubsequenceOfItself(cited);
    SubsequenceAfter(cited, head, cited);
    SubsequenceBefore(cited, head + cited, tail);
    assert IsCommon(cited, cited, head + cited + tail);
  }

  // ---------- the whole narration ----------

  datatype Score = Cp(value: int) | Mate(value: int)

  const EVAL_TOLERANCE_CP: int := 20

  predicate Agrees(claimed: Score, truth: Score) {
    match claimed
    case Mate(v) => truth == Mate(v)
    case Cp(v) => truth.Cp? && -EVAL_TOLERANCE_CP <= truth.value - v <= EVAL_TOLERANCE_CP
  }

  /** Centipawns agree within 20 of each other, mates only with the same mate, and neither with
      the other. */
  lemma AgreesExactly(v: int, w: int)
    ensures Agrees(Cp(v), Cp(w)) <==> w <= v + 20 && v <= w + 20
    ensures Agrees(Mate(v), Mate(w)) <==> v == w
    ensures !Agrees(Cp(v), Mate(w)) && !Agrees(Mate(v), Cp(w))
  {}

  /** The engine's lines and the two readings of quoted text: a move in normal form and a
      score, each None when unreadable. */
  datatype Truth = Truth(
    moves: set<string>,
    scores: seq<Score>,
    normalize: string -> Option<string>,
    parseEval: string -> Option<Score>,
    lower: Word -> Word)

  predicate MoveHolds(t: Truth, claimed: string) {
    t.normalize(claimed).Some? && t.normalize(claimed).value in t.moves
  }

  predicate EvalHolds(t: Truth, claimed: string) {
    t.parseEval(claimed).Some? && exists i :: 0 <= i < |t.scores| && Agrees(t.parseEval(claimed).value, t.scores[i])
  }

  ghost predicate QuoteHolds(t: Truth, citation: seq<Word>, paragraph: seq<Word>) {
    Grounded(Tokens(Cleaner(t.lower), citation), Tokens(Cleaner(t.lower), paragraph))
  }

  /** A quoted move holds when some move of the lines is its normal form, a quoted evaluation
      when some score of the lines agrees with its reading. */
  lemma HoldsExactly(t: Truth, claimed: string)
    ensures MoveHolds(t, claimed) <==> exists m :: m in t.moves && t.normalize(claimed) == Some(m)
    ensures EvalHolds(t, claimed) <==>
              t.parseEval(claimed).Some? && exists s :: s in t.scores && Agrees(t.parseEval(claimed).value, s)
  {
    if t.parseEval(claimed).Some? {
      var v := t.parseEval(claimed).value;
      if s :| s in t.scores && Agrees(v, s) {
        var i :| 0 <= i < |t.scores| && t.scores[i] == s;
        assert Agrees(v, t.scores[i]);
      }
    }
  }

  datatype Verdict = Verdict(valid: bool, missingMoves: seq<string>, missingEvals: seq<string>,
                             ungrounded: seq<seq<Word>>)

  // The members of xs that fail, in order.
  function Failing<T>(xs: seq<T>, holds: T -> bool): (failed: seq<T>)
    ensures failed == [] <==> forall i :: 0 <= i < |xs| ==> holds(xs[i])
  {
    if xs == [] then []
    else
      assert xs == Init(xs) + [Last(xs)];
      if holds(Last(xs)) then Failing(Init(xs), holds) else Failing(Init(xs), holds) + [Last(xs)]
  }

  method CheckMoves(t: Truth, claimed: seq<string>) returns (missing: seq<string>)
    ensures missing == Failing(claimed, x => MoveHolds(t, x))
  {
    missing := [];
    for i := 0 to |claimed|
      invariant missing == Failing(claimed[..i], x => MoveHolds(t, x))
    {
      assert Init(claimed[..i + 1]) == claimed[..i];
      var norm := t.normalize(claimed[i]);
      if norm.None? {
        missing := missing + [claimed[i]];
      } else if norm.value !in t.moves {
        missing := missing + [claimed[i]];
      }
    }
    assert claimed[..|claimed|] == claimed;
  }

  method CheckEvals(t: Truth, claimed: seq<string>) returns (missing: seq<string>)
    ensures missing == Failing(claimed, x => EvalHolds(t, x))
  {
    missing := [];
    for i := 0 to |claimed|
      invariant missing == Failing(claimed[..i], x => EvalHolds(t, x))
    {
      assert Init(claimed[..i + 1]) == claimed[..i];
      var parsed := t.parseEval(claimed[i]);
      if parsed.None? {
        missing := missing + [claimed[i]];
      } else if !exists k :: 0 <= k < |t.scores| && Agrees(parsed.value, t.scores[k]) {
        missing := missing + [claimed[i]];
      }
    }
    assert claimed[..|claimed|] == claimed;
  }

  method CheckGroundings(t: Truth, cited: seq<seq<Word>>, paragraph: seq<Word>) returns (failed: seq<seq<Word>>)
    ensures failed == Failing(cited, x => QuoteHolds(t, x, paragraph))
  {
    failed := [];
    for i := 0 to |cited|
      invariant failed == Failing(cited[..i], x => QuoteHolds(t, x, paragraph))
    {
      assert Init(cited[..i + 1]) == cited[..i];
      var ok := CheckQuote(t, cited[i], paragraph);
      if !ok {
        failed := failed + [cited[i]];
      }
    }
    assert cited[..|cited|] == cited;
  }

  method CheckQuote(t: Truth, citation: seq<Word>, paragraph: seq<Word>) returns (ok: bool)
    ensures ok <==> QuoteHolds(t, citation, paragraph)
  {
    ok := GroundingSimilarityOk(t.lower, citation, paragraph);
  }

  /** A narration is valid exactly when every move it quotes is in the engine's lines,
      every evaluation is within tolerance of one of theirs, and, if a corpus paragraph
      was matched, every quoted sentence is grounded in it. */
  method ValidateCitations(t: Truth, moves: seq<string>, evals: seq<string>, cited: seq<seq<Word>>,
                           paragraph: Option<seq<Word>>) returns (v: Verdict)
    ensures v.valid <==>
            && (forall i :: 0 <= i < |moves| ==> MoveHolds(t, moves[i]))
            && (forall i :: 0 <= i < |evals| ==> EvalHolds(t, evals[i]))
            && (paragraph.Some? ==> forall i :: 0 <= i < |cited| ==> QuoteHolds(t, cited[i], paragraph.value))
    ensures v.missingMoves == Failing(moves, x => MoveHolds(t, x))
    ensures v.missingEvals == Failing(evals, x => EvalHolds(t, x))
    ensures v.ungrounded == if paragraph.None? then [] else Failing(cited, x => QuoteHolds(t, x, paragraph.value))
  {
    var missingMoves := CheckMoves(t, moves);
    var missingEvals := CheckEvals(t, evals);
    var ungrounded := [];
    if paragraph.Some? {
      ungrounded := CheckGroundings(t, cited, paragraph.value);
    }
    v := Verdict(|missingMoves| == 0 && |missingEvals| == 0 && |ungrounded| == 0,
                 missingMoves, missingEvals, ungrounded);
  }
}
