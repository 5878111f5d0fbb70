/**
  From a search's stream of info events to the lines of the answer: for every line number
  the first of the deepest events that carry a score and moves, in ascending order.
 */
module EngineLines {
  import opened Prelude
  import opened UciInfo

  datatype PvLine = PvLine(
    multipv: int, score: Score, depth: int, moves: seq<string>,
    nodes: Option<int>, timeMs: Option<int>, nps: Option<int>)

  datatype Answer = Answer(depthReached: int, lines: seq<PvLine>) | NoLines | BadLine

  predicate Usable(ev: InfoEvent) {
    ev.score.Some? && ev.pv != []
  }

  predicate NotNegative(n: Option<int>) {
    n.Some? ==> n.value >= 0
  }

  // What a line must satisfy to be made at all.
  predicate InBounds(ev: InfoEvent) {
    && ev.multipv >= 1 && ev.depth >= 1
    && NotNegative(ev.nodes) && NotNegative(ev.timeMs) && NotNegative(ev.nps)
  }

  // A line is made of every usable event, before it is known whether it will be kept.
  predicate MakesLine(ev: InfoEvent) {
    Usable(ev) ==> InBounds(ev)
  }

  /** Which events make a line and which are refused, field by field. */
  lemma EventsExactly(ev: InfoEvent)
    ensures Usable(ev) <==> ev.score != None && |ev.pv| > 0
    ensures MakesLine(ev) <==>
              || ev.score == None || |ev.pv| == 0
              || (&& 0 < ev.multipv && 0 < ev.depth
                  && (ev.nodes == None || 0 <= ev.nodes.value)
                  && (ev.timeMs == None || 0 <= ev.timeMs.value)
                  && (ev.nps == None || 0 <= ev.nps.value))
  {}

  function LineOf(ev: InfoEvent): PvLine
    requires Usable(ev)
  {
    PvLine(ev.multipv, ev.score.value, ev.depth, ev.pv, ev.nodes, ev.timeMs, ev.nps)
  }

  // ---------- the choice for one line number ----------

  // The event whose line is kept for line number k.
  function Kept(events: seq<InfoEvent>, k: int): (i: Option<nat>)
    ensures i.Some? ==> i.value < |events| && Usable(events[i.value]) && events[i.value].multipv == k
  {
    if events == [] then None
    else
      var n := |events| - 1;
      var before := Kept(events[..n], k);
      if Usable(events[n]) && events[n].multipv == k
        && (before.None? || events[n].depth > events[before.value].depth)
      then Some(n) else before
  }

  // Event i has line number k, and none of that number is deeper or earlier as deep.
  predicate FirstDeepest(events: seq<InfoEvent>, i: nat, k: int) {
    && i < |events| && Usable(events[i]) && events[i].multipv == k
    && (forall j :: 0 <= j < |events| && Usable(events[j]) && events[j].multipv == k ==>
          events[j].depth < events[i].depth || (events[j].depth == events[i].depth && i <= j))
  }

  /** The kept event is the first of the deepest usable ones, and there is none only if no
      event of that line number is usable. */
  lemma {:induction false} KeepsTheFirstDeepest(events: seq<InfoEvent>, k: int)
    ensures forall i: nat :: FirstDeepest(events, i, k) <==> Kept(events, k) == Some(i)
    ensures Kept(events, k) == None <==> forall i :: 0 <= i < |events| && Usable(events[i]) ==> events[i].multipv != k
  {
    if events != [] {
      var init := events[..|events| - 1];
      KeepsTheFirstDeepest(init, k);
      var kept := Kept(events, k);
      if kept.Some? {
        if Kept(init, k).Some? {
          assert FirstDeepest(init, Kept(init, k).value, k);
        }
        assert FirstDeepest(events, kept.value, k);
        forall i: nat | FirstDeepest(events, i, k) ensures i == kept.value {
          assert events[i].depth == events[kept.value].depth;
        }
      } else {
        assert forall i :: 0 <= i < |init| ==> init[i] == events[i];
      }
    }
  }

  // ---------- the answer ----------

  function Numbers(lines: seq<PvLine>): (ks: seq<int>)
    ensures |ks| == |lines|
  {
    seq(|lines|, n requires 0 <= n < |lines| => lines[n].multipv)
  }

  predicate Ascending(ks: seq<int>) {
    forall j, k :: 0 <= j < k < |ks| ==> ks[j] < ks[k]
  }

  // One line for every number heard of, in ascending order.
  ghost predicate Chosen(events: seq<InfoEvent>, lines: seq<PvLine>) {
    && Ascending(Numbers(lines))
    && (forall k :: k in Numbers(lines) <==> Kept(events, k).Some?)
    && (forall n :: 0 <= n < |lines| ==> KeptLine(events, lines[n]))
  }

  predicate KeptLine(events: seq<InfoEvent>, line: PvLine) {
    var i := Kept(events, line.multipv);
    i.Some? && line == LineOf(events[i.value])
  }

  /** The answer's lines, or an error: exactly when some usable event is out of bounds, or
      when no event is usable. */
  method ChooseLines(events: seq<InfoEvent>) returns (answer: Answer)
    ensures answer.BadLine? <==> exists i :: 0 <= i < |events| && !MakesLine(events[i])
    ensures answer.NoLines? <==> forall i :: 0 <= i < |events| ==> !Usable(events[i])
    ensures answer.Answer? ==> answer.lines != [] && Chosen(events, answer.lines)
    ensures answer.Answer? ==> answer.depthReached == Deepest(answer.lines)
  {
    var pvs := Collect(events);
    if pvs == None {
      return BadLine;
    }
    var lines := InOrder(events, pvs.value);
    if lines == [] {
      NothingUsable(events);
      return NoLines;
    }
    assert KeptLine(events, lines[0]);
    return Answer(Deepest(lines), lines);
  }

  lemma NothingUsable(events: seq<InfoEvent>)
    requires forall k :: Kept(events, k).None?
    ensures forall i :: 0 <= i < |events| ==> !Usable(events[i])
  {
    forall i | 0 <= i < |events| ensures !Usable(events[i]) {
      KeepsTheFirstDeepest(events, events[i].multipv);
    }
  }

  // The kept lines in the order of their numbers.
  method InOrder(events: seq<InfoEvent>, pvs: map<int, PvLine>) returns (lines: seq<PvLine>)
    requires Keeps(events, pvs)
    ensures Chosen(events, lines)
    ensures lines == [] ==> forall k :: Kept(events, k).None?
  {
    var keys := SortedKeys(pvs);
    lines := [];
    for n := 0 to |keys|
      invariant Numbers(lines) == keys[..n]
      invariant forall m :: 0 <= m < |lines| ==> KeptLine(events, lines[m])
    {
      assert keys[n] in keys;
      lines := lines + [pvs[keys[n]]];
      assert Numbers(lines) == keys[..n] + [keys[n]];
    }
    assert keys[..|keys|] == keys;
  }

  // The kept line of every number heard of.
  ghost predicate Keeps(events: seq<InfoEvent>, pvs: map<int, PvLine>) {
    && (forall k :: k in pvs <==> Kept(events, k).Some?)
    && (forall k :: k in pvs ==> pvs[k].multipv == k && KeptLine(events, pvs[k]))
  }

  // The loop over the events, keeping the deepest line per number; the first line that
  // cannot be made ends it.
  method Collect(events: seq<InfoEvent>) returns (pvs: Option<map<int, PvLine>>)
    ensures pvs.Some? <==> forall i :: 0 <= i < |events| ==> MakesLine(events[i])
    ensures pvs.Some? ==> Keeps(events, pvs.value)
  {
    var kept: map<int, PvLine> := map[];
    for n := 0 to |events|
      invariant forall i :: 0 <= i < n ==> MakesLine(events[i])
      invariant Keeps(events[..n], kept)
    {
      var ev := events[n];
      assert events[..n + 1] == events[..n] + [ev];
      if Usable(ev) && !InBounds(ev) {
        return None;
      }
      kept := KeepIfDeeper(events[..n], kept, ev);
    }
    assert events[..|events|] == events;
    return Some(kept);
  }

  // One turn of the loop, for a line that can be made.
  method KeepIfDeeper(ghost before: seq<InfoEvent>, kept: map<int, PvLine>, ev: InfoEvent)
    returns (now: map<int, PvLine>)
    requires Keeps(before, kept)
    ensures Keeps(before + [ev], now)
  {
    now := kept;
    if Usable(ev) && (ev.multipv !in kept || ev.depth > kept[ev.multipv].depth) {
      NewLineKept(before, kept, ev);
      now := kept[ev.multipv := LineOf(ev)];
    } else {
      OldLinesKept(before, kept, ev);
    }
  }

  lemma NewLineKept(events: seq<InfoEvent>, kept: map<int, PvLine>, ev: InfoEvent)
    requires Keeps(events, kept)
    requires Usable(ev) && (ev.multipv !in kept || ev.depth > kept[ev.multipv].depth)
    ensures Keeps(events + [ev], kept[ev.multipv := LineOf(ev)])
  {
    assert (events + [ev])[..|events|] == events;
  }

  lemma OldLinesKept(events: seq<InfoEvent>, kept: map<int, PvLine>, ev: InfoEvent)
    requires Keeps(events, kept)
    requires Usable(ev) ==> ev.multipv in kept && ev.depth <= kept[ev.multipv].depth
    ensures Keeps(events + [ev], kept)
  {
    assert (events + [ev])[..|events|] == events;
  }

  method SortedKeys(pvs: map<int, PvLine>) returns (keys: seq<int>)
    ensures forall k :: k in keys <==> k in pvs
    ensures Ascending(keys)
  {
    keys := [];
    var left := pvs.Keys;
    while left != {}
      invariant left <= pvs.Keys
      invariant forall k :: k in keys <==> k in pvs && k !in left
      invariant forall j, k :: 0 <= j < |keys| && k in left ==> keys[j] < k
      invariant Ascending(keys)
      decreases |left|
    {
      LeastExists(left);
      var k :| k in left && forall other :: other in left ==> k <= other;
      keys := keys + [k];
      left := left - {k};
    }
  }

  lemma {:induction false} LeastExists(xs: set<int>)
    requires xs != {}
    ensures exists k :: k in xs && forall other :: other in xs ==> k <= other
    decreases |xs|
  {
    var x := SomeOf(xs);
    var rest := xs - {x};
    assert forall other :: other in xs ==> other == x || other in rest;
    if rest != {} {
      LeastExists(rest);
      var k :| k in rest && forall other :: other in rest ==> k <= other;
      assert k in xs;
      assert forall other :: other in xs ==> Min(k, x) <= other;
    }
  }

  ghost function SomeOf<T>(xs: set<T>): (x: T)
    requires xs != {}
    ensures x in xs
  {
    var x :| x in xs;
    x
  }

  function Deepest(lines: seq<PvLine>): int
    requires lines != []
  {
    if |lines| == 1 then lines[0].depth else Max(Deepest(lines[..|lines| - 1]), lines[|lines| - 1].depth)
  }

  lemma {:induction false} DeepestOfLines(lines: seq<PvLine>)
    requires lines != []
    ensures exists line :: line in lines && line.depth == Deepest(lines)
    ensures forall line :: line in lines ==> line.depth <= Deepest(lines)
  {
    if |lines| == 1 {
      assert lines[0] in lines;
    } else {
      var init, last := lines[..|lines| - 1], lines[|lines| - 1];
      DeepestOfLines(init);
      assert lines == init + [last];
      assert last in lines;
    }
  }

  /** The reported depth is the greatest of any usable event. */
  lemma DepthIsReached(events: seq<InfoEvent>, lines: seq<PvLine>)
    requires Chosen(events, lines) && lines != []
    ensures exists i :: 0 <= i < |events| && Usable(events[i]) && events[i].depth == Deepest(lines)
    ensures forall i :: 0 <= i < |events| && Usable(events[i]) ==> events[i].depth <= Deepest(lines)
  {
    DeepestOfLines(lines);
    var line :| line in lines && line.depth == Deepest(lines);
    assert KeptLine(events, line);
    forall i | 0 <= i < |events| && Usable(events[i]) ensures events[i].depth <= Deepest(lines) {
      var k := events[i].multipv;
      KeepsTheFirstDeepest(events, k);
      assert FirstDeepest(events, Kept(events, k).value, k);
      assert k in Numbers(lines);
      var n :| 0 <= n < |lines| && Numbers(lines)[n] == k;
      assert KeptLine(events, lines[n]) && lines[n] in lines;
    }
  }

  /** A line of the answer is the first of the deepest usable events of its number, field by
      field. */
  lemma LinesAreEvents(events: seq<InfoEvent>, lines: seq<PvLine>, n: nat) returns (i: nat)
    requires Chosen(events, lines) && n < |lines|
    ensures FirstDeepest(events, i, lines[n].multipv)
    ensures var ev, line := events[i], lines[n];
            && ev.score == Some(line.score) && ev.pv == line.moves && ev.depth == line.depth
            && ev.nodes == line.nodes && ev.timeMs == line.timeMs && ev.nps == line.nps
  {
    assert KeptLine(events, lines[n]);
    i := Kept(events, lines[n].multipv).value;
    KeepsTheFirstDeepest(events, lines[n].multipv);
  }

  /** The events determine the lines: no other list is chosen from them. */
  lemma ChoiceIsUnique(events: seq<InfoEvent>, lines: seq<PvLine>, others: seq<PvLine>)
    requires Chosen(events, lines) && Chosen(events, others)
    ensures lines == others
  {
    SameNumbers(Numbers(lines), Numbers(others));
    forall n | 0 <= n < |lines| ensures lines[n] == others[n] {
      assert Numbers(lines)[n] == Numbers(others)[n];
      assert KeptLine(events, lines[n]) && KeptLine(events, others[n]);
    }
  }

  lemma {:induction false} SameNumbers(ks: seq<int>, ls: seq<int>)
    requires Ascending(ks) && Ascending(ls)
    requires forall k: int :: k in ks <==> k in ls
    ensures ks == ls
  {
    if ks != [] {
      NotEmpty(ks, ls);
    }
    if ls != [] {
      NotEmpty(ls, ks);
      var fewer, rest := ks[..|ks| - 1], ls[..|ls| - 1];
      var k, l := ks[|ks| - 1], ls[|ls| - 1];
      assert k in ks && k in ls && l in ls && l in ks;
      AllButLast(ks);
      AllButLast(ls);
      assert k == l;
      forall x: int | x in fewer ensures x in rest {
        assert x in ks;
      }
      forall x: int | x in rest ensures x in fewer {
        assert x in ls;
      }
      SameNumbers(fewer, rest);
    }
  }

  lemma NotEmpty(ks: seq<int>, ls: seq<int>)
    requires ks != [] && forall k: int :: k in ks ==> k in ls
    ensures ls != []
  {
    var k := ks[0];
    assert k in ks;
  }

  lemma AllButLast(ks: seq<int>)
    requires ks != [] && Ascending(ks)
    ensures Ascending(ks[..|ks| - 1])
    ensures forall k: int :: k in ks[..|ks| - 1] <==> k in ks && k != ks[|ks| - 1]
    ensures forall k: int :: k in ks ==> k <= ks[|ks| - 1]
    ensures ks == ks[..|ks| - 1] + [ks[|ks| - 1]]
  {
    assert ks == ks[..|ks| - 1] + [ks[|ks| - 1]];
  }
}
