/**
  Assembling the lines of a multi-variation analysis from the engine's info messages.

  An engine that searches k best moves reports them one message at a time, and a reader
  loop collects them into a buffer. `EngineProcess` holds the state of the collection;
  `Run` is its life over any stream of messages and option changes.
 */
module MultiPv {
  import opened Prelude

  /** A parsed info message; `bounded` when its score is only a lower or upper bound. */
  datatype Line = Line(multipv: nat, depth: nat, bounded: bool, uciMoves: seq<string>)

  datatype Collector = Collector(buffer: seq<Line>, lastDepth: nat, lastBest: seq<Line>, realMultipv: nat)

  // The buffer holds lines 1, 2, ..., in order.
  predicate Numbered(lines: seq<Line>) {
    forall i :: 0 <= i < |lines| ==> lines[i].multipv == i + 1
  }

  predicate SameDepth(lines: seq<Line>, depth: nat) {
    forall i :: 0 <= i < |lines| ==> lines[i].depth == depth
  }

  /** A set of lines fit to be shown: lines 1 to k, none missing, all of one depth. */
  predicate Complete(lines: seq<Line>, k: nat, depth: nat) {
    |lines| == k > 0 && Numbered(lines) && SameDepth(lines, depth)
  }

  /** How a fresh collector takes in one message: the new collector, and the set of lines
      published, if any. `open` is the answer of the rate limiter. */
  function Taken(c: Collector, line: Line, open: bool): (Collector, Option<seq<Line>>) {
    if line.bounded || line.multipv != |c.buffer| + 1 then (c, None)
    else
      var lines := c.buffer + [line];
      if line.multipv != c.realMultipv then (c.(buffer := lines), None)
      else if SameDepth(lines, line.depth) && line.depth >= c.lastDepth && open then
        (c.(buffer := [], lastDepth := line.depth, lastBest := lines), Some(lines))
      else (c.(buffer := []), None)
  }

  /** How far a change of options gets: the position may be unreadable or the variant not
      be sent, or an option or the position not be sent. */
  datatype Sending = NotBegun | BrokenOff | Done

  function AfterOptions(c: Collector, lines: nat, sending: Sending): Collector {
    match sending
    case NotBegun => c
    case BrokenOff => c.(realMultipv := lines)
    case Done => Collector([], 0, [], lines)
  }

  class EngineProcess {
    var bestMoves: seq<Line>
    var lastDepth: nat
    var lastBestMoves: seq<Line>
    var realMultipv: nat

    ghost function State(): Collector
      reads this
    {
      Collector(bestMoves, lastDepth, lastBestMoves, realMultipv)
    }

    constructor ()
      ensures State() == Collector([], 0, [], 0)
    {
      bestMoves, lastDepth, lastBestMoves, realMultipv := [], 0, [], 0;
    }

    /** The number of lines asked for, limited by the number of legal moves. A failure
        before that number is known changes nothing; one in sending an option or the
        position to the engine leaves only that number changed. */
    method SetOptions(multipv: nat, legalMoves: nat, sending: Sending) returns (ok: bool)
      modifies this
      ensures ok == sending.Done?
      ensures State() == AfterOptions(old(State()), Min(multipv, legalMoves), sending)
    {
      if sending == NotBegun {
        return false;
      }
      realMultipv := Min(multipv, legalMoves);
      if sending == BrokenOff {
        return false;
      }
      lastDepth := 0;
      bestMoves := [];
      lastBestMoves := [];
      return true;
    }

    method AllAtDepth(depth: nat) returns (all: bool)
      ensures all == SameDepth(bestMoves, depth)
    {
      for i := 0 to |bestMoves|
        invariant SameDepth(bestMoves[..i], depth)
      {
        if bestMoves[i].depth != depth {
          return false;
        }
      }
      return true;
    }

    /** One info message, as the live analysis takes it. */
    method OnInfo(line: Line, open: bool) returns (published: Option<seq<Line>>)
      modifies this
      ensures (State(), published) == Taken(old(State()), line, open)
    {
      if line.bounded {
        return None;
      }
      published := None;
      if line.multipv == |bestMoves| + 1 {
        bestMoves := bestMoves + [line];
        if line.multipv == realMultipv {
          var even := AllAtDepth(line.depth);
          if even && line.depth >= lastDepth && open {
            published := Some(bestMoves);
            lastDepth := line.depth;
            lastBestMoves := bestMoves;
          }
          bestMoves := [];
        }
      }
    }

    /** One info message, as the analysis of a whole game takes it: bounds count as
        scores, there is no rate limiter, and the length of a full buffer is asserted. */
    method OnInfoInGame(line: Line) returns (published: Option<seq<Line>>)
      requires Numbered(bestMoves)
      modifies `bestMoves, `lastDepth
      ensures Numbered(bestMoves)
      ensures published.Some? ==> Complete(published.value, realMultipv, lastDepth) && lastDepth >= old(lastDepth)
      ensures published.None? ==> lastDepth == old(lastDepth)
      ensures published.Some? <==>
                line.multipv == |old(bestMoves)| + 1 == realMultipv
                && SameDepth(old(bestMoves) + [line], line.depth) && line.depth >= old(lastDepth)
      ensures published.Some? ==> published.value == old(bestMoves) + [line]
      ensures bestMoves == if line.multipv != |old(bestMoves)| + 1 then old(bestMoves)
                           else if line.multipv == realMultipv then []
                           else old(bestMoves) + [line]
    {
      published := None;
      if line.multipv == |bestMoves| + 1 {
        bestMoves := bestMoves + [line];
        if line.multipv == realMultipv {
          var even := AllAtDepth(line.depth);
          if even && line.depth >= lastDepth {
            published := Some(bestMoves);
            lastDepth := line.depth;
          }
          assert |bestMoves| == realMultipv;  // the source's assert_eq!
          bestMoves := [];
        }
      }
    }
  }

  // ---------- whole runs ----------

  datatype Event =
    | Info(line: Line, open: bool)
    | Options(realMultipv: nat, sending: Sending)
    | BestMove

  // What the user interface is sent: a set of lines.
  datatype Step = Step(c: Collector, published: Option<seq<Line>>)

  function Apply(c: Collector, ev: Event): Step {
    match ev
    case Info(line, open) => var (c', published) := Taken(c, line, open); Step(c', published)
    case Options(lines, sending) => Step(AfterOptions(c, lines, sending), None)
    case BestMove => Step(c, Some(c.lastBest))
  }

  function Run(c: Collector, evs: seq<Event>): Collector {
    if evs == [] then c else Apply(Run(c, evs[..|evs| - 1]), evs[|evs| - 1]).c
  }

  const FRESH: Collector := Collector([], 0, [], 0)

  // Whatever happens: the buffer is lines 1, 2, ... in order, and the last published set,
  // which a best-move message publishes again, is empty or complete.
  predicate Orderly(c: Collector) {
    && Numbered(c.buffer)
    && (c.lastBest == [] || Complete(c.lastBest, |c.lastBest|, c.lastDepth))
  }

  // Without failed option changes, the buffer stays shorter than a full set, and the last
  // published set is a full one.
  predicate Collecting(c: Collector) {
    && Orderly(c)
    && |c.buffer| < c.realMultipv
    && (c.lastBest == [] || |c.lastBest| == c.realMultipv)
  }

  lemma OrderlyStep(c: Collector, ev: Event)
    requires Orderly(c)
    ensures Orderly(Apply(c, ev).c)
    ensures var p := Apply(c, ev).published;
            p.Some? && p.value != [] ==> Complete(p.value, |p.value|, Apply(c, ev).c.lastDepth)
    ensures ev.Info? ==> Apply(c, ev).c.lastDepth >= c.lastDepth
    ensures ev.Info? && Apply(c, ev).published.Some? ==> |Apply(c, ev).published.value| == c.realMultipv
  {}

  /** Over every stream of messages and option changes, failed ones included: every
      published set that is not empty is a complete set of lines of one depth, in order. */
  lemma {:induction false} PublishedSetsAreComplete(evs: seq<Event>, ev: Event)
    ensures Orderly(Run(FRESH, evs))
    ensures var step := Apply(Run(FRESH, evs), ev);
            step.published.Some? && step.published.value != [] ==>
              Complete(step.published.value, |step.published.value|, step.c.lastDepth)
  {
    if evs != [] {
      var before := evs[..|evs| - 1];
      PublishedSetsAreComplete(before, evs[|evs| - 1]);
      OrderlyStep(Run(FRESH, before), evs[|evs| - 1]);
    }
    OrderlyStep(Run(FRESH, evs), ev);
  }

  /** Published depths never decrease until the options change. */
  lemma {:induction false} DepthNeverDecreases(c: Collector, evs: seq<Event>)
    requires forall ev :: ev in evs ==> !ev.Options?
    ensures Run(c, evs).lastDepth >= c.lastDepth
  {
    if evs != [] {
      DepthNeverDecreases(c, evs[..|evs| - 1]);
    }
  }

  predicate Successful(ev: Event) {
    ev.Options? ==> ev.sending == Done && ev.realMultipv >= 1
  }

  /** Once the options have been set, and as long as every change of them succeeds: the
      buffer is shorter than a full set, and every set published that is not empty is
      exactly lines 1 to realMultipv. */
  lemma {:induction false} CollectsFullSets(c: Collector, evs: seq<Event>, ev: Event)
    requires Collecting(c) && Successful(ev) && forall e :: e in evs ==> Successful(e)
    ensures Collecting(Run(c, evs))
    ensures var step := Apply(Run(c, evs), ev);
            step.published.Some? && step.published.value != [] ==>
              Complete(step.published.value, Run(c, evs).realMultipv, step.c.lastDepth)
  {
    if evs == [] {
    } else {
      CollectsFullSets(c, evs[..|evs| - 1], evs[|evs| - 1]);
      CollectingStep(Run(c, evs[..|evs| - 1]), evs[|evs| - 1]);
    }
    CollectingStep(Run(c, evs), ev);
  }

  lemma CollectingStep(c: Collector, ev: Event)
    requires Collecting(c) && Successful(ev)
    ensures Collecting(Apply(c, ev).c)
    ensures var p := Apply(c, ev).published;
            p.Some? && p.value != [] ==> Complete(p.value, c.realMultipv, Apply(c, ev).c.lastDepth)
  {}

  /** What is published, and when: the buffer completed by the new line, exactly when that
      line carries a score, is the last one asked for, is as deep as all the others and no
      less deep than what was published before, and the rate limiter is open. */
  lemma PublishesExactly(c: Collector, line: Line, open: bool)
    ensures var p := Taken(c, line, open).1;
            && (p.Some? <==>
                  && !line.bounded && open && line.multipv == |c.buffer| + 1 == c.realMultipv
                  && line.depth >= c.lastDepth
                  && forall i :: 0 <= i < |c.buffer| ==> c.buffer[i].depth == line.depth)
            && (p.Some? ==> p.value == c.buffer + [line])
  {
    var lines := c.buffer + [line];
    assert forall i :: 0 <= i < |c.buffer| ==> lines[i] == c.buffer[i];
  }

  function WithoutBounds(evs: seq<Event>): seq<Event> {
    if evs == [] then []
    else
      var init, ev := WithoutBounds(evs[..|evs| - 1]), evs[|evs| - 1];
      if ev.Info? && ev.line.bounded then init else init + [ev]
  }

  /** Scores that are only bounds leave no trace. */
  lemma {:induction false} BoundsLeaveNoTrace(c: Collector, evs: seq<Event>)
    ensures Run(c, evs) == Run(c, WithoutBounds(evs))
    ensures forall line: Line, open: bool :: line.bounded ==> Taken(Run(c, evs), line, open) == (Run(c, evs), None)
  {
    if evs == [] {
    } else {
      var init, ev := evs[..|evs| - 1], evs[|evs| - 1];
      BoundsLeaveNoTrace(c, init);
      if !(ev.Info? && ev.line.bounded) {
        RunSnoc(c, WithoutBounds(init), ev);
      }
    }
  }

  // ---------- a failed change of options ----------

  // Some further messages make the collector publish a new set.
  ghost predicate CanPublish(c: Collector) {
    exists evs, line :: Publishes(c, evs, line)
  }

  predicate Publishes(c: Collector, evs: seq<Event>, line: Line) {
    (forall ev :: ev in evs ==> !ev.Options?) && Taken(Run(c, evs), line, true).1.Some?
  }

  lemma {:induction false} OverfullStaysOverfull(c: Collector, evs: seq<Event>)
    requires |c.buffer| >= c.realMultipv
    requires forall ev :: ev in evs ==> !ev.Options?
    ensures |Run(c, evs).buffer| >= Run(c, evs).realMultipv
  {
    if evs != [] {
      OverfullStaysOverfull(c, evs[..|evs| - 1]);
    }
  }

  // Messages for lines from + 1 to upTo, all at depth d.
  function Fill(from: nat, upTo: nat, d: nat): seq<Event>
    requires from <= upTo
  {
    if from == upTo then [] else Fill(from, upTo - 1, d) + [Info(Line(upTo, d, false, []), true)]
  }

  lemma {:induction false} FillFills(c: Collector, upTo: nat, d: nat)
    requires |c.buffer| <= upTo < c.realMultipv
    ensures forall ev :: ev in Fill(|c.buffer|, upTo, d) ==> ev.Info?
    ensures var r := Run(c, Fill(|c.buffer|, upTo, d));
            && |r.buffer| == upTo && r == c.(buffer := r.buffer)
            && (c.buffer == [] ==> SameDepth(r.buffer, d))
  {
    if upTo == |c.buffer| {
    } else {
      FillFills(c, upTo - 1, d);
      var init, ev := Fill(|c.buffer|, upTo - 1, d), Info(Line(upTo, d, false, []), true);
      RunSnoc(c, init, ev);
      OneMoreLine(Run(c, init), upTo, d);
      SameDepthSnoc(if c.buffer == [] then Run(c, init).buffer else [], ev.line);
    }
  }

  lemma RunSnoc(c: Collector, evs: seq<Event>, ev: Event)
    ensures Run(c, evs + [ev]) == Apply(Run(c, evs), ev).c
  {
    assert (evs + [ev])[..|evs|] == evs;
  }

  // The next line is taken, short of the last one.
  lemma OneMoreLine(c: Collector, n: nat, d: nat)
    requires n == |c.buffer| + 1 < c.realMultipv
    ensures Apply(c, Info(Line(n, d, false, []), true)).c == c.(buffer := c.buffer + [Line(n, d, false, [])])
  {}

  lemma {:induction false} RunConcat(c: Collector, one: seq<Event>, two: seq<Event>)
    ensures Run(c, one + two) == Run(Run(c, one), two)
  {
    if two == [] {
      assert one + two == one;
    } else {
      RunConcat(c, one, two[..|two| - 1]);
      assert (one + two)[..|one + two| - 1] == one + two[..|two| - 1];
    }
  }

  /** The collector can publish again exactly when its buffer is shorter than a full set.
      After a failed change of options it may not be: a buffer that has already outgrown
      the new number of lines is emptied only when the options are set again. */
  lemma CanPublishExactly(c: Collector)
    ensures CanPublish(c) <==> |c.buffer| < c.realMultipv
  {
    if |c.buffer| >= c.realMultipv {
      forall evs: seq<Event>, line ensures !Publishes(c, evs, line) {
        if forall ev :: ev in evs ==> !ev.Options? {
          OverfullStaysOverfull(c, evs);
        }
      }
    } else {
      var evs, line := RoomToPublish(c);
    }
  }

  function Reported(multipv: nat): Event {
    Info(Line(multipv, 1, false, []), true)
  }

  /** The run that leads there: three lines are asked for and two have come, when a change
      to two lines is broken off. */
  lemma BrokenOffChangeBlocks()
    ensures var c := Run(FRESH, [Options(3, Done), Reported(1), Reported(2), Options(2, BrokenOff)]);
            |c.buffer| == 2 == c.realMultipv && !CanPublish(c)
  {
    var evs := [Options(3, Done), Reported(1), Reported(2), Options(2, BrokenOff)];
    assert evs[..3] == [Options(3, Done), Reported(1), Reported(2)];
    assert evs[..3][..2] == [Options(3, Done), Reported(1)];
    assert [Options(3, Done), Reported(1)][..1] == [Options(3, Done)];
    assert Run(FRESH, [Options(3, Done)]) == Collector([], 0, [], 3);
    assert |Run(FRESH, evs[..3][..2]).buffer| == 1;
    assert |Run(FRESH, evs[..3]).buffer| == 2;
    CanPublishExactly(Run(FRESH, evs));
  }

  // One round of messages empties the buffer, ...
  lemma RoundEmpties(c: Collector) returns (evs: seq<Event>)
    requires |c.buffer| < c.realMultipv
    ensures forall ev :: ev in evs ==> ev.Info?
    ensures Run(c, evs) == c.(buffer := [], lastBest := Run(c, evs).lastBest)
  {
    var k, d := c.realMultipv, c.lastDepth;
    var fill := Fill(|c.buffer|, k - 1, d);
    FillFills(c, k - 1, d);
    evs := fill + [Info(Line(k, d, false, []), true)];
    assert evs[..|evs| - 1] == fill;
  }

  // ... and the next one is published.
  lemma RoundPublishes(c: Collector) returns (evs: seq<Event>, line: Line)
    requires c.buffer == [] && c.realMultipv > 0
    ensures forall ev :: ev in evs ==> ev.Info?
    ensures Taken(Run(c, evs), line, true).1.Some?
  {
    var k, d := c.realMultipv, c.lastDepth;
    line := Line(k, d, false, []);
    evs := Fill(0, k - 1, d);
    FillFills(c, k - 1, d);
    SameDepthSnoc(Run(c, evs).buffer, line);
  }

  lemma RoomToPublish(c: Collector) returns (evs: seq<Event>, line: Line)
    requires |c.buffer| < c.realMultipv
    ensures Publishes(c, evs, line)
  {
    var round := RoundEmpties(c);
    var again, last := RoundPublishes(Run(c, round));
    RunConcat(c, round, again);
    evs, line := round + again, last;
  }

  lemma SameDepthSnoc(lines: seq<Line>, line: Line)
    requires SameDepth(lines, line.depth)
    ensures SameDepth(lines + [line], line.depth)
  {}
}
