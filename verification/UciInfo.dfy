/**
  Reading an engine's `info` lines.

  The parser walks over the words of a line with an index, taking one, two, three or all
  of the remaining words at a time. Its meaning is given in two parts: how the words fall
  into items, which is a bijection between lines and well-formed lists of items, and what
  a list of items says.
 */
module UciInfo {
  import opened Prelude

  datatype Score = Score(kind: string, value: int)

  // A score can be made of no other kind.
  predicate IsKind(kind: string) {
    kind == "cp" || kind == "mate"
  }

  datatype InfoEvent = InfoEvent(
    depth: int, multipv: int, seldepth: Option<int>, score: Option<Score>,
    nodes: Option<int>, nps: Option<int>, timeMs: Option<int>, pv: seq<string>)

  // The fields that hold one whole number.
  datatype Key = Depth | Seldepth | MultiPv | Nodes | Nps | Time

  datatype Fields = Fields(numbers: map<Key, int>, score: Option<Score>, pv: Option<seq<string>>)

  const NO_FIELDS := Fields(map[], None, None)

  // What reads a number: nothing where the text is not one.
  type IntReader = string -> Option<int>

  function KeyOf(word: string): Option<Key> {
    if word == "depth" then Some(Depth)
    else if word == "seldepth" then Some(Seldepth)
    else if word == "multipv" then Some(MultiPv)
    else if word == "nodes" then Some(Nodes)
    else if word == "nps" then Some(Nps)
    else if word == "time" then Some(Time)
    else None
  }

  function Name(key: Key): (word: string)
    ensures KeyOf(word) == Some(key)
  {
    match key
    case Depth => "depth"
    case Seldepth => "seldepth"
    case MultiPv => "multipv"
    case Nodes => "nodes"
    case Nps => "nps"
    case Time => "time"
  }

  predicate IsIgnored(word: string) {
    || word == "hashfull" || word == "tbhits" || word == "currmove" || word == "currmovenumber"
    || word == "cpuload" || word == "refutation" || word == "currline"
  }

  // ---------- items ----------

  datatype Item =
    | Number(key: Key, text: string)
    | Scored(kind: string, text: string)
    | Ignored(name: string, arg: string)
    | Moves(pv: seq<string>)
    | Display(rest: seq<string>)
    | Word(word: string)

  function Words(item: Item): seq<string> {
    match item
    case Number(key, text) => [Name(key), text]
    case Scored(kind, text) => ["score", kind, text]
    case Ignored(name, arg) => [name, arg]
    case Moves(pv) => ["pv"] + pv
    case Display(rest) => ["string"] + rest
    case Word(word) => [word]
  }

  function Render(items: seq<Item>): seq<string> {
    if items == [] then [] else Words(items[0]) + Render(items[1..])
  }

  // The item at the front of some words: one, two, three or all of them.
  function First(words: seq<string>): (item: Item)
    requires words != []
    ensures Words(item) <= words && Words(item) != []
  {
    if KeyOf(words[0]).Some? && |words| >= 2 then
      NameOfKey(words[0]);
      Number(KeyOf(words[0]).value, words[1])
    else if words[0] == "score" && |words| >= 3 then Scored(words[1], words[2])
    else if IsIgnored(words[0]) && |words| >= 2 then Ignored(words[0], words[1])
    else if words[0] == "pv" then Moves(words[1..])
    else if words[0] == "string" then Display(words[1..])
    else Word(words[0])
  }

  // How the words of a line fall into items.
  function Items(words: seq<string>): seq<Item>
    decreases |words|
  {
    if words == [] then [] else [First(words)] + Items(words[|Words(First(words))|..])
  }

  // The number of words a word takes along with it, when that many are left.
  function Takes(word: string): nat {
    if KeyOf(word).Some? || IsIgnored(word) then 1 else if word == "score" then 2 else 0
  }

  // An item that may stand before the given items: moves and display text take all the
  // words that are left, and a keyword is a plain word only where its arguments are cut off.
  predicate Fits(item: Item, after: seq<Item>) {
    match item
    case Number(_, _) => true
    case Scored(_, _) => true
    case Ignored(name, _) => IsIgnored(name)
    case Moves(_) => after == []
    case Display(_) => after == []
    case Word(word) =>
      && word != "pv" && word != "string"
      && (Takes(word) > 0 ==> |Render(after)| < Takes(word))
  }

  predicate WellFormed(items: seq<Item>) {
    items == [] || (Fits(items[0], items[1..]) && WellFormed(items[1..]))
  }

  /** Every line is the rendering of a well-formed list of items. */
  lemma {:induction false} RenderItems(words: seq<string>)
    ensures Render(Items(words)) == words
    ensures WellFormed(Items(words))
    decreases |words|
  {
    if words != [] {
      var first := First(words);
      var rest := words[|Words(first)|..];
      RenderItems(rest);
      assert words == Words(first) + rest;
      FirstFits(words);
    }
  }

  lemma FirstFits(words: seq<string>)
    requires words != []
    requires var rest := words[|Words(First(words))|..]; Render(Items(rest)) == rest
    ensures Fits(First(words), Items(words[|Words(First(words))|..]))
  {
  }

  lemma NameOfKey(word: string)
    ensures KeyOf(word).Some? ==> Name(KeyOf(word).value) == word
  {
  }

  /** And of only one: the items come back from their words. */
  lemma {:induction false} ItemsRender(items: seq<Item>)
    requires WellFormed(items)
    ensures Items(Render(items)) == items
  {
    if items != [] {
      var rest := items[1..];
      assert items == [items[0]] + rest;
      ItemsRender(rest);
      var words := Render(items);
      FirstBack(items[0], rest);
      assert words[|Words(items[0])|..] == Render(rest);
    }
  }

  lemma FirstBack(item: Item, after: seq<Item>)
    requires Fits(item, after)
    ensures First(Words(item) + Render(after)) == item
  {
    var words := Words(item) + Render(after);
    assert words[0] == Words(item)[0];
    if item.Moves? || item.Display? {
      assert Render(after) == [];
      assert words[1..] == Words(item)[1..];
    }
  }

  // ---------- what the items say ----------

  // One item's entry in the fields; nothing when its number or its kind of score cannot be read.
  function Put(fields: Fields, item: Item, intOf: IntReader): Option<Fields> {
    match item
    case Number(key, text) =>
      (match intOf(text)
       case Some(n) => Some(fields.(numbers := fields.numbers[key := n]))
       case None => None)
    case Scored(kind, text) =>
      (match intOf(text)
       case Some(n) => if IsKind(kind) then Some(fields.(score := Some(Score(kind, n)))) else None
       case None => None)
    case Moves(pv) => Some(fields.(pv := Some(pv)))
    case _ => Some(fields)
  }

  function Reading(items: seq<Item>, intOf: IntReader): Option<Fields> {
    if items == [] then Some(NO_FIELDS)
    else
      match Reading(items[..|items| - 1], intOf)
      case Some(fields) => Put(fields, items[|items| - 1], intOf)
      case None => None
  }

  function At(fields: Fields, key: Key): Option<int> {
    if key in fields.numbers then Some(fields.numbers[key]) else None
  }

  // A line without a depth says nothing.
  function Event(fields: Fields): Option<InfoEvent> {
    match At(fields, Depth)
    case None => None
    case Some(depth) =>
      Some(InfoEvent(
        depth,
        if At(fields, MultiPv).Some? then At(fields, MultiPv).value else 1,
        At(fields, Seldepth), fields.score, At(fields, Nodes), At(fields, Nps), At(fields, Time),
        if fields.pv.Some? then fields.pv.value else []))
  }

  datatype Parsed = Parsed(event: Option<InfoEvent>) | ValueError

  function Outcome(reading: Option<Fields>): Parsed {
    if reading.Some? then Parsed(Event(reading.value)) else ValueError
  }

  function Meaning(parts: seq<string>, intOf: IntReader): Parsed {
    if parts == [] || parts[0] != "info" then Parsed(None)
    else Outcome(Reading(Items(parts[1..]), intOf))
  }

  // ---------- the parser ----------

  /** The scan over the words of a line. */
  method ParseInfo(parts: seq<string>, intOf: IntReader) returns (r: Parsed)
    ensures r == Meaning(parts, intOf)
  {
    if parts == [] || parts[0] != "info" {
      return Parsed(None);
    }
    var fields := NO_FIELDS;
    var i := 1;
    ghost var done: seq<Item> := [];
    while i < |parts|
      invariant 1 <= i <= |parts|
      invariant Items(parts[1..]) == done + Items(parts[i..])
      invariant Reading(done, intOf) == Some(fields)
    {
      ghost var item, before := First(parts[i..]), i;
      var found;
      i, found := ScanItem(parts, i, fields, intOf);
      FirstAndRest(parts[before..], parts[i..]);
      OneMoreItem(done, item, Items(parts[i..]), Items(parts[1..]), intOf);
      if found == None {
        return ValueError;
      }
      fields := found.value;
      done := done + [item];
    }
    assert done + [] == done;
    return Parsed(Event(fields));
  }

  // One turn of the loop.
  method ScanItem(parts: seq<string>, i: nat, fields: Fields, intOf: IntReader)
    returns (next: nat, found: Option<Fields>)
    requires 1 <= i < |parts|
    ensures i < next <= |parts|
    ensures next == i + |Words(First(parts[i..]))|
    ensures parts[i..][|Words(First(parts[i..]))|..] == parts[next..]
    ensures found == Put(fields, First(parts[i..]), intOf)
  {
    var word := parts[i];
    ghost var rest := parts[i..];
    assert rest[0] == word;
    found := Some(fields);
    if KeyOf(word).Some? && i + 1 < |parts| {
      assert rest[2..] == parts[i + 2..];
      next := i + 2;
      var n := intOf(parts[i + 1]);
      found := if n == None then None else Some(fields.(numbers := fields.numbers[KeyOf(word).value := n.value]));
    } else if word == "score" && i + 2 < |parts| {
      assert rest[3..] == parts[i + 3..];
      next := i + 3;
      var n := intOf(parts[i + 2]);
      found := if n == None || !IsKind(parts[i + 1]) then None
               else Some(fields.(score := Some(Score(parts[i + 1], n.value))));
    } else if IsIgnored(word) && i + 1 < |parts| {
      assert rest[2..] == parts[i + 2..];
      next := i + 2;
    } else if word == "pv" {
      assert rest[1..] == parts[i + 1..];
      found := Some(fields.(pv := Some(parts[i + 1..])));
      next := |parts|;
    } else if word == "string" {
      next := |parts|;
    } else {
      assert rest[1..] == parts[i + 1..];
      next := i + 1;
    }
  }

  lemma FirstAndRest(words: seq<string>, rest: seq<string>)
    requires words != [] && words[|Words(First(words))|..] == rest
    ensures Items(words) == [First(words)] + Items(rest)
  {}

  lemma OneMoreItem(done: seq<Item>, item: Item, more: seq<Item>, all: seq<Item>, intOf: IntReader)
    requires all == done + ([item] + more) && Reading(done, intOf).Some?
    ensures all == (done + [item]) + more
    ensures Reading(done + [item], intOf) == Put(Reading(done, intOf).value, item, intOf)
    ensures Reading(done + [item], intOf) == None ==> Reading(all, intOf) == None
  {
    assert (done + [item])[..|done|] == done;
    if Reading(done + [item], intOf) == None {
      FailureStays(done + [item], all, intOf);
    }
  }

  lemma {:induction false} FailureStays(start: seq<Item>, all: seq<Item>, intOf: IntReader)
    requires start <= all && Reading(start, intOf) == None
    ensures Reading(all, intOf) == None
  {
    if start == all {
    } else {
      FailureStays(start, all[..|all| - 1], intOf);
    }
  }

  // ---------- order does not matter ----------

  // The entry an item writes.
  datatype Slot = NumberSlot(key: Key) | ScoreSlot | PvSlot | NoSlot

  function SlotOf(item: Item): Slot {
    match item
    case Number(key, _) => NumberSlot(key)
    case Scored(_, _) => ScoreSlot
    case Moves(_) => PvSlot
    case _ => NoSlot
  }

  predicate Distinct(items: seq<Item>) {
    forall j, k :: 0 <= j < k < |items| && SlotOf(items[j]) == SlotOf(items[k]) ==> SlotOf(items[j]) == NoSlot
  }

  predicate Readable(item: Item, intOf: IntReader) {
    && (item.Number? || item.Scored? ==> intOf(item.text).Some?)
    && (item.Scored? ==> IsKind(item.kind))
  }

  /** A line is refused exactly when one of its numbers cannot be read or a score is
      neither in centipawns nor a mate. */
  lemma {:induction false} RefusedExactly(items: seq<Item>, intOf: IntReader)
    ensures Reading(items, intOf).Some? <==> forall item :: item in items ==> Readable(item, intOf)
  {
    if items != [] {
      var init, last := items[..|items| - 1], items[|items| - 1];
      RefusedExactly(init, intOf);
      assert items == init + [last];
      assert Put(NO_FIELDS, last, intOf).Some? <==> Readable(last, intOf);
    }
  }

  /** A kind of score that engines are known to send, and the line is refused although
      every number in it can be read. */
  lemma UnknownScoreIsRefused(intOf: IntReader)
    requires intOf("1") == Some(1) && intOf("5") == Some(5)
    ensures Meaning(["info", "depth", "1", "score", "q", "5"], intOf) == ValueError
  {
    var items := [Number(Depth, "1"), Scored("q", "5")];
    assert Render(items) == ["depth", "1", "score", "q", "5"] by {
      assert items[1..] == [items[1]] && items[1..][1..] == [];
    }
    assert WellFormed(items);
    assert ["info"] + Render(items) == ["info", "depth", "1", "score", "q", "5"];
    MeaningOfItems(items, intOf);
    RefusedExactly(items, intOf);
    assert !Readable(items[1], intOf);
  }

  // The fields say what the item says.
  predicate Holds(fields: Fields, item: Item, intOf: IntReader) {
    match item
    case Number(key, text) => At(fields, key).Some? && At(fields, key) == intOf(text)
    case Scored(kind, text) => fields.score.Some? && fields.score.value.kind == kind && Some(fields.score.value.value) == intOf(text)
    case Moves(pv) => fields.pv == Some(pv)
    case _ => true
  }

  predicate Filled(fields: Fields, slot: Slot) {
    match slot
    case NumberSlot(key) => key in fields.numbers
    case ScoreSlot => fields.score.Some?
    case PvSlot => fields.pv.Some?
    case NoSlot => false
  }

  predicate Mentions(items: seq<Item>, slot: Slot) {
    exists item :: item in items && SlotOf(item) == slot
  }

  /** Distinct fields are read one by one: every item's value is there, and nothing else. */
  lemma {:induction false} ReadsEveryField(items: seq<Item>, intOf: IntReader)
    requires Distinct(items) && Reading(items, intOf).Some?
    ensures forall item :: item in items ==> Holds(Reading(items, intOf).value, item, intOf)
    ensures forall slot :: Filled(Reading(items, intOf).value, slot) ==> Mentions(items, slot)
  {
    if items != [] {
      var init, last := items[..|items| - 1], items[|items| - 1];
      ReadsEveryField(init, intOf);
      assert items == init + [last];
      var before, fields := Reading(init, intOf).value, Reading(items, intOf).value;
      forall item | item in items ensures Holds(fields, item, intOf) {
        if item in init {
          var k :| 0 <= k < |init| && init[k] == item;
          assert items[k] == item;
          KeepsOthers(before, fields, item, last, intOf);
        }
      }
      forall slot | Filled(fields, slot) ensures Mentions(items, slot) {
        if slot == SlotOf(last) {
          assert last in items;
        } else {
          assert Filled(before, slot);
          var item :| item in init && SlotOf(item) == slot;
          assert item in items;
        }
      }
    }
  }

  lemma KeepsOthers(before: Fields, fields: Fields, item: Item, last: Item, intOf: IntReader)
    requires Holds(before, item, intOf) && Put(before, last, intOf) == Some(fields)
    requires SlotOf(item) != SlotOf(last) || SlotOf(item) == NoSlot
    ensures Holds(fields, item, intOf)
  {
  }

  /** Any two renderings of the same distinct fields parse to the same event, whatever
      the order of the fields and whatever ignored items, display text and unknown words
      stand among them. */
  lemma FieldOrderDoesNotMatter(some: seq<Item>, others: seq<Item>, intOf: IntReader)
    requires WellFormed(some) && WellFormed(others) && Distinct(some) && Distinct(others)
    requires forall item :: SlotOf(item) != NoSlot ==> (item in some <==> item in others)
    ensures Meaning(["info"] + Render(some), intOf) == Meaning(["info"] + Render(others), intOf)
  {
    MeaningOfItems(some, intOf);
    MeaningOfItems(others, intOf);
    RefusedExactly(some, intOf);
    RefusedExactly(others, intOf);
    assert forall item: Item :: SlotOf(item) == NoSlot ==> Readable(item, intOf);
    if Reading(some, intOf).Some? && Reading(others, intOf).Some? {
      SameFields(some, others, intOf);
    }
  }

  lemma MeaningOfItems(items: seq<Item>, intOf: IntReader)
    requires WellFormed(items)
    ensures Meaning(["info"] + Render(items), intOf) == Outcome(Reading(items, intOf))
  {
    ItemsRender(items);
    assert (["info"] + Render(items))[1..] == Render(items);
  }

  lemma SameFields(some: seq<Item>, others: seq<Item>, intOf: IntReader)
    requires Distinct(some) && Distinct(others)
    requires Reading(some, intOf).Some? && Reading(others, intOf).Some?
    requires forall item :: SlotOf(item) != NoSlot ==> (item in some <==> item in others)
    ensures Reading(some, intOf) == Reading(others, intOf)
  {
    ReadsEveryField(some, intOf);
    ReadsEveryField(others, intOf);
    var f, g := Reading(some, intOf).value, Reading(others, intOf).value;
    forall slot ensures Filled(f, slot) ==> Filled(g, slot) && SameEntry(f, g, slot) {
      if Filled(f, slot) {
        var item :| item in some && SlotOf(item) == slot;
        assert Holds(f, item, intOf) && Holds(g, item, intOf);
      }
    }
    forall slot ensures Filled(g, slot) ==> Filled(f, slot) {
      if Filled(g, slot) {
        var item :| item in others && SlotOf(item) == slot;
        assert Holds(f, item, intOf);
      }
    }
    forall key ensures key in f.numbers <==> key in g.numbers
      ensures key in f.numbers ==> f.numbers[key] == g.numbers[key]
    {
      assert Filled(f, NumberSlot(key)) <==> Filled(g, NumberSlot(key));
      assert SameEntry(f, g, NumberSlot(key)) || !Filled(f, NumberSlot(key));
    }
    assert f.numbers == g.numbers;
    assert Filled(f, ScoreSlot) <==> Filled(g, ScoreSlot);
    assert Filled(f, PvSlot) <==> Filled(g, PvSlot);
  }

  predicate SameEntry(f: Fields, g: Fields, slot: Slot) {
    match slot
    case NumberSlot(key) => At(f, key) == At(g, key)
    case ScoreSlot => f.score == g.score
    case PvSlot => f.pv == g.pv
    case NoSlot => true
  }

  /** What a line of distinct fields says: each field its own value, the line number 1
      unless given, no moves unless given, and nothing at all without a depth. */
  lemma ParsesWhatIsSaid(items: seq<Item>, intOf: IntReader)
    requires WellFormed(items) && Distinct(items)
    requires forall item :: item in items ==> Readable(item, intOf)
    ensures var r := Meaning(["info"] + Render(items), intOf);
      && r.Parsed?
      && (r.event.Some? <==> Mentions(items, NumberSlot(Depth)))
      && (r.event.Some? ==> SaysAll(r.event.value, items, intOf))
      && (r.event.Some? ==> SaysNoMore(r.event.value, items))
  {
    MeaningOfItems(items, intOf);
    RefusedExactly(items, intOf);
    ReadsEveryField(items, intOf);
    FieldsSay(items, Reading(items, intOf).value, intOf);
  }

  lemma FieldsSay(items: seq<Item>, fields: Fields, intOf: IntReader)
    requires forall item :: item in items ==> Holds(fields, item, intOf)
    requires forall slot :: Filled(fields, slot) ==> Mentions(items, slot)
    ensures Event(fields).Some? <==> Mentions(items, NumberSlot(Depth))
    ensures Event(fields).Some? ==> SaysAll(Event(fields).value, items, intOf) && SaysNoMore(Event(fields).value, items)
  {
    OnlyMentioned(fields, items);
    if Mentions(items, NumberSlot(Depth)) {
      var item :| item in items && SlotOf(item) == NumberSlot(Depth);
      assert Holds(fields, item, intOf);
    }
    if Event(fields).Some? {
      forall item | item in items ensures Said(Event(fields).value, item, intOf) {
        EventSays(fields, item, intOf);
      }
    }
  }

  lemma EventSays(fields: Fields, item: Item, intOf: IntReader)
    requires Holds(fields, item, intOf) && Event(fields).Some?
    ensures Said(Event(fields).value, item, intOf)
  {
  }

  lemma OnlyMentioned(fields: Fields, items: seq<Item>)
    requires forall slot :: Filled(fields, slot) ==> Mentions(items, slot)
    ensures Event(fields).Some? ==> SaysNoMore(Event(fields).value, items)
  {
    assert forall key :: key in fields.numbers ==> Filled(fields, NumberSlot(key));
    assert fields.score.Some? ==> Filled(fields, ScoreSlot);
    assert fields.pv.Some? ==> Filled(fields, PvSlot);
  }

  // Nothing in the event but what some item mentions.
  predicate SaysNoMore(e: InfoEvent, items: seq<Item>) {
    && Mentions(items, NumberSlot(Depth))
    && (e.multipv != 1 ==> Mentions(items, NumberSlot(MultiPv)))
    && (e.seldepth.Some? ==> Mentions(items, NumberSlot(Seldepth)))
    && (e.nodes.Some? ==> Mentions(items, NumberSlot(Nodes)))
    && (e.nps.Some? ==> Mentions(items, NumberSlot(Nps)))
    && (e.timeMs.Some? ==> Mentions(items, NumberSlot(Time)))
    && (e.score.Some? ==> Mentions(items, ScoreSlot))
    && (e.pv != [] ==> Mentions(items, PvSlot))
  }

  predicate SaysAll(e: InfoEvent, items: seq<Item>, intOf: IntReader) {
    forall item :: item in items ==> Said(e, item, intOf)
  }

  // An event that says nothing but its depth.
  function Bare(depth: int): InfoEvent {
    InfoEvent(depth, 1, None, None, None, None, None, [])
  }

  lemma TwoItems(one: Item, two: Item, intOf: IntReader)
    requires Fits(one, [two]) && Fits(two, [])
    ensures Meaning(["info"] + (Words(one) + Words(two)), intOf) == Outcome(Reading([one, two], intOf))
    ensures Put(NO_FIELDS, one, intOf).Some? ==>
              Reading([one, two], intOf) == Put(Put(NO_FIELDS, one, intOf).value, two, intOf)
  {
    var items := [one, two];
    assert items[1..] == [two] && [two][1..] == [];
    assert Render([two]) == Words(two) + Render([]);
    assert Render(items) == Words(one) + Render([two]);
    assert Words(two) + [] == Words(two);
    MeaningOfItems(items, intOf);
    assert items[..1] == [one] && [one][..0] == [];
    assert Reading([one], intOf) == Put(NO_FIELDS, one, intOf);
  }

  // A depth and one more item.
  lemma DepthAnd(d: string, item: Item, depth: int, intOf: IntReader)
    requires intOf(d) == Some(depth) && Fits(item, [])
    ensures Meaning(["info", "depth", d] + Words(item), intOf)
         == Outcome(Put(NO_FIELDS.(numbers := map[Depth := depth]), item, intOf))
  {
    TwoItems(Number(Depth, d), item, intOf);
    assert ["info"] + (["depth", d] + Words(item)) == ["info", "depth", d] + Words(item);
    assert NO_FIELDS.numbers[Depth := depth] == map[Depth := depth];
  }

  /** The keywords, ... */
  lemma Keywords()
    ensures [Name(Depth), Name(Seldepth), Name(MultiPv), Name(Nodes), Name(Nps), Name(Time)]
         == ["depth", "seldepth", "multipv", "nodes", "nps", "time"]
  {}

  /** ... and the field of the event that each of them fills. */
  lemma KeywordMeans(key: Key, d: string, text: string, depth: int, n: int, intOf: IntReader)
    requires intOf(d) == Some(depth) && intOf(text) == Some(n)
    ensures Meaning(["info", "depth", d, Name(key), text], intOf) ==
      Parsed(Some(match key
                  case Depth => Bare(n)
                  case Seldepth => Bare(depth).(seldepth := Some(n))
                  case MultiPv => Bare(depth).(multipv := n)
                  case Nodes => Bare(depth).(nodes := Some(n))
                  case Nps => Bare(depth).(nps := Some(n))
                  case Time => Bare(depth).(timeMs := Some(n))))
  {
    DepthAnd(d, Number(key, text), depth, intOf);
    assert ["info", "depth", d] + [Name(key), text] == ["info", "depth", d, Name(key), text];
  }

  lemma ScoreMeans(d: string, kind: string, text: string, depth: int, n: int, intOf: IntReader)
    requires intOf(d) == Some(depth) && intOf(text) == Some(n) && (kind == "cp" || kind == "mate")
    ensures Meaning(["info", "depth", d, "score", kind, text], intOf)
         == Parsed(Some(Bare(depth).(score := Some(Score(kind, n)))))
  {
    DepthAnd(d, Scored(kind, text), depth, intOf);
    assert ["info", "depth", d] + ["score", kind, text] == ["info", "depth", d, "score", kind, text];
  }

  lemma MovesMean(d: string, depth: int, pv: seq<string>, intOf: IntReader)
    requires intOf(d) == Some(depth)
    ensures Meaning(["info", "depth", d] + (["pv"] + pv), intOf) == Parsed(Some(Bare(depth).(pv := pv)))
    ensures Meaning(["info", "depth", d] + (["string"] + pv), intOf) == Parsed(Some(Bare(depth)))
  {
    DepthAnd(d, Moves(pv), depth, intOf);
    DepthAnd(d, Display(pv), depth, intOf);
  }

  const IGNORED_KEYWORDS := ["hashfull", "tbhits", "currmove", "currmovenumber", "cpuload", "refutation", "currline"]

  /** The ignored keywords take the word after them along, whatever it is. */
  lemma IgnoredMeanNothing(k: nat, word: string, d: string, depth: int, intOf: IntReader)
    requires k < |IGNORED_KEYWORDS| && intOf(d) == Some(depth)
    ensures Meaning(["info", IGNORED_KEYWORDS[k], word, "depth", d], intOf) == Parsed(Some(Bare(depth)))
  {
    var name := IGNORED_KEYWORDS[k];
    assert IsIgnored(name);
    TwoItems(Ignored(name, word), Number(Depth, d), intOf);
    assert ["info"] + ([name, word] + ["depth", d]) == ["info", name, word, "depth", d];
  }

  // The event says what the item says.
  predicate Said(e: InfoEvent, item: Item, intOf: IntReader) {
    match item
    case Number(Depth, text) => Some(e.depth) == intOf(text)
    case Number(MultiPv, text) => Some(e.multipv) == intOf(text)
    case Number(Seldepth, text) => e.seldepth.Some? && e.seldepth == intOf(text)
    case Number(Nodes, text) => e.nodes.Some? && e.nodes == intOf(text)
    case Number(Nps, text) => e.nps.Some? && e.nps == intOf(text)
    case Number(Time, text) => e.timeMs.Some? && e.timeMs == intOf(text)
    case Scored(kind, text) => e.score.Some? && e.score.value.kind == kind && Some(e.score.value.value) == intOf(text)
    case Moves(pv) => e.pv == pv
    case _ => true
  }
}
