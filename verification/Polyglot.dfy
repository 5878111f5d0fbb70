/**
  Writing a Polyglot opening book, and what a reader finds in it.

  A book is a flat series of 16-byte entries, ordered by position key, all numbers stored
  highest byte first. The writer sorts and encodes; a reader looks a key up by binary
  search over the bytes.
 */
module Polyglot {
  import opened Prelude
  import Sorting

  type byte = x: int | 0 <= x < 256

  // ---------- big-endian numbers ----------

  function Pow256(width: nat): nat {
    if width == 0 then 1 else 256 * Pow256(width - 1)
  }

  function BigEndian(n: nat, width: nat): (bs: seq<byte>)
    ensures |bs| == width
  {
    if width == 0 then [] else BigEndian(n / 256, width - 1) + [n % 256]
  }

  function FromBigEndian(bs: seq<byte>): nat {
    if bs == [] then 0 else 256 * FromBigEndian(bs[..|bs| - 1]) + bs[|bs| - 1]
  }

  lemma {:induction false} BigEndianRoundTrip(n: nat, width: nat)
    requires n < Pow256(width)
    ensures FromBigEndian(BigEndian(n, width)) == n
  {
    if width > 0 {
      BigEndianRoundTrip(n / 256, width - 1);
    }
  }

  /** The first byte weighs most, and the others hold the rest. */
  lemma {:induction false} HighestByteFirst(high: byte, rest: nat, width: nat)
    requires rest < Pow256(width)
    ensures BigEndian(high * Pow256(width) + rest, width + 1) == [high] + BigEndian(rest, width)
  {
    if width == 0 {
      assert BigEndian(high, 1) == BigEndian(high / 256, 0) + [high % 256];
    } else {
      var weighted := high * Pow256(width - 1);
      Shifted(high, Pow256(width - 1));
      assert high * Pow256(width) + rest == 256 * weighted + rest;
      assert (256 * weighted + rest) / 256 == weighted + rest / 256 && (256 * weighted + rest) % 256 == rest % 256;
      HighestByteFirst(high, rest / 256, width - 1);
    }
  }

  lemma Shifted(a: nat, b: nat)
    ensures a * (256 * b) == 256 * (a * b)
  {}

  // ---------- moves ----------

  datatype Move = Move(from: int, to: int, promotion: Option<nat>)

  predicate OnBoard(m: Move) {
    0 <= m.from <= 63 && 0 <= m.to <= 63
  }

  // Six bits each for the two squares; the promotion piece is not written.
  function EncodeMove(from: int, to: int): (raw: Option<nat>)
    ensures raw.Some? <==> 0 <= from < 64 && 0 <= to < 64
    ensures raw.Some? ==> raw.value < 4096 && raw.value / 64 == from && raw.value % 64 == to
  {
    if 0 <= from <= 63 && 0 <= to <= 63 then Some(from * 64 + to) else None
  }

  // The reader takes the low six bits as target, the next six as origin, and the next
  // three as promotion piece, zero meaning none.
  function DecodeMove(raw: nat): Move {
    Move(raw / 64 % 64, raw % 64, if raw / 4096 % 8 == 0 then None else Some(raw / 4096 % 8))
  }

  /** The reader's layout of the sixteen bits: six for the target, six for the origin, three for
      the promotion piece, and one that it ignores. */
  lemma BitsOfMove(unused: nat, promotion: nat, from: nat, to: nat)
    requires unused < 2 && promotion < 8 && from < 64 && to < 64
    ensures DecodeMove(((unused * 8 + promotion) * 64 + from) * 64 + to)
         == Move(from, to, if promotion == 0 then None else Some(promotion))
  {
    var raw := ((unused * 8 + promotion) * 64 + from) * 64 + to;
    assert raw / 64 == (unused * 8 + promotion) * 64 + from && raw % 64 == to;
    assert raw / 4096 == unused * 8 + promotion;
  }

  /** A move survives being written and read exactly when it is not a promotion. */
  lemma MoveSurvivesExactly(m: Move)
    requires OnBoard(m)
    ensures DecodeMove(EncodeMove(m.from, m.to).value) == m <==> m.promotion == None
  {
    SixBitsEach(m.from, m.to);
  }

  lemma SixBitsEach(from: nat, to: nat)
    requires from <= 63 && to <= 63
    ensures var raw := from * 64 + to; raw / 64 == from && raw % 64 == to && raw / 4096 == 0 && from % 64 == from
  {}

  // ---------- entries ----------

  datatype BookEntry = BookEntry(fen: string, uciMove: string, weight: int, learn: int)

  // Something filed under the key of a position.
  datatype Keyed<T> = Keyed(key: nat, item: T)

  /** What an entry says about its position. */
  datatype Advice = Advice(from: nat, to: nat, weight: nat, learn: nat) {
    predicate Fits() {
      from <= 63 && to <= 63 && weight < Pow256(2) && learn < Pow256(4)
    }
  }

  type Record = Keyed<Advice>

  datatype Error = BadFen | BadMove | IllegalMove | BadWeight | BadLearn

  /** The chess library: position keys, UCI moves, and legality. */
  datatype Chess = Chess(
    zobrist: string -> Option<nat>,
    parseUci: string -> Option<Move>,
    isLegal: (string, Move) -> bool)

  ghost predicate Lawful(c: Chess) {
    && (forall fen :: c.zobrist(fen).Some? ==> c.zobrist(fen).value < Pow256(8))
    && (forall uci :: c.parseUci(uci).Some? ==> OnBoard(c.parseUci(uci).value))
  }

  const ENTRY_SIZE: nat := 16

  function EntryBytes(key: nat, a: Advice): (bs: seq<byte>)
    ensures |bs| == ENTRY_SIZE
  {
    BigEndian(key, 8) + BigEndian(a.from * 64 + a.to, 2) + BigEndian(a.weight, 2) + BigEndian(a.learn, 4)
  }

  function DecodeEntry(bs: seq<byte>): Record
    requires |bs| == ENTRY_SIZE
  {
    var move := DecodeMove(FromBigEndian(bs[8..10]));
    Keyed(FromBigEndian(bs[..8]), Advice(move.from, move.to, FromBigEndian(bs[10..12]), FromBigEndian(bs[12..])))
  }

  // The four fields of an entry lie one after the other.
  lemma EntryFields(key: nat, a: Advice)
    ensures var bs := EntryBytes(key, a);
            && bs[..8] == BigEndian(key, 8) && bs[8..10] == BigEndian(a.from * 64 + a.to, 2)
            && bs[10..12] == BigEndian(a.weight, 2) && bs[12..] == BigEndian(a.learn, 4)
  {
    JoinedFields(BigEndian(key, 8), BigEndian(a.from * 64 + a.to, 2), BigEndian(a.weight, 2), BigEndian(a.learn, 4));
  }

  lemma JoinedFields(key: seq<byte>, move: seq<byte>, weight: seq<byte>, learn: seq<byte>)
    requires |key| == 8 && |move| == 2 && |weight| == 2 && |learn| == 4
    ensures var bs := key + move + weight + learn;
            bs[..8] == key && bs[8..10] == move && bs[10..12] == weight && bs[12..] == learn
  {}

  lemma Powers()
    ensures Pow256(2) == 0x1_0000 && Pow256(4) == 0x1_0000_0000
  {}

  lemma EntryRoundTrip(r: Record)
    requires r.key < Pow256(8) && r.item.Fits()
    ensures DecodeEntry(EntryBytes(r.key, r.item)) == r
  {
    EntryFields(r.key, r.item);
    Powers();
    BigEndianRoundTrip(r.key, 8);
    BigEndianRoundTrip(r.item.from * 64 + r.item.to, 2);
    BigEndianRoundTrip(r.item.weight, 2);
    BigEndianRoundTrip(r.item.learn, 4);
    SixBitsEach(r.item.from, r.item.to);
  }

  // The checks of an entry whose position can be read, in the writer's order.
  function Understand(c: Chess, e: BookEntry): Result<Advice, Error> {
    var move := c.parseUci(e.uciMove);
    if move.None? then Err(BadMove)
    else if !c.isLegal(e.fen, move.value) then Err(IllegalMove)
    else if EncodeMove(move.value.from, move.value.to).None? then Err(BadMove)
    else if !(0 <= e.weight <= 0xFFFF) then Err(BadWeight)
    else if !(0 <= e.learn <= 0xFFFF_FFFF) then Err(BadLearn)
    else Ok(Advice(move.value.from, move.value.to, e.weight, e.learn))
  }

  /** Why an entry with a readable position is refused: for the first of its faults. */
  lemma RefusedFor(c: Chess, e: BookEntry)
    requires Lawful(c)
    ensures var move, u := c.parseUci(e.uciMove), Understand(c, e);
            && (u == Err(BadMove) <==> move.None?)
            && (u == Err(IllegalMove) <==> move.Some? && !c.isLegal(e.fen, move.value))
            && (u == Err(BadWeight) <==>
                  move.Some? && c.isLegal(e.fen, move.value) && !(0 <= e.weight < 0x1_0000))
            && (u == Err(BadLearn) <==>
                  move.Some? && c.isLegal(e.fen, move.value) && 0 <= e.weight < 0x1_0000
                  && !(0 <= e.learn < 0x1_0000_0000))
  {}

  lemma UnderstoodFits(c: Chess, e: BookEntry)
    requires Lawful(c) && Understand(c, e).Ok?
    ensures Understand(c, e).value.Fits()
  {
    Powers();
  }

  // ---------- the order of a book ----------

  ghost predicate InOrder<T>(es: seq<Keyed<T>>) {
    forall i, j :: 0 <= i < j < |es| ==> es[i].key <= es[j].key
  }

  predicate KeyAtMost<T>(a: Keyed<T>, b: Keyed<T>) {
    a.key <= b.key
  }

  // A stable sort by key.
  function Sorted<T>(es: seq<Keyed<T>>): (r: seq<Keyed<T>>)
    ensures |r| == |es|
  {
    Sorting.Sorted(es, KeyAtMost)
  }

  // Those with key k, in order.
  function WithKey<T>(k: nat, es: seq<Keyed<T>>): seq<Keyed<T>> {
    if es == [] then []
    else if es[0].key == k then [es[0]] + WithKey(k, es[1..])
    else WithKey(k, es[1..])
  }

  lemma SortedSorts<T(!new)>(es: seq<Keyed<T>>)
    ensures InOrder(Sorted(es))
  {
    Sorting.SortedSorts(es, KeyAtMost);
    var sorted := Sorted(es);
    assert forall i, j :: 0 <= i < j < |es| ==> KeyAtMost(sorted[i], sorted[j]);
  }

  lemma SortedPermutes<T>(es: seq<Keyed<T>>)
    ensures multiset(Sorted(es)) == multiset(es)
  {
    Sorting.SortedPermutes(es, KeyAtMost);
  }

  lemma {:induction false} NoneAbove<T>(k: nat, es: seq<Keyed<T>>)
    requires forall i :: 0 <= i < |es| ==> es[i].key > k
    ensures WithKey(k, es) == []
  {
    if es != [] {
      NoneAbove(k, es[1..]);
    }
  }

  lemma {:induction false} InsertKeepsGroups<T(!new)>(k: nat, e: Keyed<T>, es: seq<Keyed<T>>)
    requires InOrder(es)
    ensures WithKey(k, Sorting.Insert(e, es, KeyAtMost)) == (if e.key == k then [e] else []) + WithKey(k, es)
  {
    if es == [] || e.key <= es[0].key {
      assert ([e] + es)[1..] == es;
    } else {
      InsertKeepsGroups(k, e, es[1..]);
      var rest := Sorting.Insert(e, es[1..], KeyAtMost);
      assert ([es[0]] + rest)[1..] == rest;
      if es[0].key == k {
        assert e.key != k;
      }
    }
  }

  // Sorting keeps the entries of each position in the order they were given.
  lemma {:induction false} SortKeepsGroups<T(!new)>(k: nat, es: seq<Keyed<T>>)
    ensures WithKey(k, Sorted(es)) == WithKey(k, es)
  {
    if es != [] {
      SortKeepsGroups(k, es[1..]);
      SortedSorts(es[1..]);
      InsertKeepsGroups(k, es[0], Sorted(es[1..]));
    }
  }

  // ---------- writing ----------

  // The entries with their position keys; None when some position cannot be read.
  function KeyAll(c: Chess, es: seq<BookEntry>): Option<seq<Keyed<BookEntry>>> {
    if es == [] then Some([])
    else
      var key, rest := c.zobrist(es[0].fen), KeyAll(c, es[1..]);
      if key.None? || rest.None? then None else Some([Keyed(key.value, es[0])] + rest.value)
  }

  // The bytes of all entries, or the first error.
  function JoinAll(c: Chess, ks: seq<Keyed<BookEntry>>): Result<seq<byte>, Error> {
    if ks == [] then Ok([])
    else
      match Understand(c, ks[0].item)
      case Err(error) => Err(error)
      case Ok(a) =>
        match JoinAll(c, ks[1..])
        case Err(error) => Err(error)
        case Ok(bs) => Ok(EntryBytes(ks[0].key, a) + bs)
  }

  /** The complete bytes of a book, or an error and no bytes at all. */
  function WriteBook(c: Chess, es: seq<BookEntry>): Result<seq<byte>, Error> {
    if es == [] then Ok([])
    else
      match KeyAll(c, es)
      case None => Err(BadFen)
      case Some(ks) => JoinAll(c, Sorted(ks))
  }

  // ---------- reading ----------

  function DecodeBook(bs: seq<byte>): seq<Record> {
    if |bs| < ENTRY_SIZE then [] else [DecodeEntry(bs[..ENTRY_SIZE])] + DecodeBook(bs[ENTRY_SIZE..])
  }

  // A book of n entries.
  predicate IsBook(bs: seq<byte>, n: nat) {
    |bs| == ENTRY_SIZE * n
  }

  lemma {:induction false} DecodedLength(bs: seq<byte>, n: nat)
    requires IsBook(bs, n)
    ensures |DecodeBook(bs)| == n
  {
    if n > 0 {
      DecodedLength(bs[ENTRY_SIZE..], n - 1);
    }
  }

  lemma {:induction false} DecodedAt(bs: seq<byte>, n: nat, i: nat)
    requires IsBook(bs, n) && i < n
    ensures |DecodeBook(bs)| == n
    ensures DecodeBook(bs)[i] == DecodeEntry(bs[ENTRY_SIZE * i..ENTRY_SIZE * i + ENTRY_SIZE])
  {
    DecodedLength(bs, n);
    if i > 0 {
      DecodedAt(bs[ENTRY_SIZE..], n - 1, i - 1);
      SameEntry(bs, n, i);
    }
  }

  // Entry i of a book is entry i - 1 of its rest.
  lemma SameEntry(bs: seq<byte>, n: nat, i: nat)
    requires IsBook(bs, n) && 0 < i < n
    ensures bs[ENTRY_SIZE..][ENTRY_SIZE * (i - 1)..ENTRY_SIZE * (i - 1) + ENTRY_SIZE]
         == bs[ENTRY_SIZE * i..ENTRY_SIZE * i + ENTRY_SIZE]
  {}

  // Reading entry i straight from the bytes.
  method ReadEntry(bs: seq<byte>, n: nat, i: nat, ghost rs: seq<Record>) returns (r: Record)
    requires IsBook(bs, n) && i < n && rs == DecodeBook(bs)
    ensures |rs| == n && r == rs[i]
  {
    DecodedAt(bs, n, i);
    r := DecodeEntry(bs[ENTRY_SIZE * i..ENTRY_SIZE * i + ENTRY_SIZE]);
  }

  /** The reader's binary search: the first entry whose key is not smaller. */
  method BisectKeyLeft(bs: seq<byte>, n: nat, key: nat, ghost rs: seq<Record>) returns (lo: nat)
    requires IsBook(bs, n) && rs == DecodeBook(bs) && |rs| == n && InOrder(rs)
    ensures lo <= n
    ensures forall i :: 0 <= i < lo ==> rs[i].key < key
    ensures forall i :: lo <= i < n ==> rs[i].key >= key
  {
    lo := 0;
    var hi := n;
    while lo < hi
      invariant 0 <= lo <= hi <= n
      invariant forall i :: 0 <= i < lo ==> rs[i].key < key
      invariant forall i :: hi <= i < n ==> rs[i].key >= key
    {
      var mid := (lo + hi) / 2;
      var r := ReadEntry(bs, n, mid, rs);
      if r.key < key {
        lo := mid + 1;
      } else {
        hi := mid;
      }
    }
  }

  // From there on, as long as the key is the one looked for.
  method TakeKey(bs: seq<byte>, n: nat, key: nat, start: nat, ghost rs: seq<Record>) returns (found: seq<Record>)
    requires IsBook(bs, n) && rs == DecodeBook(bs) && |rs| == n && InOrder(rs) && start <= n
    requires forall j :: start <= j < n ==> rs[j].key >= key
    ensures found == WithKey(key, rs[start..])
  {
    found := [];
    var i := start;
    while i < n
      invariant start <= i <= n
      invariant found == rs[start..i]
      invariant forall j :: start <= j < i ==> rs[j].key == key
    {
      var r := ReadEntry(bs, n, i, rs);
      if r.key != key {
        break;
      }
      found := found + [r];
      i := i + 1;
    }
    GroupIs(key, rs, start, i);
  }

  /** The reader's lookup finds exactly the entries with the key, in book order. */
  method FindAll(bs: seq<byte>, n: nat, key: nat) returns (found: seq<Record>)
    requires IsBook(bs, n) && InOrder(DecodeBook(bs))
    ensures found == WithKey(key, DecodeBook(bs))
  {
    ghost var rs := DecodeBook(bs);
    DecodedLength(bs, n);
    var start := BisectKeyLeft(bs, n, key, rs);
    SkipSmaller(rs, key, start);
    found := TakeKey(bs, n, key, start, rs);
  }

  lemma WithKeyNext(key: nat, rs: seq<Record>, i: nat)
    requires i < |rs| && rs[i].key == key
    ensures WithKey(key, rs[i..]) == [rs[i]] + WithKey(key, rs[i + 1..])
  {
    assert rs[i..][1..] == rs[i + 1..];
  }

  // The entries with a key, where they begin and end.
  lemma {:induction false} GroupIs(key: nat, rs: seq<Record>, start: nat, end: nat)
    requires InOrder(rs) && start <= end <= |rs|
    requires forall j :: start <= j < end ==> rs[j].key == key
    requires end < |rs| ==> rs[end].key > key
    ensures WithKey(key, rs[start..]) == rs[start..end]
    decreases end - start
  {
    if start == end {
      forall j | 0 <= j < |rs[start..]| ensures rs[start..][j].key > key {
        assert j > 0 ==> rs[start].key <= rs[start + j].key;
      }
      NoneAbove(key, rs[start..]);
    } else {
      WithKeyNext(key, rs, start);
      GroupIs(key, rs, start + 1, end);
    }
  }

  lemma {:induction false} SkipSmaller(rs: seq<Record>, key: nat, n: nat)
    requires n <= |rs| && forall i :: 0 <= i < n ==> rs[i].key < key
    ensures WithKey(key, rs) == WithKey(key, rs[n..])
  {
    if n > 0 {
      SkipSmaller(rs[1..], key, n - 1);
      assert rs[1..][n - 1..] == rs[n..];
    } else {
      assert rs[0..] == rs;
    }
  }

  // ---------- the book as written is the book as read ----------

  // An entry as a reader should see it.
  function Seen(c: Chess, k: Keyed<BookEntry>): Record {
    Keyed(k.key, match Understand(c, k.item) case Ok(a) => a case Err(_) => Advice(0, 0, 0, 0))
  }

  function SeenAll(c: Chess, ks: seq<Keyed<BookEntry>>): (rs: seq<Record>)
    ensures |rs| == |ks| && forall i :: 0 <= i < |ks| ==> rs[i] == Seen(c, ks[i])
  {
    if ks == [] then [] else [Seen(c, ks[0])] + SeenAll(c, ks[1..])
  }

  lemma {:induction false} SeenInsert(c: Chess, k: Keyed<BookEntry>, ks: seq<Keyed<BookEntry>>)
    ensures SeenAll(c, Sorting.Insert(k, ks, KeyAtMost)) == Sorting.Insert(Seen(c, k), SeenAll(c, ks), KeyAtMost)
  {
    if ks != [] && k.key > ks[0].key {
      SeenInsert(c, k, ks[1..]);
      assert SeenAll(c, ks)[1..] == SeenAll(c, ks[1..]);
    }
  }

  lemma {:induction false} SeenSorted(c: Chess, ks: seq<Keyed<BookEntry>>)
    ensures SeenAll(c, Sorted(ks)) == Sorted(SeenAll(c, ks))
  {
    if ks != [] {
      SeenSorted(c, ks[1..]);
      SeenInsert(c, ks[0], Sorted(ks[1..]));
      assert SeenAll(c, ks)[1..] == SeenAll(c, ks[1..]);
    }
  }

  lemma {:induction false} JoinedDecodes(c: Chess, ks: seq<Keyed<BookEntry>>)
    requires Lawful(c) && forall i :: 0 <= i < |ks| ==> ks[i].key < Pow256(8)
    ensures JoinAll(c, ks).Ok? <==> forall i :: 0 <= i < |ks| ==> Understand(c, ks[i].item).Ok?
    ensures JoinAll(c, ks).Ok? ==>
              |JoinAll(c, ks).value| == ENTRY_SIZE * |ks| && DecodeBook(JoinAll(c, ks).value) == SeenAll(c, ks)
  {
    if ks != [] {
      JoinedDecodes(c, ks[1..]);
      if JoinAll(c, ks).Ok? {
        UnderstoodFits(c, ks[0].item);
        EntryRoundTrip(Seen(c, ks[0]));
        var bs := JoinAll(c, ks).value;
        assert bs[..ENTRY_SIZE] == EntryBytes(ks[0].key, Understand(c, ks[0].item).value);
        assert bs[ENTRY_SIZE..] == JoinAll(c, ks[1..]).value;
      } else if Understand(c, ks[0].item).Ok? {
        var i :| 0 <= i < |ks[1..]| && Understand(c, ks[1..][i].item).Err?;
        assert ks[i + 1] == ks[1..][i];
      }
    }
  }

  lemma {:induction false} KeyAllKeys(c: Chess, es: seq<BookEntry>)
    ensures KeyAll(c, es).Some? <==> forall i :: 0 <= i < |es| ==> c.zobrist(es[i].fen).Some?
    ensures KeyAll(c, es).Some? ==>
              var ks := KeyAll(c, es).value;
              |ks| == |es| && forall i :: 0 <= i < |es| ==> ks[i] == Keyed(c.zobrist(es[i].fen).value, es[i])
  {
    if es != [] {
      KeyAllKeys(c, es[1..]);
      assert forall i :: 0 < i < |es| ==> es[i] == es[1..][i - 1];
    }
  }

  predicate Writable(c: Chess, e: BookEntry) {
    c.zobrist(e.fen).Some? && Understand(c, e).Ok?
  }

  /** A book is written exactly when each of its entries can be, whatever their order. */
  lemma WritesExactly(c: Chess, es: seq<BookEntry>)
    requires Lawful(c)
    ensures WriteBook(c, es).Ok? <==> forall i :: 0 <= i < |es| ==> Writable(c, es[i])
  {
    KeyAllKeys(c, es);
    if es != [] && KeyAll(c, es).Some? {
      var ks := KeyAll(c, es).value;
      SortedPermutes(ks);
      KeysFit(c, es);
      JoinedDecodes(c, Sorted(ks));
      forall i | 0 <= i < |es| ensures ks[i] in multiset(Sorted(ks)) {
        assert ks[i] in multiset(ks);
      }
      forall j | 0 <= j < |ks| ensures Sorted(ks)[j] in multiset(ks) {
        assert Sorted(ks)[j] in multiset(Sorted(ks));
      }
    }
  }

  /** A position that cannot be read is noticed before anything else. */
  lemma UnreadablePosition(c: Chess, es: seq<BookEntry>)
    ensures WriteBook(c, es) == Err(BadFen) <==> exists i :: 0 <= i < |es| && c.zobrist(es[i].fen).None?
  {
    KeyAllKeys(c, es);
    if KeyAll(c, es).Some? {
      JoinsReadPositions(c, Sorted(KeyAll(c, es).value));
    }
  }

  lemma {:induction false} JoinsReadPositions(c: Chess, ks: seq<Keyed<BookEntry>>)
    ensures JoinAll(c, ks) != Err(BadFen)
  {
    if ks == [] {
    } else {
      JoinsReadPositions(c, ks[1..]);
    }
  }

  lemma KeysFit(c: Chess, es: seq<BookEntry>)
    requires Lawful(c) && KeyAll(c, es).Some?
    ensures forall i :: 0 <= i < |Sorted(KeyAll(c, es).value)| ==> Sorted(KeyAll(c, es).value)[i].key < Pow256(8)
  {
    var ks := KeyAll(c, es).value;
    KeyAllKeys(c, es);
    SortedPermutes(ks);
    forall i | 0 <= i < |ks| ensures Sorted(ks)[i].key < Pow256(8) {
      assert Sorted(ks)[i] in multiset(Sorted(ks));
    }
  }

  // The entries given, as a reader should see them, in the given order.
  function Given(c: Chess, es: seq<BookEntry>): seq<Record> {
    match KeyAll(c, es)
    case None => []
    case Some(ks) => SeenAll(c, ks)
  }

  /** What an entry must be to be written: its position can be read, its move can be read and
      is legal there, and its numbers fit. */
  lemma WritableExactly(c: Chess, e: BookEntry)
    requires Lawful(c)
    ensures Writable(c, e) <==>
              && c.zobrist(e.fen).Some?
              && c.parseUci(e.uciMove).Some? && c.isLegal(e.fen, c.parseUci(e.uciMove).value)
              && 0 <= e.weight < 0x1_0000 && 0 <= e.learn < 0x1_0000_0000
  {}

  /** What a reader sees of an entry: the key of its position, the squares of its move, its
      weight and its learning data. */
  lemma GivenIsWhatWasGiven(c: Chess, es: seq<BookEntry>, i: nat)
    requires Lawful(c) && i < |es| && forall j :: 0 <= j < |es| ==> Writable(c, es[j])
    ensures |Given(c, es)| == |es| && c.zobrist(es[i].fen).Some? && c.parseUci(es[i].uciMove).Some?
    ensures var r, move := Given(c, es)[i], c.parseUci(es[i].uciMove).value;
            && r.key == c.zobrist(es[i].fen).value
            && r.item.from == move.from && r.item.to == move.to
            && r.item.weight == es[i].weight && r.item.learn == es[i].learn
  {
    KeyAllKeys(c, es);
    assert Writable(c, es[i]);
  }

  // The records of the entries with a key, straight from the entries.
  function Wanted(c: Chess, es: seq<BookEntry>, key: nat): seq<Record>
    requires forall j :: 0 <= j < |es| ==> c.parseUci(es[j].uciMove).Some?
    requires Lawful(c) && forall j :: 0 <= j < |es| ==> es[j].weight >= 0 && es[j].learn >= 0
  {
    if es == [] then []
    else
      var move := c.parseUci(es[0].uciMove).value;
      (if c.zobrist(es[0].fen) == Some(key)
       then [Keyed(key, Advice(move.from, move.to, es[0].weight, es[0].learn))] else [])
      + Wanted(c, es[1..], key)
  }

  lemma {:induction false} WantedIsGiven(c: Chess, es: seq<BookEntry>, key: nat)
    requires Lawful(c) && forall j :: 0 <= j < |es| ==> Writable(c, es[j])
    ensures (forall j :: 0 <= j < |es| ==> c.parseUci(es[j].uciMove).Some?)
            && (forall j :: 0 <= j < |es| ==> es[j].weight >= 0 && es[j].learn >= 0)
    ensures WithKey(key, Given(c, es)) == Wanted(c, es, key)
  {
    forall j | 0 <= j < |es|
      ensures c.parseUci(es[j].uciMove).Some? && es[j].weight >= 0 && es[j].learn >= 0
    {
      assert Writable(c, es[j]);
    }
    if es == [] {
    } else {
      GivenIsWhatWasGiven(c, es, 0);
      WantedIsGiven(c, es[1..], key);
      KeyAllKeys(c, es);
      assert Given(c, es)[1..] == Given(c, es[1..]);
    }
  }

  lemma WrittenBytes(c: Chess, es: seq<BookEntry>)
    requires Lawful(c) && WriteBook(c, es).Ok?
    ensures IsBook(WriteBook(c, es).value, |es|)
    ensures DecodeBook(WriteBook(c, es).value) == Sorted(Given(c, es))
  {
    KeyAllKeys(c, es);
    if es != [] {
      var ks := KeyAll(c, es).value;
      KeysFit(c, es);
      JoinedDecodes(c, Sorted(ks));
      SeenSorted(c, ks);
    }
  }

  /** A written book is searchable and lossless: 16 bytes an entry, and decoding gives the
      entries themselves, sorted by key, with those of one position in the given order. */
  lemma WrittenBook(c: Chess, es: seq<BookEntry>, k: nat)
    requires Lawful(c) && WriteBook(c, es).Ok?
    ensures var bs := WriteBook(c, es).value;
            && IsBook(bs, |es|)
            && InOrder(DecodeBook(bs)) && multiset(DecodeBook(bs)) == multiset(Given(c, es))
            && WithKey(k, DecodeBook(bs)) == WithKey(k, Given(c, es))
  {
    WrittenBytes(c, es);
    SortedSorts(Given(c, es));
    SortedPermutes(Given(c, es));
    SortKeepsGroups(k, Given(c, es));
  }

  /** End to end: looking a key up in the bytes of a written book finds exactly the
      entries given for it, in the order they were given. */
  method WriteAndFind(c: Chess, es: seq<BookEntry>, key: nat) returns (found: Result<seq<Record>, Error>)
    requires Lawful(c)
    ensures found.Ok? <==> forall i :: 0 <= i < |es| ==> Writable(c, es[i])
    ensures found.Ok? ==>
              && (forall j :: 0 <= j < |es| ==>
                    c.parseUci(es[j].uciMove).Some? && es[j].weight >= 0 && es[j].learn >= 0)
              && found.value == Wanted(c, es, key)
  {
    WritesExactly(c, es);
    var blob := WriteBook(c, es);
    if blob.Err? {
      return Err(blob.error);
    }
    WrittenBook(c, es, key);
    WantedIsGiven(c, es, key);
    var records := FindAll(blob.value, |es|, key);
    return Ok(records);
  }
}
