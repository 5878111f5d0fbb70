/**
  Forward-only database migrations: finding the numbered migration files, and applying the
  pending ones, each in a transaction that also records its number.

  The content of a database is any type, and what a script does to it any function. A
  transaction is atomic: whatever interrupts a run, a migration has either happened
  together with its number or not at all.
 */
module Migrations {
  import opened Prelude
  import Sorting

  // ---------- finding the migrations ----------

  datatype File = File(name: string, text: string)

  // Whether a script is risky is decided by a directive line in its text.
  datatype Migration = Migration(version: nat, name: string, sql: string, risky: bool)

  predicate IsDigit(c: char) {
    '0' <= c <= '9'
  }

  predicate IsSlug(c: char) {
    'a' <= c <= 'z' || IsDigit(c) || c == '_'
  }

  function Digit(c: char): nat
    requires IsDigit(c)
  {
    c as int - '0' as int
  }

  // Four digits, an underscore, a slug and the suffix; the pattern also lets a line end follow.
  predicate IsMigrationName(name: string) {
    Matches(name) || (name != [] && name[|name| - 1] == '\n' && Matches(name[..|name| - 1]))
  }

  predicate Matches(name: string) {
    && |name| > 9
    && (forall k :: 0 <= k < 4 ==> IsDigit(name[k]))
    && name[4] == '_'
    && (forall k :: 5 <= k < |name| - 4 ==> IsSlug(name[k]))
    && name[|name| - 4..] == ".sql"
  }

  /** The characters a name may have. */
  lemma CharactersExactly(c: char)
    ensures IsDigit(c) <==> c in "0123456789"
    ensures IsSlug(c) <==> c in "abcdefghijklmnopqrstuvwxyz" || c in "0123456789" || c == '_'
  {
    DigitsExactly(c);
    LettersExactly(c);
  }

  lemma DigitsExactly(c: char)
    ensures '0' <= c <= '9' <==> c in "0123456789"
  {
    var digits := "0123456789";
    if '0' <= c <= '9' {
      assert digits[c as int - '0' as int] == c;
    }
  }

  lemma LettersExactly(c: char)
    ensures 'a' <= c <= 'z' <==> c in "abcdefghijklmnopqrstuvwxyz"
  {
    var letters := "abcdefghijklmnopqrstuvwxyz";
    if 'a' <= c <= 'z' {
      assert letters[c as int - 'a' as int] == c;
    }
  }

  predicate IsNameOf(digits: string, slug: string, name: string) {
    && |digits| == 4 && (forall k :: 0 <= k < 4 ==> IsDigit(digits[k]))
    && slug != [] && (forall k :: 0 <= k < |slug| ==> IsSlug(slug[k]))
    && name == digits + "_" + slug + ".sql"
  }

  /** A migration's name is four digits, an underscore, a slug and the suffix, with at most a
      line end after it. */
  lemma NamesExactly(name: string)
    ensures Matches(name) <==> exists digits, slug :: IsNameOf(digits, slug, name)
    ensures IsMigrationName(name) <==> Matches(name) || exists plain :: Matches(plain) && name == plain + "\n"
  {
    if Matches(name) {
      var digits, slug := name[..4], name[5..|name| - 4];
      assert name == digits + "_" + slug + ".sql";
      assert IsNameOf(digits, slug, name);
    }
    if digits, slug :| IsNameOf(digits, slug, name) {
      NameMatches(digits, slug, name);
    }
    if name != [] && name[|name| - 1] == '\n' {
      assert name == name[..|name| - 1] + "\n";
    }
    if plain :| Matches(plain) && name == plain + "\n" {
      assert name[..|name| - 1] == plain;
    }
  }

  lemma NameMatches(digits: string, slug: string, name: string)
    requires IsNameOf(digits, slug, name)
    ensures Matches(name)
  {
    assert forall k :: 0 <= k < 4 ==> name[k] == digits[k];
    assert forall k :: 5 <= k < |name| - 4 ==> name[k] == slug[k - 5];
    assert name[|name| - 4..] == ".sql";
  }

  lemma FirstDigits(name: string)
    requires IsMigrationName(name)
    ensures |name| > 9 && forall k :: 0 <= k < 4 ==> IsDigit(name[k])
  {
    if !Matches(name) {
      var plain := name[..|name| - 1];
      assert forall k :: 0 <= k < 4 ==> plain[k] == name[k];
    }
  }

  function VersionOf(name: string): nat
    requires IsMigrationName(name)
  {
    FirstDigits(name);
    1000 * Digit(name[0]) + 100 * Digit(name[1]) + 10 * Digit(name[2]) + Digit(name[3])
  }

  // Names are compared character by character.
  predicate Before(a: string, b: string) {
    a == [] || (b != [] && (a[0] < b[0] || (a[0] == b[0] && Before(a[1..], b[1..]))))
  }

  predicate NameBefore(a: File, b: File) {
    Before(a.name, b.name)
  }

  function ByName(files: seq<File>): seq<File> {
    Sorting.Sorted(files, NameBefore)
  }

  // The migration in a file, if it is one.
  function MigrationOf(f: File, risky: string -> bool): seq<Migration> {
    if IsMigrationName(f.name)
    then [Migration(VersionOf(f.name), f.name[..|f.name| - 4], f.text, risky(f.text))]
    else []
  }

  // The migrations among some files, in the files' order.
  function Matching(files: seq<File>, risky: string -> bool): seq<Migration> {
    FlatMap(files, (f: File) => MigrationOf(f, risky))
  }

  /** The migrations are those of the files with a migration's name: the same text, the name
      without its suffix, and the number it begins with. */
  lemma {:induction false} MatchingExactly(files: seq<File>, risky: string -> bool, m: Migration)
    ensures m in Matching(files, risky) <==>
              exists f :: f in files && IsMigrationName(f.name) && m.sql == f.text
                && m.name == f.name[..|f.name| - 4] && m.version == VersionOf(f.name) && m.risky == risky(f.text)
  {
    if files == [] {
    } else {
      var init, last := files[..|files| - 1], files[|files| - 1];
      MatchingExactly(init, risky, m);
      assert files == init + [last];
      assert last in files;
    }
  }

  function Versions(migrations: seq<Migration>): (vs: seq<nat>)
    ensures |vs| == |migrations|
  {
    seq(|migrations|, k requires 0 <= k < |migrations| => migrations[k].version)
  }

  function UpTo(n: nat): (vs: seq<nat>)
    ensures |vs| == n
  {
    seq(n, k requires 0 <= k => k + 1)
  }

  predicate Contiguous(migrations: seq<Migration>) {
    forall k :: 0 <= k < |migrations| ==> migrations[k].version == k + 1
  }

  /** The migrations in a directory, or nothing when their numbers have a gap, a repetition
      or the wrong start. */
  method DiscoverMigrations(directory: seq<File>, risky: string -> bool) returns (r: Option<seq<Migration>>)
    ensures r.Some? ==> Contiguous(r.value) && multiset(r.value) == multiset(Matching(directory, risky))
    ensures r.Some? <==> IsOneToN(Versions(Matching(directory, risky)))
  {
    var migrations := CollectMatching(ByName(directory), risky);
    SortingKeepsMatches(directory, risky);
    ContiguousExactly(directory, risky);
    if Versions(migrations) == UpTo(|migrations|) {
      assert forall k :: 0 <= k < |migrations| ==> migrations[k].version == Versions(migrations)[k];
      return Some(migrations);
    }
    return None;
  }

  method CollectMatching(files: seq<File>, risky: string -> bool) returns (migrations: seq<Migration>)
    ensures migrations == Matching(files, risky)
  {
    migrations := [];
    for i := 0 to |files|
      invariant migrations == Matching(files[..i], risky)
    {
      assert files[..i + 1][..i] == files[..i];
      var name := files[i].name;
      if IsMigrationName(name) {
        FirstDigits(name);
        migrations := migrations
          + [Migration(VersionOf(name), name[..|name| - 4], files[i].text, risky(files[i].text))];
      }
    }
    assert files[..|files|] == files;
  }

  // Each number from 1 to n, and so each of them once, in any order.
  predicate IsOneToN(vs: seq<nat>) {
    forall v :: 1 <= v <= |vs| ==> v in vs
  }

  predicate Ascending(vs: seq<nat>) {
    forall j, k :: 0 <= j < k < |vs| ==> vs[j] <= vs[k]
  }

  /** The order of the names is the order of the numbers, so the versions in name order
      are 1 to n exactly when every number from 1 to n occurs once. */
  lemma ContiguousExactly(directory: seq<File>, risky: string -> bool)
    ensures var found := Matching(ByName(directory), risky);
      Versions(found) == UpTo(|found|) <==> IsOneToN(Versions(Matching(directory, risky)))
  {
    var found, listed := Matching(ByName(directory), risky), Matching(directory, risky);
    SortingKeepsMatches(directory, risky);
    SameVersions(found, listed);
    SortedByName(directory);
    VersionsAscend(ByName(directory), risky);
    if IsOneToN(Versions(listed)) {
      AscendingAndFull(Versions(found));
    }
    if Versions(found) == UpTo(|found|) {
      forall v | 1 <= v <= |found| ensures v in Versions(listed) {
        assert UpTo(|found|)[v - 1] == v;
      }
    }
  }

  lemma SameVersions(xs: seq<Migration>, ys: seq<Migration>)
    requires multiset(xs) == multiset(ys)
    ensures |xs| == |ys|
    ensures forall v :: v in Versions(xs) <==> v in Versions(ys)
  {
    assert |multiset(xs)| == |xs| && |multiset(ys)| == |ys|;
    forall v ensures v in Versions(xs) <==> v in Versions(ys) {
      VersionMoves(xs, ys, v);
      VersionMoves(ys, xs, v);
    }
  }

  lemma VersionMoves(xs: seq<Migration>, ys: seq<Migration>, v: nat)
    requires multiset(xs) == multiset(ys)
    ensures v in Versions(xs) ==> v in Versions(ys)
  {
    if v in Versions(xs) {
      var j :| 0 <= j < |xs| && Versions(xs)[j] == v;
      assert xs[j] in multiset(ys);
      var k :| 0 <= k < |ys| && ys[k] == xs[j];
      assert Versions(ys)[k] == v;
    }
  }

  // In ascending order there is only one way to hold each number from 1 to n.
  lemma {:induction false} AscendingAndFull(vs: seq<nat>)
    requires Ascending(vs) && IsOneToN(vs)
    ensures vs == UpTo(|vs|)
  {
    if vs != [] {
      var n, init := |vs|, vs[..|vs| - 1];
      assert n in vs;
      var k :| 0 <= k < n && vs[k] == n;
      assert vs[n - 1] >= n;
      forall v | 1 <= v < n ensures v in init {
        assert v in vs;
        var j :| 0 <= j < n && vs[j] == v;
        assert init[j] == v;
      }
      AscendingAndFull(init);
      assert init == UpTo(n - 1);
      assert k == n - 1;
    }
  }

  lemma {:induction false} SortingKeepsMatches(files: seq<File>, risky: string -> bool)
    ensures Bag(ByName(files), risky) == Bag(files, risky)
  {
    if files != [] {
      SortingKeepsMatches(files[1..], risky);
      InsertKeepsMatches(files[0], ByName(files[1..]), risky);
      assert files == [files[0]] + files[1..];
      BagSplits([files[0]], files[1..], risky);
    }
  }

  lemma {:induction false} InsertKeepsMatches(f: File, files: seq<File>, risky: string -> bool)
    ensures Bag(Sorting.Insert(f, files, NameBefore), risky) == Bag([f], risky) + Bag(files, risky)
  {
    if files == [] || Before(f.name, files[0].name) {
      BagSplits([f], files, risky);
    } else {
      InsertKeepsMatches(f, files[1..], risky);
      BagSplits([files[0]], Sorting.Insert(f, files[1..], NameBefore), risky);
      assert files == [files[0]] + files[1..];
      BagSplits([files[0]], files[1..], risky);
      Swap(Bag([files[0]], risky), Bag([f], risky), Bag(files[1..], risky));
    }
  }

  lemma Swap<T>(a: multiset<T>, b: multiset<T>, c: multiset<T>)
    ensures a + (b + c) == b + (a + c)
  {}

  function Bag(files: seq<File>, risky: string -> bool): multiset<Migration> {
    multiset(Matching(files, risky))
  }

  lemma BagSplits(xs: seq<File>, ys: seq<File>, risky: string -> bool)
    ensures Bag(xs + ys, risky) == Bag(xs, risky) + Bag(ys, risky)
  {
    FlatMapAppend(xs, ys, (f: File) => MigrationOf(f, risky));
  }

  predicate NamesAscend(files: seq<File>) {
    forall j, k :: 0 <= j < k < |files| ==> Before(files[j].name, files[k].name)
  }

  lemma SortedByName(files: seq<File>)
    ensures NamesAscend(ByName(files))
  {
    forall a, b ensures NameBefore(a, b) || NameBefore(b, a) {
      BeforeIsTotal(a.name, b.name);
    }
    forall a, b, c | NameBefore(a, b) && NameBefore(b, c) ensures NameBefore(a, c) {
      BeforeIsTransitive(a.name, b.name, c.name);
    }
    Sorting.SortedSorts(files, NameBefore);
    var sorted := ByName(files);
    assert forall j, k :: 0 <= j < k < |sorted| ==> NameBefore(sorted[j], sorted[k]);
  }

  lemma {:induction false} BeforeIsTransitive(a: string, b: string, c: string)
    requires Before(a, b) && Before(b, c)
    ensures Before(a, c)
  {
    if a != [] && a[0] == b[0] && b[0] == c[0] {
      BeforeIsTransitive(a[1..], b[1..], c[1..]);
    }
  }

  lemma {:induction false} BeforeIsTotal(a: string, b: string)
    ensures Before(a, b) || Before(b, a)
  {
    if a != [] && b != [] && a[0] == b[0] {
      BeforeIsTotal(a[1..], b[1..]);
    }
  }

  // Zero padding makes the names' order the numbers' order.
  lemma NameOrderIsVersionOrder(a: string, b: string)
    requires IsMigrationName(a) && IsMigrationName(b) && Before(a, b)
    ensures VersionOf(a) <= VersionOf(b)
  {
    FirstDigits(a);
    FirstDigits(b);
    FirstFour(a, b);
  }

  // The four digits of a number, padded with zeros.
  function Padded(n: nat): string
    requires n < 10000
  {
    [DigitOf(n / 1000), DigitOf(n / 100 % 10), DigitOf(n / 10 % 10), DigitOf(n % 10)]
  }

  function DigitOf(d: nat): (c: char)
    requires d < 10
    ensures IsDigit(c) && Digit(c) == d
  {
    ('0' as int + d) as char
  }

  /** A file named after a number has that number as its version. */
  lemma VersionOfNumber(n: nat, slug: string)
    requires n < 10000 && slug != [] && forall k :: 0 <= k < |slug| ==> IsSlug(slug[k])
    ensures var name := Padded(n) + "_" + slug + ".sql"; IsMigrationName(name) && VersionOf(name) == n
  {
    var name := Padded(n) + "_" + slug + ".sql";
    var front := Padded(n) + "_" + slug;
    assert name == front + ".sql" && |front| == 5 + |slug|;
    assert forall k :: 5 <= k < |front| ==> name[k] == slug[k - 5];
    assert name[|front|..] == ".sql";
    assert name[..4] == Padded(n);
    assert name[0] == Padded(n)[0] && name[1] == Padded(n)[1] && name[2] == Padded(n)[2] && name[3] == Padded(n)[3];
    FourDigits(n);
  }

  lemma FourDigits(n: nat)
    requires n < 10000
    ensures n == 1000 * (n / 1000) + 100 * (n / 100 % 10) + 10 * (n / 10 % 10) + n % 10
  {
    assert n / 100 == 10 * (n / 1000) + n / 100 % 10;
    assert n / 10 == 10 * (n / 100) + n / 10 % 10;
  }

  lemma FirstFour(a: string, b: string)
    requires |a| > 4 && |b| > 4 && Before(a, b)
    ensures a[0] <= b[0]
    ensures a[0] == b[0] ==> a[1] <= b[1]
    ensures a[0] == b[0] && a[1] == b[1] ==> a[2] <= b[2]
    ensures a[0] == b[0] && a[1] == b[1] && a[2] == b[2] ==> a[3] <= b[3]
  {
    if a[0] == b[0] {
      assert Before(a[1..], b[1..]);
      if a[1] == b[1] {
        assert Before(a[1..][1..], b[1..][1..]);
        if a[2] == b[2] {
          assert Before(a[1..][1..][1..], b[1..][1..][1..]);
        }
      }
    }
  }

  lemma {:induction false} VersionsAscend(files: seq<File>, risky: string -> bool)
    requires NamesAscend(files)
    ensures Ascending(Versions(Matching(files, risky)))
    ensures forall v :: v in Versions(Matching(files, risky)) ==>
      exists f :: f in files && IsMigrationName(f.name) && VersionOf(f.name) == v
  {
    if files != [] {
      var init, last := files[..|files| - 1], files[|files| - 1];
      VersionsAscend(init, risky);
      var before, after := Versions(Matching(init, risky)), Versions(Matching(files, risky));
      if IsMigrationName(last.name) {
        assert after == before + [VersionOf(last.name)];
        assert last in files;
        forall k | 0 <= k < |before| ensures before[k] <= VersionOf(last.name) {
          assert before[k] in before;
          var f :| f in init && IsMigrationName(f.name) && VersionOf(f.name) == before[k];
          var j :| 0 <= j < |init| && init[j] == f;
          assert files[j] == f;
          NameOrderIsVersionOrder(f.name, last.name);
        }
      } else {
        assert after == before;
      }
    }
  }

  // ---------- applying them ----------

  datatype Db<D> = Db(version: int, content: D)

  // What becomes of a migration that is attempted: the whole run may also be cut short by a
  // backup that cannot be made, or before or after the transaction is committed.
  datatype Fate = Commits | Fails | NoBackup | CutBefore | CutAfter

  // Only a migration that needs a backup can lack one.
  function FateOf(fate: nat -> Fate, m: Migration, keepBackups: bool): Fate {
    if fate(m.version) == NoBackup && !(m.risky && keepBackups) then Commits else fate(m.version)
  }

  datatype Ending = Finished | Failed(m: Migration) | Cut

  datatype Run<D> = Run(db: Db<D>, backups: seq<Db<D>>, applied: seq<Migration>, ending: Ending)

  type Script<!D> = (D, string) -> D

  function Commit<D>(db: Db<D>, m: Migration, script: Script<D>): Db<D> {
    Db(m.version, script(db.content, m.sql))
  }

  // The copy made before a risky migration.
  function Saved<D>(db: Db<D>, m: Migration, keepBackups: bool): seq<Db<D>> {
    if m.risky && keepBackups then [db] else []
  }

  function EndOf(f: Fate, m: Migration): Ending {
    if f == Fails then Failed(m) else if f == Commits then Finished else Cut
  }

  // Applying the pending migrations one after the other, as far as it goes.
  function Work<D>(db: Db<D>, pending: seq<Migration>, script: Script<D>, keepBackups: bool, fate: nat -> Fate): Run<D>
    decreases |pending|
  {
    if pending == [] then Run(db, [], [], Finished)
    else
      var m := pending[0];
      match FateOf(fate, m, keepBackups)
      case Commits =>
        Prepended(Saved(db, m, keepBackups), [m], Work(Commit(db, m, script), pending[1..], script, keepBackups, fate))
      case CutAfter => Run(Commit(db, m, script), Saved(db, m, keepBackups), [], Cut)
      case NoBackup => Run(db, [], [], Cut)
      case f => Run(db, Saved(db, m, keepBackups), [], EndOf(f, m))
  }

  // A run's result after some work already done.
  function Prepended<D>(backups: seq<Db<D>>, applied: seq<Migration>, r: Run<D>): Run<D> {
    r.(backups := backups + r.backups, applied := applied + r.applied)
  }

  /** A run takes the pending migrations one by one as far as the first that is not committed,
      and ends as that one's fate says. */
  lemma {:induction false} EndsAsFated<D>(
    db: Db<D>, pending: seq<Migration>, script: Script<D>, keepBackups: bool, fate: nat -> Fate)
    ensures var r := Work(db, pending, script, keepBackups, fate);
            var k := |r.applied|;
            && k <= |pending| && r.applied == pending[..k]
            && (forall i :: 0 <= i < k ==> FateOf(fate, pending[i], keepBackups) == Commits)
            && (k == |pending| ==> r.ending == Finished)
            && (k < |pending| ==>
                  && FateOf(fate, pending[k], keepBackups) != Commits
                  && r.ending == if FateOf(fate, pending[k], keepBackups) == Fails then Failed(pending[k]) else Cut)
    decreases |pending|
  {
    if pending == [] {
    } else if FateOf(fate, pending[0], keepBackups) == Commits {
      EndsAsFated(Commit(db, pending[0], script), pending[1..], script, keepBackups, fate);
    }
  }

  /** Only a risky migration of a run that keeps backups can lack one; then it is not applied. */
  lemma LacksBackupExactly<D>(db: Db<D>, m: Migration, script: Script<D>, keepBackups: bool, fate: nat -> Fate)
    requires fate(m.version) == NoBackup
    ensures FateOf(fate, m, keepBackups) == NoBackup <==> m.risky && keepBackups
    ensures Work(db, [m], script, keepBackups, fate) ==
      if m.risky && keepBackups then Run(db, [], [], Cut) else Run(Commit(db, m, script), [], [m], Finished)
  {
    assert [m][1..] == [];
  }

  /** Any other fate comes about. */
  lemma FateIsKept(fate: nat -> Fate, m: Migration, keepBackups: bool)
    requires fate(m.version) != NoBackup
    ensures FateOf(fate, m, keepBackups) == fate(m.version)
  {}

  /** Backups are made only where they are kept, and only for risky migrations: each is of the
      database that such a migration was pending for. */
  lemma {:induction false} BackupsAreForRisky<D>(
    db: Db<D>, migrations: seq<Migration>, script: Script<D>, keepBackups: bool, fate: nat -> Fate)
    requires Contiguous(migrations) && 0 <= db.version <= |migrations|
    ensures forall b :: b in Work(db, migrations[db.version..], script, keepBackups, fate).backups ==>
              keepBackups && 0 <= b.version < |migrations| && migrations[b.version].risky
    decreases |migrations| - db.version
  {
    if db.version == |migrations| {
    } else {
      var m := migrations[db.version];
      assert migrations[db.version..][1..] == migrations[db.version + 1..];
      if FateOf(fate, m, keepBackups) == Commits {
        BackupsAreForRisky(Commit(db, m, script), migrations, script, keepBackups, fate);
      }
    }
  }

  function Pending(migrations: seq<Migration>, version: int): seq<Migration> {
    if migrations == [] then []
    else
      var last := migrations[|migrations| - 1];
      Pending(migrations[..|migrations| - 1], version) + if last.version > version then [last] else []
  }

  class Store<D> {
    var version: int
    var content: D
    var backups: seq<Db<D>>

    constructor (content: D)
      ensures Value() == Db(0, content) && backups == []
    {
      version, this.content, backups := 0, content, [];
    }

    function Value(): Db<D>
      reads this
    {
      Db(version, content)
    }

    /** One run of the migration runner over the discovered migrations. */
    method Migrate(migrations: seq<Migration>, script: Script<D>, keepBackups: bool, fate: nat -> Fate)
      returns (applied: seq<Migration>, ending: Ending)
      modifies this
      ensures Run(Value(), backups, applied, ending)
           == Prepended(old(backups), [], Work(old(Value()), Pending(migrations, old(version)), script, keepBackups, fate))
    {
      applied := [];
      var pending := FindPending(migrations, version);
      ghost var all := Prepended(backups, [], Work(Value(), pending, script, keepBackups, fate));
      for i := 0 to |pending|
        invariant all == Prepended(backups, applied, Work(Value(), pending[i..], script, keepBackups, fate))
      {
        assert pending[i..][0] == pending[i] && pending[i..][1..] == pending[i + 1..];
        var m := pending[i];
        var f := FateOf(fate, m, keepBackups);
        ghost var rest := Work(Commit(Value(), m, script), pending[i + 1..], script, keepBackups, fate);
        Twice(backups, applied, Saved(Value(), m, keepBackups), [m], rest);
        Apply(m, script, keepBackups, f);
        if f != Commits {
          return applied, EndOf(f, m);
        }
        applied := applied + [m];
      }
      return applied, Finished;
    }

    // One migration: a backup if it is risky, then the transaction.
    method Apply(m: Migration, script: Script<D>, keepBackups: bool, f: Fate)
      modifies this
      ensures Value() == if f == Commits || f == CutAfter then Commit(old(Value()), m, script) else old(Value())
      ensures backups == old(backups) + if f == NoBackup then [] else Saved(old(Value()), m, keepBackups)
    {
      if m.risky && keepBackups && f != NoBackup {
        backups := backups + [Value()];
      }
      if f == Commits || f == CutAfter {
        content := script(content, m.sql);
        version := m.version;
      }
    }
  }

  lemma Twice<D>(some: seq<Db<D>>, first: seq<Migration>, more: seq<Db<D>>, second: seq<Migration>, r: Run<D>)
    ensures Prepended(some, first, Prepended(more, second, r)) == Prepended(some + more, first + second, r)
  {
    assert some + (more + r.backups) == (some + more) + r.backups;
    assert first + (second + r.applied) == (first + second) + r.applied;
  }

  method FindPending(migrations: seq<Migration>, version: int) returns (pending: seq<Migration>)
    ensures pending == Pending(migrations, version)
  {
    pending := [];
    for i := 0 to |migrations|
      invariant pending == Pending(migrations[..i], version)
    {
      assert migrations[..i + 1][..i] == migrations[..i];
      if migrations[i].version > version {
        pending := pending + [migrations[i]];
      }
    }
    assert migrations[..|migrations|] == migrations;
  }

  // ---------- what a database holds ----------

  // The given migrations, applied in order to an empty database.
  function Applied<D>(blank: D, migrations: seq<Migration>, script: Script<D>): D {
    if migrations == [] then blank
    else script(Applied(blank, migrations[..|migrations| - 1], script), migrations[|migrations| - 1].sql)
  }

  // The database is the application of exactly the first `version` migrations.
  predicate Consistent<D(==)>(db: Db<D>, migrations: seq<Migration>, blank: D, script: Script<D>) {
    && 0 <= db.version <= |migrations|
    && db.content == Applied(blank, migrations[..db.version], script)
  }

  lemma {:induction false} PendingAreTheRest(migrations: seq<Migration>, version: nat)
    requires Contiguous(migrations) && version <= |migrations|
    ensures Pending(migrations, version) == migrations[version..]
  {
    if version < |migrations| {
      var init, last := migrations[..|migrations| - 1], migrations[|migrations| - 1];
      PendingAreTheRest(init, version);
      assert migrations[version..] == init[version..] + [last];
    } else {
      NonePending(migrations, version);
    }
  }

  lemma {:induction false} NonePending(migrations: seq<Migration>, version: int)
    requires forall k :: 0 <= k < |migrations| ==> migrations[k].version <= version
    ensures Pending(migrations, version) == []
  {
    if migrations != [] {
      NonePending(migrations[..|migrations| - 1], version);
    }
  }

  // How far a run gets, and how it ends.
  predicate Progress<D>(db: Db<D>, r: Run<D>, migrations: seq<Migration>) {
    && 0 <= db.version <= r.db.version <= |migrations|
    && match r.ending
       case Finished => r.db.version == |migrations| && r.applied == migrations[db.version..]
       case Failed(m) =>
         r.db.version < |migrations| && m == migrations[r.db.version] && r.applied == migrations[db.version..r.db.version]
       case Cut =>
         || r.applied == migrations[db.version..r.db.version]
         || (db.version < r.db.version && r.applied == migrations[db.version..r.db.version - 1])
  }

  lemma CommitKeepsConsistent<D>(db: Db<D>, migrations: seq<Migration>, blank: D, script: Script<D>)
    requires Contiguous(migrations) && Consistent(db, migrations, blank, script) && db.version < |migrations|
    ensures var next := Commit(db, migrations[db.version], script);
      next.version == db.version + 1 && Consistent(next, migrations, blank, script)
  {
    assert migrations[..db.version + 1][..db.version] == migrations[..db.version];
  }

  /** However a run ends, the database is again the application of exactly its first
      `version` migrations. */
  lemma {:induction false} RunKeepsConsistent<D>(
    db: Db<D>, migrations: seq<Migration>, blank: D, script: Script<D>, keepBackups: bool, fate: nat -> Fate)
    requires Contiguous(migrations) && Consistent(db, migrations, blank, script)
    ensures Consistent(Work(db, migrations[db.version..], script, keepBackups, fate).db, migrations, blank, script)
    decreases |migrations| - db.version
  {
    if db.version < |migrations| {
      assert migrations[db.version..][1..] == migrations[db.version + 1..];
      CommitKeepsConsistent(db, migrations, blank, script);
      if FateOf(fate, migrations[db.version], keepBackups) == Commits {
        RunKeepsConsistent(Commit(db, migrations[db.version], script), migrations, blank, script, keepBackups, fate);
      }
    }
  }

  /** A run takes the pending migrations in order, and reports the ones it applied: all of
      them if it ends normally, those before the one that failed, or, when it is cut off,
      at most one fewer than it applied. */
  lemma {:induction false} RunMakesProgress<D>(
    db: Db<D>, migrations: seq<Migration>, script: Script<D>, keepBackups: bool, fate: nat -> Fate)
    requires Contiguous(migrations) && 0 <= db.version <= |migrations|
    ensures Progress(db, Work(db, migrations[db.version..], script, keepBackups, fate), migrations)
    decreases |migrations| - db.version
  {
    if db.version < |migrations| {
      var m := migrations[db.version];
      assert migrations[db.version..][1..] == migrations[db.version + 1..];
      if FateOf(fate, m, keepBackups) == Commits {
        var next := Commit(db, m, script);
        RunMakesProgress(next, migrations, script, keepBackups, fate);
        ProgressAfterOne(db, next, Work(next, migrations[next.version..], script, keepBackups, fate),
          Saved(db, m, keepBackups), migrations);
      }
    }
  }

  lemma ProgressAfterOne<D>(db: Db<D>, next: Db<D>, r: Run<D>, saved: seq<Db<D>>, migrations: seq<Migration>)
    requires 0 <= db.version < |migrations| && next.version == db.version + 1
    requires Progress(next, r, migrations)
    ensures Progress(db, Prepended(saved, [migrations[db.version]], r), migrations)
  {
    var m := migrations[db.version];
    assert [m] + migrations[next.version..] == migrations[db.version..];
    assert [m] + migrations[next.version..r.db.version] == migrations[db.version..r.db.version];
    if next.version < r.db.version {
      assert [m] + migrations[next.version..r.db.version - 1] == migrations[db.version..r.db.version - 1];
    }
  }

  // The versions a risky migration is about to leave behind.
  ghost predicate BackedUp<D>(m: Migration, backups: seq<Db<D>>) {
    exists b :: b in backups && b.version == m.version - 1
  }

  /** Every backup is a consistent database, and there is one from just before each risky
      migration of the run. */
  lemma {:induction false} BackupsAreConsistent<D>(
    db: Db<D>, migrations: seq<Migration>, blank: D, script: Script<D>, keepBackups: bool, fate: nat -> Fate)
    requires Contiguous(migrations) && Consistent(db, migrations, blank, script)
    ensures var r := Work(db, migrations[db.version..], script, keepBackups, fate);
      && (forall b :: b in r.backups ==> Consistent(b, migrations, blank, script))
      && (forall v :: db.version <= v < r.db.version && v < |migrations| && migrations[v].risky && keepBackups ==>
            BackedUp(migrations[v], r.backups))
    decreases |migrations| - db.version
  {
    var r := Work(db, migrations[db.version..], script, keepBackups, fate);
    if db.version < |migrations| {
      var m := migrations[db.version];
      assert migrations[db.version..][0] == m && migrations[db.version..][1..] == migrations[db.version + 1..];
      var next := Commit(db, m, script);
      CommitKeepsConsistent(db, migrations, blank, script);
      if m.risky && keepBackups && FateOf(fate, m, keepBackups) != NoBackup {
        assert r.backups[0] == db;
        assert db in r.backups;
      }
      if FateOf(fate, m, keepBackups) == Commits {
        BackupsAreConsistent(next, migrations, blank, script, keepBackups, fate);
        var rest := Work(next, migrations[next.version..], script, keepBackups, fate);
        forall v | db.version <= v < r.db.version && v < |migrations| && migrations[v].risky && keepBackups
          ensures BackedUp(migrations[v], r.backups)
        {
          if v > db.version {
            var b :| b in rest.backups && b.version == migrations[v].version - 1;
            assert b in r.backups;
          }
        }
      }
    }
  }

  // ---------- over many runs ----------

  datatype Attempt = Attempt(migrations: seq<Migration>, keepBackups: bool, fate: nat -> Fate)

  // Releases only add migrations.
  ghost predicate Growing(attempts: seq<Attempt>) {
    && (forall k :: 0 <= k < |attempts| ==> Contiguous(attempts[k].migrations))
    && (forall j, k :: 0 <= j < k < |attempts| ==> attempts[j].migrations <= attempts[k].migrations)
  }

  function OneRun<D>(db: Db<D>, a: Attempt, script: Script<D>): Run<D> {
    Work(db, Pending(a.migrations, db.version), script, a.keepBackups, a.fate)
  }

  function After<D>(db: Db<D>, attempts: seq<Attempt>, script: Script<D>): Db<D> {
    if attempts == [] then db
    else OneRun(After(db, attempts[..|attempts| - 1], script), attempts[|attempts| - 1], script).db
  }

  /** Over any sequence of runs, however each of them ends, and with more migrations from
      release to release, the database stays the in-order application of exactly its first
      `version` migrations, each once. */
  lemma {:induction false} SurvivesEverything<D>(attempts: seq<Attempt>, blank: D, script: Script<D>)
    requires attempts != [] && Growing(attempts)
    ensures Consistent(After(Db(0, blank), attempts, script), attempts[|attempts| - 1].migrations, blank, script)
  {
    var init, a := attempts[..|attempts| - 1], attempts[|attempts| - 1];
    var db := After(Db(0, blank), init, script);
    if init != [] {
      SurvivesEverything(init, blank, script);
      GrowingKeepsConsistent(db, init[|init| - 1].migrations, a.migrations, blank, script);
    }
    PendingAreTheRest(a.migrations, db.version);
    RunKeepsConsistent(db, a.migrations, blank, script, a.keepBackups, a.fate);
    RunMakesProgress(db, a.migrations, script, a.keepBackups, a.fate);
  }

  lemma GrowingKeepsConsistent<D>(db: Db<D>, fewer: seq<Migration>, more: seq<Migration>, blank: D, script: Script<D>)
    requires Consistent(db, fewer, blank, script) && fewer <= more
    ensures Consistent(db, more, blank, script)
  {
    assert more[..db.version] == fewer[..db.version];
  }

  /** A run that ends normally reaches the last migration, and running again at once
      applies none and leaves the database as it is, whatever would have happened. */
  lemma NormalRunIsComplete<D>(attempts: seq<Attempt>, blank: D, script: Script<D>, again: Attempt)
    requires attempts != [] && Growing(attempts)
    requires var before := After(Db(0, blank), attempts[..|attempts| - 1], script);
      OneRun(before, attempts[|attempts| - 1], script).ending == Finished
    requires again.migrations == attempts[|attempts| - 1].migrations
    ensures var db, all := After(Db(0, blank), attempts, script), again.migrations;
      && db == Db(|all|, Applied(blank, all, script))
      && OneRun(db, again, script) == Run(db, [], [], Finished)
  {
    var init, a := attempts[..|attempts| - 1], attempts[|attempts| - 1];
    var before := After(Db(0, blank), init, script);
    if init != [] {
      SurvivesEverything(init, blank, script);
      GrowingKeepsConsistent(before, init[|init| - 1].migrations, a.migrations, blank, script);
    }
    RunCompletes(before, a, blank, script);
    PendingAreTheRest(a.migrations, |a.migrations|);
  }

  lemma RunCompletes<D>(db: Db<D>, a: Attempt, blank: D, script: Script<D>)
    requires Contiguous(a.migrations) && Consistent(db, a.migrations, blank, script)
    requires OneRun(db, a, script).ending == Finished
    ensures OneRun(db, a, script).db == Db(|a.migrations|, Applied(blank, a.migrations, script))
  {
    PendingAreTheRest(a.migrations, db.version);
    RunKeepsConsistent(db, a.migrations, blank, script, a.keepBackups, a.fate);
    RunMakesProgress(db, a.migrations, script, a.keepBackups, a.fate);
    assert a.migrations[..|a.migrations|] == a.migrations;
  }

  /** A failed run leaves the database just short of the migration it names, and undisturbed
      by it; when its failure is repaired the next run resumes there. */
  lemma ResumesWhereItFailed<D>(db: Db<D>, a: Attempt, blank: D, script: Script<D>, next: Attempt)
    requires Contiguous(a.migrations) && Consistent(db, a.migrations, blank, script)
    requires OneRun(db, a, script).ending.Failed?
    requires next.migrations == a.migrations && forall v :: next.fate(v) == Commits
    ensures var r := OneRun(db, a, script);
      && 0 <= r.db.version < |a.migrations| && r.ending.m == a.migrations[r.db.version]
      && r.db.content == Applied(blank, a.migrations[..r.db.version], script)
      && OneRun(r.db, next, script).applied == a.migrations[r.db.version..]
      && OneRun(r.db, next, script).db == Db(|a.migrations|, Applied(blank, a.migrations, script))
  {
    var r := OneRun(db, a, script);
    PendingAreTheRest(a.migrations, db.version);
    RunKeepsConsistent(db, a.migrations, blank, script, a.keepBackups, a.fate);
    RunMakesProgress(db, a.migrations, script, a.keepBackups, a.fate);
    PendingAreTheRest(a.migrations, r.db.version);
    RunKeepsConsistent(r.db, a.migrations, blank, script, next.keepBackups, next.fate);
    RunMakesProgress(r.db, a.migrations, script, next.keepBackups, next.fate);
    AllCommit(r.db, a.migrations[r.db.version..], script, next.keepBackups, next.fate);
    assert a.migrations[..|a.migrations|] == a.migrations;
  }

  lemma {:induction false} AllCommit<D>(db: Db<D>, pending: seq<Migration>, script: Script<D>, keepBackups: bool, fate: nat -> Fate)
    requires forall v :: fate(v) == Commits
    ensures Work(db, pending, script, keepBackups, fate).ending == Finished
    decreases |pending|
  {
    if pending != [] {
      AllCommit(Commit(db, pending[0], script), pending[1..], script, keepBackups, fate);
    }
  }
}
