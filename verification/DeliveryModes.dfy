/** Who gets a file, told by the modes written in the tables, and by what the users
    have asked for (commands/afd_fui.c). */
module DeliveryModes {
  import opened Text
  import opened TableLines
  import opened AfdTables
  import opened AfdUpdates
  import opened AfdRows
  import opened AfdStatus
  import opened AfdArchive
  import opened AfdRuns
  import opened AfdEffects
  import opened Delivery
  import opened DeliveryLaws
  import opened DeliveryAddresses
  import opened DeliveryPass1
  import opened DeliveryRecipients

  // ---------------------------------------------------------------- modes

  /** The letter that tells a delivery is the one behind the last separator. */
  lemma ModeIsBehindLast(x: string, before: string, m: char, after: string)
    requires FIELD !in [m] + after
    ensures IsDelivery(Entry(x, [m] + after)) <==> m == 'D'
    ensures IsDelivery(Entry(x, before + [FIELD] + ([m] + after))) <==> m == 'D'
  {
    hide AfterLast;
    var t := [m] + after;
    NoneLast(t);
    LastOf(before, t);
  }

  lemma NoneLast(t: string)
    requires FIELD !in t
    ensures AfterLast(t) == t
  {
  }

  lemma {:induction false} LastOf(before: string, t: string)
    requires FIELD !in t
    ensures AfterLast(before + [FIELD] + t) == t
    decreases |before|
  {
    hide IndexOf, AfterLast;
    var s := before + [FIELD] + t;
    assert s[|before|] == FIELD;
    var i := IndexOf(s, FIELD);
    LastStep(s);
    if i < |before| {
      assert s[i + 1..] == before[i + 1..] + [FIELD] + t;
      LastOf(before[i + 1..], t);
    } else {
      assert i == |before| && s[i + 1..] == t;
      NoneLast(t);
    }
  }

  lemma LastStep(s: string)
    requires FIELD in s
    ensures AfterLast(s) == AfterLast(s[IndexOf(s, FIELD) + 1..])
  {
    hide IndexOf;
  }

  function ModeFor(delivery: bool): char { if delivery then 'D' else 'N' }

  /** D is delivery and N is not. */
  lemma WrittenMode(x: string, m: char)
    requires GoodMode(m)
    ensures IsDelivery(FstEntry(x, m)) <==> m == 'D'
  {
    ModeIsBehindLast(x, "//", m, "");
    assert ModeMark(m) == "//" + [FIELD] + ([m] + "");
  }

  /** A row as the program writes it. */
  ghost predicate Marked(row: Row)
  {
    forall e :: e in row.entries ==> exists a, m :: GoodMode(m) && e == FstEntry(a, m)
  }

  lemma {:induction false} AddressesIn(delivery: bool, es: seq<Entry>, x: string)
    ensures x in AddressesWith(delivery, es) <==>
            exists i :: 0 <= i < |es| && es[i].key == x && (IsDelivery(es[i]) <==> delivery)
  {
    hide IsDelivery;
    if es != [] {
      var n := |es| - 1;
      AddressesIn(delivery, es[..n], x);
      forall i | 0 <= i < n ensures es[..n][i] == es[i] {
      }
    }
  }

  lemma MarkedAddresses(delivery: bool, row: Row, x: string)
    requires Marked(row)
    ensures x in AddressesWith(delivery, row.entries) <==> FstEntry(x, ModeFor(delivery)) in row.entries
  {
    hide IsDelivery, AddressesWith, FstEntry;
    var es := row.entries;
    AddressesIn(delivery, es, x);
    WrittenMode(x, ModeFor(delivery));
    KeyOfEntry(x, ModeFor(delivery));
    if i :| 0 <= i < |es| && es[i].key == x && (IsDelivery(es[i]) <==> delivery) {
      assert es[i] in es;
      var a, m :| GoodMode(m) && es[i] == FstEntry(a, m);
      WrittenMode(a, m);
      KeyOfEntry(a, m);
    }
  }

  lemma KeyOfEntry(x: string, m: char)
    ensures FstEntry(x, m).key == x
  {
  }

  // ---------------------------------------------------------------- times

  /** The entry of a directory for a file is the first of that name. */
  predicate FirstFor(entries: seq<DirEntry>, file: string, j: nat)
  {
    j < |entries| && entries[j].file == file && forall i :: 0 <= i < j ==> entries[i].file != file
  }

  lemma {:induction false} EntryIs(entries: seq<DirEntry>, file: string, j: nat)
    requires FirstFor(entries, file, j)
    ensures EntryFor(entries, file) == Some(entries[j])
  {
    if j > 0 {
      EntryIs(entries[1..], file, j - 1);
    }
  }

  /** A time that a form of the file has and that is not the one in the table. */
  predicate NewTime(e: DirEntry, time: nat, t: nat)
  {
    t != time && Some(t) in {e.plain, e.compressed}
  }

  /** What is found is a new time of the file, if there is one. */
  lemma UpdatedIff(w: World, dir: string, file: string, time: nat, j: nat)
    requires dir in w.dirs && FirstFor(w.dirs[dir], file, j) && !IsStar(file)
    ensures var e := w.dirs[dir][j]; var t := UpdatedSince(w, dir, file, time);
            && (t != 0 ==> NewTime(e, time, t))
            && (NewTime(e, time, t) <==> exists u :: NewTime(e, time, u))
  {
    EntryIs(w.dirs[dir], file, j);
    var e := w.dirs[dir][j];
    if e.plain.Some? {
      assert NewTime(e, time, e.plain.value) <==> e.plain.value != time;
    }
    if e.compressed.Some? {
      assert NewTime(e, time, e.compressed.value) <==> e.compressed.value != time;
    }
  }

  /** A file with two forms of different times counts as changed whatever the table
      says, and no other file does. */
  lemma AlwaysChangedIff(w: World, dir: string, file: string, j: nat)
    requires dir in w.dirs && FirstFor(w.dirs[dir], file, j) && !IsStar(file)
    ensures var e := w.dirs[dir][j];
            (forall time :: UpdatedSince(w, dir, file, time) != 0) <==>
            && e.plain.Some? && e.compressed.Some? && e.plain != e.compressed
            && e.plain.value != 0 && e.compressed.value != 0
  {
    EntryIs(w.dirs[dir], file, j);
    var e := w.dirs[dir][j];
    if e.plain.Some? {
      assert UpdatedSince(w, dir, file, e.plain.value) in {0, Or0(e.compressed)};
    }
    if e.compressed.Some? {
      assert UpdatedSince(w, dir, file, e.compressed.value) in {0, Or0(e.plain)};
    }
    if e.plain.None? && e.compressed.None? {
      assert UpdatedSince(w, dir, file, 0) == 0;
    }
  }

  function Or0(t: Option<nat>): nat { if t.Some? then t.value else 0 }

  /** A file that is in no directory entry has not changed; the name for all files
      always has. */
  lemma NotInDirectory(w: World, dir: string, file: string, time: nat)
    ensures IsStar(file) ==> UpdatedSince(w, dir, file, time) == 1
    ensures !IsStar(file) && (dir !in w.dirs || forall i :: 0 <= i < |w.dirs[dir]| ==> w.dirs[dir][i].file != file) ==>
              UpdatedSince(w, dir, file, time) == 0
  {
    if dir in w.dirs && forall i :: 0 <= i < |w.dirs[dir]| ==> w.dirs[dir][i].file != file {
      NoEntry(w.dirs[dir], file);
    }
  }

  lemma {:induction false} NoEntry(entries: seq<DirEntry>, file: string)
    requires forall i :: 0 <= i < |entries| ==> entries[i].file != file
    ensures EntryFor(entries, file) == None
  {
    if entries != [] {
      NoEntry(entries[1..], file);
    }
  }

  /** The modification table has this time for the file, in its first line for it. */
  predicate Recorded(w: World, dir: string, file: string, time: nat)
  {
    dir in w.fmt &&
    exists j :: 0 <= j < |w.fmt[dir]| && w.fmt[dir][j] == (file, time) &&
      forall i :: 0 <= i < j ==> w.fmt[dir][i].0 != file
  }

  lemma {:induction false} TimeInIs(fmt: seq<(string, nat)>, file: string, time: nat)
    ensures TimeIn(fmt, file) == Some(time) <==>
            exists j :: 0 <= j < |fmt| && fmt[j] == (file, time) && forall i :: 0 <= i < j ==> fmt[i].0 != file
  {
    if fmt != [] {
      TimeInIs(fmt[1..], file, time);
      if fmt[0].0 == file {
        assert fmt[0] == (file, time) <==> fmt[0].1 == time;
      } else {
        if j :| 0 <= j < |fmt[1..]| && fmt[1..][j] == (file, time) && forall i :: 0 <= i < j ==> fmt[1..][i].0 != file {
          forall i | 0 <= i < j + 1 ensures fmt[i].0 != file {
            if i > 0 {
              assert fmt[1..][i - 1] == fmt[i];
            }
          }
          assert fmt[j + 1] == (file, time);
        }
        if j :| 0 <= j < |fmt| && fmt[j] == (file, time) && forall i :: 0 <= i < j ==> fmt[i].0 != file {
          assert j > 0 && fmt[1..][j - 1] == (file, time);
          forall i | 0 <= i < j - 1 ensures fmt[1..][i].0 != file {
            assert fmt[1..][i] == fmt[i + 1];
          }
        }
      }
    }
  }

  /** A file has changed for those who have all files if a form of it is there whose
      time is not recorded. */
  lemma ChangedIff(w: World, dir: string, e: DirEntry)
    ensures Changed(w, dir, e) <==>
            exists t :: Some(t) in {e.plain, e.compressed} && !Recorded(w, dir, e.file, t)
  {
    forall t: nat ensures dir in w.fmt ==> (Recorded(w, dir, e.file, t) <==> TimeIn(w.fmt[dir], e.file) == Some(t)) {
      if dir in w.fmt {
        TimeInIs(w.fmt[dir], e.file, t);
      }
    }
    if e.plain.Some? {
      assert Some(e.plain.value) in {e.plain, e.compressed};
    }
    if e.compressed.Some? {
      assert Some(e.compressed.value) in {e.plain, e.compressed};
    }
  }

  /** The time that a subscription writes is the time that is read. */
  lemma TimeIsRead(file: string, time: nat)
    requires GoodFile(file)
    ensures Name(Fst, FileHead(file, time)) == file && TimeOf(FileHead(file, time)) == time
  {
    hide Dec, AtoiFrom;
    var h, d := FileHead(file, time), Dec(time);
    GoodFileHead(file, time);
    IndexOfIn(file, BLANK, d);
    assert BLANK !in file by {
      forall i | 0 <= i < |file| ensures file[i] != BLANK {
        assert WordChar(file[i]);
      }
    }
    assert h[|file| + 1..] == d;
    AtoiDec(time);
  }

  /** An archive that is not marked, or whose table cannot be read, sends nothing. */
  lemma OthersSendNothing(w: World, spec: ArchiveSpec, rows: seq<Row>, delivery: bool, file: string)
    requires !spec.marked || spec.fst.None?
    ensures SentTo(w, [spec], [rows], delivery, file) == []
  {
    hide TableItems;
    assert [spec][..0] == [] && [rows][..0] == [];
    assert AllItems(w, [], [], delivery) == [];
    assert AllItems(w, [spec], [rows], delivery) == [];
    assert Final(w, []) == [];
    assert AddressesOf([], file) == "";
    NoAddresses();
  }

  // ---------------------------------------------------------------- by entries

  /** An entry for the file itself, which has changed since the time in the table. */
  ghost predicate HasEntryFor(w: World, archives: seq<ArchiveSpec>, tables: seq<seq<Row>>, e: Entry, file: string)
    requires |tables| == |archives|
  {
    exists k: nat, i: nat :: Applies(w, archives, tables, file, k, i) && e in tables[k][i].entries
  }

  ghost predicate Applies(w: World, archives: seq<ArchiveSpec>, tables: seq<seq<Row>>, file: string, k: nat, i: nat)
    requires |tables| == |archives|
    ensures Applies(w, archives, tables, file, k, i) ==> InTables(archives, tables, k, i)
  {
    && InTables(archives, tables, k, i) && FileAt(tables, k, i) == file
    && UpdatedSince(w, archives[k].dir, file, TimeOf(tables[k][i].head)) != 0
  }

  /** An entry for all files of an archive that has the file, changed since the time
      in the modification table. */
  ghost predicate HasEntryForAll(w: World, archives: seq<ArchiveSpec>, tables: seq<seq<Row>>, e: Entry, file: string)
    requires |tables| == |archives|
  {
    exists k: nat, i: nat :: AppliesToAll(w, archives, tables, file, k, i) && e in tables[k][i].entries
  }

  ghost predicate AppliesToAll(w: World, archives: seq<ArchiveSpec>, tables: seq<seq<Row>>, file: string, k: nat,
                               i: nat)
    requires |tables| == |archives|
    ensures AppliesToAll(w, archives, tables, file, k, i) ==> InTables(archives, tables, k, i)
  {
    && InTables(archives, tables, k, i) && StarName(FileAt(tables, k, i))
    && archives[k].dir in w.dirs && ChangedIn(w, archives[k].dir, w.dirs[archives[k].dir], file)
  }

  ghost predicate AllMarked(archives: seq<ArchiveSpec>, tables: seq<seq<Row>>)
    requires |tables| == |archives|
  {
    forall k: nat, i: nat :: InTables(archives, tables, k, i) ==> Marked(tables[k][i])
  }

  lemma DirectByEntry(w: World, archives: seq<ArchiveSpec>, tables: seq<seq<Row>>, delivery: bool, file: string,
                      x: string)
    requires |tables| == |archives| && AllMarked(archives, tables)
    ensures (exists k, i :: Direct(w, archives, tables, delivery, file, x, k, i)) <==>
            HasEntryFor(w, archives, tables, FstEntry(x, ModeFor(delivery)), file)
  {
    hide AddressesWith, Name, TimeOf, UpdatedSince, Marked, FstEntry;
    if k: nat, i: nat :| Direct(w, archives, tables, delivery, file, x, k, i) {
      MarkedAddresses(delivery, tables[k][i], x);
      assert Applies(w, archives, tables, file, k, i);
    }
    if k: nat, i: nat :| Applies(w, archives, tables, file, k, i) &&
                         FstEntry(x, ModeFor(delivery)) in tables[k][i].entries {
      MarkedAddresses(delivery, tables[k][i], x);
      assert Direct(w, archives, tables, delivery, file, x, k, i);
    }
  }

  lemma ByStarByEntry(w: World, archives: seq<ArchiveSpec>, tables: seq<seq<Row>>, delivery: bool, file: string,
                      x: string)
    requires |tables| == |archives| && AllMarked(archives, tables)
    ensures (exists k, i :: ByStar(w, archives, tables, delivery, file, x, k, i)) <==>
            HasEntryForAll(w, archives, tables, FstEntry(x, ModeFor(delivery)), file)
  {
    hide AddressesWith, Name, ChangedIn, Marked, FstEntry;
    if k: nat, i: nat :| ByStar(w, archives, tables, delivery, file, x, k, i) {
      MarkedAddresses(delivery, tables[k][i], x);
      assert AppliesToAll(w, archives, tables, file, k, i);
    }
    if k: nat, i: nat :| AppliesToAll(w, archives, tables, file, k, i) &&
                         FstEntry(x, ModeFor(delivery)) in tables[k][i].entries {
      MarkedAddresses(delivery, tables[k][i], x);
      assert ByStar(w, archives, tables, delivery, file, x, k, i);
    }
  }

  /** The addresses that a file is sent to, or that are notified of it. */
  ghost function SentTo(w: World, archives: seq<ArchiveSpec>, tables: seq<seq<Row>>, delivery: bool, file: string)
      : seq<string>
    requires |tables| == |archives|
  {
    Addresses(AddressesOf(Final(w, AllItems(w, archives, tables, delivery)), file))
  }

  /** A file is sent to those whose entry, for it or for all files, has the mode D, and
      those are notified whose entry has the mode N. */
  lemma SentByMode(w: World, archives: seq<ArchiveSpec>, tables: seq<seq<Row>>, delivery: bool, file: string,
                   x: string)
    requires |tables| == |archives| && GoodTables(archives, tables) && OnceListed(archives, tables, file)
    requires AllMarked(archives, tables) && NoStarNames(w) && !StarName(file)
    ensures x in SentTo(w, archives, tables, delivery, file) <==>
            || HasEntryFor(w, archives, tables, FstEntry(x, ModeFor(delivery)), file)
            || HasEntryForAll(w, archives, tables, FstEntry(x, ModeFor(delivery)), file)
  {
    hide AllItems, Final, GoodTables, AllMarked, OnceListed, Direct, ByStar, Addresses, AddressesOf, NoStarNames,
         HasEntryFor, HasEntryForAll, FstEntry;
    Recipients(w, archives, tables, delivery, file);
    assert x in Addresses(AddressesOf(Final(w, AllItems(w, archives, tables, delivery)), file)) <==>
           || (exists k, i :: Direct(w, archives, tables, delivery, file, x, k, i))
           || (exists k, i :: ByStar(w, archives, tables, delivery, file, x, k, i));
    DirectByEntry(w, archives, tables, delivery, file, x);
    ByStarByEntry(w, archives, tables, delivery, file, x);
  }

  // ---------------------------------------------------------------- by what was asked for

  /** The time in the table of the file is not the one it has now. */
  ghost predicate ChangedSince(w: World, dir: string, rows: seq<Row>, file: string)
  {
    exists i :: 0 <= i < |rows| && Name(Fst, rows[i].head) == file &&
      UpdatedSince(w, dir, file, TimeOf(rows[i].head)) != 0
  }

  lemma RowsMarked(t: Tables, users: set<string>, files: set<string>, i: nat)
    requires Names(users, files) && Inv(t, users, files) && i < |t.fst|
    ensures Name(Fst, t.fst[i].head) in files && Marked(t.fst[i]) && GoodRow(t.fst[i])
    ensures forall e :: Count(Fst, t.fst, Name(Fst, t.fst[i].head), e) == multiset(t.fst[i].entries)[e]
    ensures forall a, m :: FstEntry(a, m) in t.fst[i].entries ==> a in users
  {
    hide Count, Num, Name, Transposed, GoodFile, FstEntry, GoodAddress, SftEntry;
    var n, es := Name(Fst, t.fst[i].head), t.fst[i].entries;
    NumAt(Fst, t.fst, i);
    forall e ensures Count(Fst, t.fst, n, e) == multiset(es)[e] {
      CountAt(Fst, t.fst, i, e);
    }
    forall e | e in es ensures exists a, m :: a in users && GoodMode(m) && e == FstEntry(a, m) && GoodAddress(e.key) {
      assert e in multiset(es);
      var a, m :| a in users && GoodMode(m) && e == FstEntry(a, m);
      UserIsAddress(users, files, a, m);
    }
    forall a, m | FstEntry(a, m) in es ensures a in users {
      var b, o :| b in users && GoodMode(o) && FstEntry(a, m) == FstEntry(b, o);
      KeyOfEntry(a, m);
      KeyOfEntry(b, o);
    }
  }

  lemma UserIsAddress(users: set<string>, files: set<string>, a: string, m: char)
    requires Names(users, files) && a in users && GoodMode(m)
    ensures GoodAddress(FstEntry(a, m).key)
  {
    hide ValidEntry, GoodAddress;
    GoodFstEntry(a, m);
    ValidKey(FstEntry(a, m));
  }

  lemma OneRowOf(t: Tables, users: set<string>, files: set<string>, i: nat, j: nat)
    requires OneRowEach(Fst, t.fst, files) && i < |t.fst| && j < |t.fst|
    requires Name(Fst, t.fst[i].head) == Name(Fst, t.fst[j].head)
    ensures i == j
  {
    hide Count, Name;
    if i != j {
      TwoRows(Fst, t.fst, if i < j then i else j, if i < j then j else i);
    }
  }

  lemma {:induction false} TwoRows(k: Kind, rows: seq<Row>, i: nat, j: nat)
    requires i < j < |rows| && Name(k, rows[i].head) == Name(k, rows[j].head)
    ensures Num(k, rows, Name(k, rows[i].head)) > 1
  {
    hide Name;
    if j == |rows| - 1 {
      NumAt(k, rows[..j], i);
    } else {
      TwoRows(k, rows[..|rows| - 1], i, j);
    }
  }

  /** The table of an archive as it stands after a run. */
  lemma RunTables(t: Tables, users: set<string>, files: set<string>, spec: ArchiveSpec, file: string)
    requires Names(users, files) && Inv(t, users, files)
    ensures AllMarked([spec], [t.fst]) && GoodTables([spec], [t.fst]) && OnceListed([spec], [t.fst], file)
  {
    hide Name, Marked, GoodRow, Names, Inv;
    forall k: nat, i: nat | InTables([spec], [t.fst], k, i) ensures Marked([t.fst][k][i]) && GoodRow([t.fst][k][i]) {
      RowsMarked(t, users, files, i);
    }
    forall k, i, l, j |
      InTables([spec], [t.fst], k, i) && FileAt([t.fst], k, i) == file &&
      InTables([spec], [t.fst], l, j) && FileAt([t.fst], l, j) == file
      ensures k == l && i == j
    {
      OneRow(t, users, files);
      OneRowOf(t, users, files, i, j);
    }
  }

  lemma OneRow(t: Tables, users: set<string>, files: set<string>)
    requires Inv(t, users, files)
    ensures OneRowEach(Fst, t.fst, files)
  {
    hide OneRowEach, Transposed, NothingElse;
  }

  lemma EntryIsListed(t: Tables, users: set<string>, files: set<string>, w: World, spec: ArchiveSpec, file: string,
                      x: string, m: char)
    requires Names(users, files) && Inv(t, users, files) && TakesPart(spec)
    ensures HasEntryFor(w, [spec], [t.fst], FstEntry(x, m), file) <==>
            ListedBack(t, x, file, m) > 0 && ChangedSince(w, spec.dir, t.fst, file)
  {
    hide Count, Num, Name, Inv, Names, FstEntry, UpdatedSince, TimeOf, Marked, GoodRow;
    var e := FstEntry(x, m);
    if HasEntryFor(w, [spec], [t.fst], e, file) {
      var k: nat, i: nat :| Applies(w, [spec], [t.fst], file, k, i) && e in [t.fst][k][i].entries;
      RowsMarked(t, users, files, i);
      assert e in multiset(t.fst[i].entries);
    }
    if ListedBack(t, x, file, m) > 0 && ChangedSince(w, spec.dir, t.fst, file) {
      var i :| 0 <= i < |t.fst| && Name(Fst, t.fst[i].head) == file &&
               UpdatedSince(w, spec.dir, file, TimeOf(t.fst[i].head)) != 0;
      RowsMarked(t, users, files, i);
      assert e in t.fst[i].entries;
      assert Applies(w, [spec], [t.fst], file, 0, i);
    }
  }

  ghost predicate HasChanged(w: World, dir: string, file: string)
  {
    dir in w.dirs && ChangedIn(w, dir, w.dirs[dir], file)
  }

  lemma AllEntryIsListed(t: Tables, users: set<string>, files: set<string>, w: World, spec: ArchiveSpec, file: string,
                         x: string, m: char)
    requires Names(users, files) && Inv(t, users, files) && TakesPart(spec)
    ensures HasEntryForAll(w, [spec], [t.fst], FstEntry(x, m), file) <==>
            ListedBack(t, x, ALL, m) > 0 && HasChanged(w, spec.dir, file)
  {
    hide Count, Num, Name, Inv, Names, FstEntry, ChangedIn, Marked, GoodRow, GoodFile;
    var e := FstEntry(x, m);
    if HasEntryForAll(w, [spec], [t.fst], e, file) {
      var k: nat, i: nat :| AppliesToAll(w, [spec], [t.fst], file, k, i) && e in [t.fst][k][i].entries;
      RowsMarked(t, users, files, i);
      StarFileIsAll(users, files, Name(Fst, t.fst[i].head));
      assert e in multiset(t.fst[i].entries);
    }
    if ListedBack(t, x, ALL, m) > 0 && HasChanged(w, spec.dir, file) {
      CountNeedsRow(Fst, t.fst, ALL, e);
      var i := RowAt(Fst, t.fst, ALL);
      RowsMarked(t, users, files, i);
      assert e in t.fst[i].entries;
      assert AppliesToAll(w, [spec], [t.fst], file, 0, i);
    }
  }

  lemma StarFileIsAll(users: set<string>, files: set<string>, f: string)
    requires Names(users, files) && f in files && StarName(f)
    ensures f == ALL
  {
  }

  /** After any run of subscriptions and unsubscriptions, a changed file is sent to
      exactly those users whom the subscribers table has with the file and the mode D,
      or with all files and the mode D; and those with the mode N are notified. */
  lemma SentAsSubscribed(users: set<string>, files: set<string>, steps: seq<Step>, w: World, spec: ArchiveSpec,
                         delivery: bool, file: string, x: string)
    requires Names(users, files) && StepsFrom(users, files, steps) && spec.marked && spec.fst.Some? && NoStarNames(w)
    requires file in files && file != ALL && ALL in files && x in users
    ensures var t := After(steps); var m := ModeFor(delivery);
            x in SentTo(w, [spec], [t.fst], delivery, file) <==>
            || (Listed(t, x, file, m) > 0 && ChangedSince(w, spec.dir, t.fst, file))
            || (Listed(t, x, ALL, m) > 0 && HasChanged(w, spec.dir, file))
  {
    hide SentTo, Inv, HasEntryFor, HasEntryForAll, FstEntry, AllMarked, GoodTables, OnceListed, NoStarNames, After,
         Listed, ListedBack, GoodFile, GoodUser, ChangedSince, HasChanged;
    var t, m := After(steps), ModeFor(delivery);
    AlwaysTransposed(users, files, steps);
    RunTables(t, users, files, spec, file);
    assert !StarName(file) by {
      if StarName(file) {
        StarFileIsAll(users, files, file);
      }
    }
    SentByMode(w, [spec], [t.fst], delivery, file, x);
    EntryIsListed(t, users, files, w, spec, file, x, m);
    AllEntryIsListed(t, users, files, w, spec, file, x, m);
    assert Listed(t, x, file, m) == ListedBack(t, x, file, m) && Listed(t, x, ALL, m) == ListedBack(t, x, ALL, m);
  }

  /** So one who subscribes to a file that he is not subscribed to, with mode m, gets it
      when it has changed, or is notified, as he asked, and not the other way. */
  lemma SubscriberIsServed(users: set<string>, files: set<string>, steps: seq<Step>, s: Step, w: World,
                           spec: ArchiveSpec, delivery: bool)
    requires Names(users, files) && StepsFrom(users, files, steps) && From(users, files, s) && s.Subscribe?
    requires spec.marked && spec.fst.Some? && NoStarNames(w) && s.file != ALL && ALL in files
    requires !Covered(After(steps), s.address, s.file)
    ensures var t := After(steps + [s]);
            s.address in SentTo(w, [spec], [t.fst], delivery, s.file) <==>
            s.mode == ModeFor(delivery) && ChangedSince(w, spec.dir, t.fst, s.file)
  {
    hide SentTo, After, Listed, ListedBack, ChangedSince, HasChanged, NoStarNames, Names;
    EveryStepDoes(users, files, steps, s);
    assert StepsFrom(users, files, steps + [s]);
    SentAsSubscribed(users, files, steps + [s], w, spec, delivery, s.file, s.address);
  }
}
