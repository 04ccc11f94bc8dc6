/** Who gets a file: the three passes together (commands/afd_fui.c). */
module DeliveryRecipients {
  import opened AddressText
  import opened TableLines
  import opened FoldedTables
  import opened AfdTables
  import opened AfdRows
  import opened DeliveryLists
  import opened Delivery
  import opened DeliveryLaws
  import opened DeliveryAddresses
  import opened DeliveryPass1

  // ---------------------------------------------------------------- the three passes

  function Final(w: World, xs: seq<Item>): (ys: seq<Item>)
    ensures |ys| == |Visited(w, xs, |xs|)|
    ensures forall i :: 0 <= i < |ys| ==> ys[i] == Unduplicated(Visited(w, xs, |xs|)[i])
  {
    var t := Visited(w, xs, |xs|);
    seq(|t|, i requires 0 <= i < |t| => Unduplicated(t[i]))
  }

  /** Passes 1 to 3 of afd_fui_deliver */
  method BuildLists(archives: seq<ArchiveSpec>, w: World, ghost recs: seq<seq<Rec>>)
      returns (d: FileList, n: FileList, ret: bool)
    requires Readable(archives, recs)
    ensures fresh(d) && fresh(n) && Apart(d, n)
    ensures d.items == Final(w, AllItems(w, archives, Tables(recs), true))
    ensures n.items == Final(w, AllItems(w, archives, Tables(recs), false))
  {
    hide AllItems, Tables, Visited, Unduplicated, FileList.Linked;
    d := new FileList();
    n := new FileList();
    ret := Pass1(archives, w, d, n, recs);
    Pass2(d, w);
    Pass2(n, w);
    RemoveDupAddr(d);
    RemoveDupAddr(n);
  }

  // ---------------------------------------------------------------- whom the tables name

  /** Row i of archive k takes part. */
  predicate InTables(archives: seq<ArchiveSpec>, tables: seq<seq<Row>>, k: nat, i: nat)
    requires |tables| == |archives|
  {
    k < |archives| && TakesPart(archives[k]) && i < |tables[k]|
  }

  function FileAt(tables: seq<seq<Row>>, k: nat, i: nat): string
    requires k < |tables| && i < |tables[k]|
  {
    Name(Fst, tables[k][i].head)
  }

  /** A subscriber, with that mode, of a file that has changed since the time in
      the files table. */
  ghost predicate Direct(w: World, archives: seq<ArchiveSpec>, tables: seq<seq<Row>>, delivery: bool, file: string,
                         x: string, k: nat, i: nat)
    requires |tables| == |archives|
  {
    && InTables(archives, tables, k, i) && FileAt(tables, k, i) == file
    && UpdatedSince(w, archives[k].dir, file, TimeOf(tables[k][i].head)) != 0
    && x in AddressesWith(delivery, tables[k][i].entries)
  }

  /** A subscriber of all files of an archive whose directory has the file, changed
      since the time in the modification table. */
  ghost predicate ByStar(w: World, archives: seq<ArchiveSpec>, tables: seq<seq<Row>>, delivery: bool, file: string,
                         x: string, k: nat, i: nat)
    requires |tables| == |archives|
  {
    && InTables(archives, tables, k, i) && StarName(FileAt(tables, k, i))
    && archives[k].dir in w.dirs && ChangedIn(w, archives[k].dir, w.dirs[archives[k].dir], file)
    && x in AddressesWith(delivery, tables[k][i].entries)
  }

  ghost predicate ChangedIn(w: World, dir: string, entries: seq<DirEntry>, file: string)
  {
    exists j :: 0 <= j < |entries| && entries[j].file == file && Changed(w, dir, entries[j])
  }

  /** No other archive, and no other record, has the file. */
  ghost predicate OnceListed(archives: seq<ArchiveSpec>, tables: seq<seq<Row>>, file: string)
    requires |tables| == |archives|
  {
    forall k, i, l, j ::
      (InTables(archives, tables, k, i) && FileAt(tables, k, i) == file &&
       InTables(archives, tables, l, j) && FileAt(tables, l, j) == file) ==> k == l && i == j
  }

  ghost predicate GoodTables(archives: seq<ArchiveSpec>, tables: seq<seq<Row>>)
    requires |tables| == |archives|
  {
    forall k: nat, i: nat :: InTables(archives, tables, k, i) ==> GoodRow(tables[k][i])
  }

  ghost predicate GoodRow(row: Row) { forall e :: e in row.entries ==> GoodAddress(e.key) }

  // ---------------------------------------------------------------- items of rows

  function ItemAt(w: World, archives: seq<ArchiveSpec>, tables: seq<seq<Row>>, delivery: bool, k: nat,
                  i: nat): seq<Item>
    requires |tables| == |archives| && InTables(archives, tables, k, i)
  {
    RowItem(w, archives[k].name, archives[k].dir, tables[k][i], delivery)
  }

  lemma {:induction false} TableItemIn(w: World, archive: string, dir: string, rows: seq<Row>, delivery: bool, x: Item)
    ensures x in TableItems(w, archive, dir, rows, delivery) <==>
            exists i :: 0 <= i < |rows| && RowItem(w, archive, dir, rows[i], delivery) == [x]
  {
    hide RowItem;
    if rows != [] {
      var n := |rows| - 1;
      TableItemIn(w, archive, dir, rows[..n], delivery, x);
      AtMostOne(w, archive, dir, rows[n], delivery);
      forall i | 0 <= i < n ensures rows[..n][i] == rows[i] {
      }
    }
  }

  lemma AtMostOne(w: World, archive: string, dir: string, row: Row, delivery: bool)
    ensures |RowItem(w, archive, dir, row, delivery)| <= 1
  {
    hide AddressesWith;
  }

  lemma {:induction false} ItemIn(w: World, archives: seq<ArchiveSpec>, tables: seq<seq<Row>>, delivery: bool, x: Item)
    requires |tables| == |archives|
    ensures x in AllItems(w, archives, tables, delivery) <==>
            exists k, i :: InTables(archives, tables, k, i) && ItemAt(w, archives, tables, delivery, k, i) == [x]
  {
    hide RowItem, TableItems;
    if archives != [] {
      var n := |archives| - 1;
      var as', ts' := archives[..n], tables[..n];
      ItemIn(w, as', ts', delivery, x);
      TableItemIn(w, archives[n].name, archives[n].dir, tables[n], delivery, x);
      if x in AllItems(w, archives, tables, delivery) {
        if x in AllItems(w, as', ts', delivery) {
          var k: nat, i: nat :| InTables(as', ts', k, i) && ItemAt(w, as', ts', delivery, k, i) == [x];
          assert InTables(archives, tables, k, i) && ItemAt(w, archives, tables, delivery, k, i) == [x];
        } else {
          var i: nat :| i < |tables[n]| && RowItem(w, archives[n].name, archives[n].dir, tables[n][i], delivery) == [x];
          assert InTables(archives, tables, n, i) && ItemAt(w, archives, tables, delivery, n, i) == [x];
        }
      }
      if k: nat, i: nat :| InTables(archives, tables, k, i) && ItemAt(w, archives, tables, delivery, k, i) == [x] {
        if k < n {
          assert InTables(as', ts', k, i) && ItemAt(w, as', ts', delivery, k, i) == [x];
        }
      }
    }
  }

  lemma {:induction false} AddressesGood(delivery: bool, es: seq<Entry>)
    requires forall e :: e in es ==> GoodAddress(e.key)
    ensures GoodAddresses(AddressesWith(delivery, es))
  {
    hide GoodAddress, IsDelivery;
    if es != [] {
      AddressesGood(delivery, es[..|es| - 1]);
    }
  }

  /** What the item of a row is. */
  lemma RowItemIs(w: World, archive: string, dir: string, row: Row, delivery: bool, x: Item)
    requires GoodRow(row) && RowItem(w, archive, dir, row, delivery) == [x]
    ensures x.file == Name(Fst, row.head) && x.dir == dir && AddressList(x.addresses)
    ensures Addresses(x.addresses) == AddressesWith(delivery, row.entries)
    ensures UpdatedSince(w, dir, x.file, TimeOf(row.head)) != 0
  {
    hide GoodAddress, AddressesWith, Addresses, Joined, AddressList, Name, TimeOf, UpdatedSince;
    AddressesGood(delivery, row.entries);
    JoinedIsList(AddressesWith(delivery, row.entries));
  }

  lemma RowHasItem(w: World, archive: string, dir: string, row: Row, delivery: bool, x: string)
    requires UpdatedSince(w, dir, Name(Fst, row.head), TimeOf(row.head)) != 0 &&
             x in AddressesWith(delivery, row.entries)
    ensures |RowItem(w, archive, dir, row, delivery)| == 1
  {
    hide AddressesWith, Name, TimeOf, UpdatedSince;
  }

  // ---------------------------------------------------------------- the first pass

  /** The only item of a file. */
  lemma AddressesOfOnly(xs: seq<Item>, x: Item)
    requires x in xs && forall y :: y in xs && y.file == x.file ==> y == x
    ensures AddressesOf(xs, x.file) == x.addresses
  {
    var i := FindItem(xs, x.file);
    assert i < |xs| ==> xs[i] in xs;
  }

  lemma AddressesOfNone(xs: seq<Item>, file: string)
    requires forall y :: y in xs ==> y.file != file
    ensures AddressesOf(xs, file) == ""
  {
    forall j | 0 <= j < |xs| ensures xs[j].file != file {
      assert xs[j] in xs;
    }
    FirstItem(xs, file, |xs|);
  }

  /** The item of a file comes from the only row that has the file. */
  lemma OnlyItem(w: World, archives: seq<ArchiveSpec>, tables: seq<seq<Row>>, delivery: bool, x: Item, k: nat, i: nat)
    requires |tables| == |archives| && GoodTables(archives, tables) && OnceListed(archives, tables, x.file)
    requires InTables(archives, tables, k, i) && ItemAt(w, archives, tables, delivery, k, i) == [x]
    ensures AddressesOf(AllItems(w, archives, tables, delivery), x.file) == x.addresses
  {
    hide AllItems, GoodRow, RowItem, AddressesOf, Name;
    var xs := AllItems(w, archives, tables, delivery);
    ItemIn(w, archives, tables, delivery, x);
    RowItemIs(w, archives[k].name, archives[k].dir, tables[k][i], delivery, x);
    forall y | y in xs && y.file == x.file ensures y == x {
      ItemIn(w, archives, tables, delivery, y);
      var l: nat, j: nat :| InTables(archives, tables, l, j) && ItemAt(w, archives, tables, delivery, l, j) == [y];
      RowItemIs(w, archives[l].name, archives[l].dir, tables[l][j], delivery, y);
      assert FileAt(tables, k, i) == x.file && FileAt(tables, l, j) == x.file;
    }
    AddressesOfOnly(xs, x);
  }

  /** After pass 1, a file goes to its subscribers if it has changed. */
  lemma FirstPass(w: World, archives: seq<ArchiveSpec>, tables: seq<seq<Row>>, delivery: bool, file: string, x: string)
    requires |tables| == |archives| && GoodTables(archives, tables) && OnceListed(archives, tables, file)
    ensures var t := AddressesOf(AllItems(w, archives, tables, delivery), file);
            && AddressList(t)
            && (x in Addresses(t) <==> exists k, i :: Direct(w, archives, tables, delivery, file, x, k, i))
  {
    hide AllItems, GoodRow, RowItem, AddressesOf, Name, Addresses, AddressList, Joined, UpdatedSince, TimeOf,
         AddressesWith, OnceListed;
    var xs := AllItems(w, archives, tables, delivery);
    if item :| item in xs && item.file == file {
      ItemIn(w, archives, tables, delivery, item);
      var k: nat, i: nat :| InTables(archives, tables, k, i) && ItemAt(w, archives, tables, delivery, k, i) == [item];
      RowItemIs(w, archives[k].name, archives[k].dir, tables[k][i], delivery, item);
      OnlyItem(w, archives, tables, delivery, item, k, i);
      if x in Addresses(item.addresses) {
        assert Direct(w, archives, tables, delivery, file, x, k, i);
      }
      if l, j :| Direct(w, archives, tables, delivery, file, x, l, j) {
        SameRow(archives, tables, file, k, i, l, j);
      }
    } else {
      AddressesOfNone(xs, file);
      NoAddresses();
      if k, i :| Direct(w, archives, tables, delivery, file, x, k, i) {
        DirectHasItem(w, archives, tables, delivery, file, x, k, i);
      }
    }
  }

  lemma SameRow(archives: seq<ArchiveSpec>, tables: seq<seq<Row>>, file: string, k: nat, i: nat, l: nat, j: nat)
    requires |tables| == |archives| && OnceListed(archives, tables, file)
    requires InTables(archives, tables, k, i) && FileAt(tables, k, i) == file
    requires InTables(archives, tables, l, j) && FileAt(tables, l, j) == file
    ensures k == l && i == j
  {
    hide Name;
  }

  lemma DirectHasItem(w: World, archives: seq<ArchiveSpec>, tables: seq<seq<Row>>, delivery: bool, file: string,
                      x: string, k: nat, i: nat)
    requires |tables| == |archives| && GoodTables(archives, tables) &&
             Direct(w, archives, tables, delivery, file, x, k, i)
    ensures exists item :: item in AllItems(w, archives, tables, delivery) && item.file == file
  {
    hide AllItems, GoodRow, RowItem, Name, UpdatedSince, TimeOf, AddressesWith;
    RowHasItem(w, archives[k].name, archives[k].dir, tables[k][i], delivery, x);
    var item := ItemAt(w, archives, tables, delivery, k, i)[0];
    assert ItemAt(w, archives, tables, delivery, k, i) == [item];
    ItemIn(w, archives, tables, delivery, item);
    RowItemIs(w, archives[k].name, archives[k].dir, tables[k][i], delivery, item);
  }

  // ---------------------------------------------------------------- the second pass

  lemma {:induction false} ShareAddresses(w: World, star: Item, entries: seq<DirEntry>, file: string, x: string)
    requires AddressList(star.addresses)
    ensures var t := Share(w, star, entries, file);
            && AddressList(t)
            && (x in Addresses(t) <==> ChangedIn(w, star.dir, entries, file) && x in Addresses(star.addresses))
  {
    hide Addresses, AddressList, Changed;
    if entries == [] {
      NoAddresses();
    } else {
      var n := |entries| - 1;
      var e := entries[n];
      ShareAddresses(w, star, entries[..n], file, x);
      NoAddresses();
      ListAppend(Share(w, star, entries[..n], file),
                 if e.file == file && Changed(w, star.dir, e) then star.addresses else "");
      ChangedInSnoc(w, star.dir, entries, file);
    }
  }

  lemma ChangedInSnoc(w: World, dir: string, entries: seq<DirEntry>, file: string)
    requires entries != []
    ensures var n := |entries| - 1;
            ChangedIn(w, dir, entries, file) <==>
            ChangedIn(w, dir, entries[..n], file) || (entries[n].file == file && Changed(w, dir, entries[n]))
  {
    hide Changed;
    forall j | 0 <= j < |entries| - 1 ensures entries[..|entries| - 1][j] == entries[j] {
    }
  }

  /** The star nodes of a list that give a file to an address. */
  ghost predicate Gives(w: World, item: Item, file: string, x: string)
  {
    IsStarItem(item) && item.dir in w.dirs && ChangedIn(w, item.dir, w.dirs[item.dir], file) &&
        x in Addresses(item.addresses)
  }

  lemma {:induction false} SharesAddresses(w: World, xs: seq<Item>, file: string, x: string)
    requires forall item :: item in xs ==> AddressList(item.addresses)
    ensures var t := Shares(w, xs, file);
            AddressList(t) && (x in Addresses(t) <==> exists item :: item in xs && Gives(w, item, file, x))
  {
    hide Addresses, AddressList, Share, IsStarItem, ChangedIn;
    if xs == [] {
      NoAddresses();
    } else {
      SharesAddresses(w, xs[1..], file, x);
      OneShare(w, xs[0], file, x);
      ListAppend(StarShare(w, xs[0], file), Shares(w, xs[1..], file));
      hide Gives;
      assert forall item :: item in xs <==> item == xs[0] || item in xs[1..];
    }
  }

  lemma OneShare(w: World, item: Item, file: string, x: string)
    requires AddressList(item.addresses)
    ensures var t := StarShare(w, item, file); AddressList(t) && (x in Addresses(t) <==> Gives(w, item, file, x))
  {
    hide Addresses, AddressList, Share, IsStarItem, ChangedIn;
    NoAddresses();
    if IsStarItem(item) && item.dir in w.dirs {
      ShareAddresses(w, item, w.dirs[item.dir], file, x);
    }
  }

  lemma ItemsAreLists(w: World, archives: seq<ArchiveSpec>, tables: seq<seq<Row>>, delivery: bool, item: Item)
    requires |tables| == |archives| && GoodTables(archives, tables) && item in AllItems(w, archives, tables, delivery)
    ensures AddressList(item.addresses)
  {
    hide AllItems, GoodRow, RowItem, Addresses, AddressList, UpdatedSince, TimeOf, Name;
    ItemIn(w, archives, tables, delivery, item);
    var k: nat, i: nat :| InTables(archives, tables, k, i) && ItemAt(w, archives, tables, delivery, k, i) == [item];
    RowItemIs(w, archives[k].name, archives[k].dir, tables[k][i], delivery, item);
  }

  /** What the nodes for all files give comes from their subscribers. */
  lemma GivesIsByStar(w: World, archives: seq<ArchiveSpec>, tables: seq<seq<Row>>, delivery: bool, file: string,
                      x: string)
    requires |tables| == |archives| && GoodTables(archives, tables)
    ensures (exists item :: item in AllItems(w, archives, tables, delivery) && Gives(w, item, file, x)) <==>
            (exists k, i :: ByStar(w, archives, tables, delivery, file, x, k, i))
  {
    hide AllItems, GoodRow, RowItem, Addresses, AddressList, TimeOf, Name, ChangedIn, AddressesWith;
    if item :| item in AllItems(w, archives, tables, delivery) && Gives(w, item, file, x) {
      ItemIn(w, archives, tables, delivery, item);
      var k: nat, i: nat :| InTables(archives, tables, k, i) && ItemAt(w, archives, tables, delivery, k, i) == [item];
      RowItemIs(w, archives[k].name, archives[k].dir, tables[k][i], delivery, item);
      assert ByStar(w, archives, tables, delivery, file, x, k, i);
    }
    if k: nat, i: nat :| ByStar(w, archives, tables, delivery, file, x, k, i) {
      RowHasItem(w, archives[k].name, archives[k].dir, tables[k][i], delivery, x);
      var item := ItemAt(w, archives, tables, delivery, k, i)[0];
      assert ItemAt(w, archives, tables, delivery, k, i) == [item];
      ItemIn(w, archives, tables, delivery, item);
      RowItemIs(w, archives[k].name, archives[k].dir, tables[k][i], delivery, item);
      assert Gives(w, item, file, x);
    }
  }

  // ---------------------------------------------------------------- all passes

  lemma UnduplicatedOf(xs: seq<Item>, ys: seq<Item>, file: string)
    requires |ys| == |xs| && forall i :: 0 <= i < |xs| ==> ys[i] == Unduplicated(xs[i])
    ensures AddressesOf(ys, file) == Joined(LastOnly(Addresses(AddressesOf(xs, file))))
  {
    hide Addresses, LastOnly, Joined;
    var i := FindItem(xs, file);
    forall j | 0 <= j < |xs| ensures ys[j].file == xs[j].file {
    }
    FirstItem(ys, file, i);
    NoAddresses();
    NoneLeft();
  }

  lemma NoneLeft()
    ensures LastOnly([]) == [] && Joined([]) == ""
  {
  }

  /** A file goes to those who are subscribed to it, if it has changed since the time
      in the files table, and to those who are subscribed to all files of an archive
      that has it, if it has changed since the time in the modification table: to
      nobody else, and to nobody twice. */
  lemma Recipients(w: World, archives: seq<ArchiveSpec>, tables: seq<seq<Row>>, delivery: bool, file: string)
    requires |tables| == |archives| && GoodTables(archives, tables) && OnceListed(archives, tables, file)
    requires NoStarNames(w) && !StarName(file)
    ensures var to := Addresses(AddressesOf(Final(w, AllItems(w, archives, tables, delivery)), file));
            && (forall x :: x in to <==> (exists k, i :: Direct(w, archives, tables, delivery, file, x, k, i))
                                         || (exists k, i :: ByStar(w, archives, tables, delivery, file, x, k, i)))
            && (forall i, j :: 0 <= i < j < |to| ==> to[i] != to[j])
  {
    hide AllItems, GoodTables, OnceListed, Addresses, AddressList, AddressesOf, Visited, Shares, Unduplicated, Joined,
         LastOnly;
    hide Direct, ByStar, GoodAddress, Gives;
    var xs := AllItems(w, archives, tables, delivery);
    var direct, shared := AddressesOf(xs, file), Shares(w, xs, file);
    var vs := Visited(w, xs, |xs|);
    VisitedOf(w, xs, |xs|, file);
    assert xs[|xs| - |xs|..] == xs;
    UnduplicatedOf(vs, Final(w, xs), file);
    forall item | item in xs ensures AddressList(item.addresses) {
      ItemsAreLists(w, archives, tables, delivery, item);
    }
    FirstPass(w, archives, tables, delivery, file, "");
    SharesAddresses(w, xs, file, "");
    ListAppend(direct, shared);
    var all := Addresses(direct) + Addresses(shared);
    LastOnlyGood(all, direct + shared);
    var to := Addresses(AddressesOf(Final(w, xs), file));
    assert to == LastOnly(all);
    forall x ensures x in to <==> (exists k, i :: Direct(w, archives, tables, delivery, file, x, k, i))
                                  || (exists k, i :: ByStar(w, archives, tables, delivery, file, x, k, i)) {
      LastOnlyKeeps(all, x);
      FirstPass(w, archives, tables, delivery, file, x);
      SharesAddresses(w, xs, file, x);
      GivesIsByStar(w, archives, tables, delivery, file, x);
    }
    LastOnlyOnce(all);
  }

  lemma LastOnlyGood(all: seq<string>, s: string)
    requires AddressList(s) && Addresses(s) == all
    ensures Addresses(Joined(LastOnly(all))) == LastOnly(all)
  {
    hide GoodAddress, Addresses, Joined, LastOnly;
    var t := LastOnly(all);
    forall i | 0 <= i < |t| ensures GoodAddress(t[i]) {
      LastOnlyKeeps(all, t[i]);
    }
    JoinedIsList(t);
  }

  // ---------------------------------------------------------------- the shape of the lists

  /** No file has two records; the nodes for all files of two archives are different
      things under one name. */
  ghost predicate EachOnce(archives: seq<ArchiveSpec>, tables: seq<seq<Row>>)
    requires |tables| == |archives|
  {
    forall file :: StarName(file) || OnceListed(archives, tables, file)
  }

  ghost predicate NoneShared(a: seq<Item>, b: seq<Item>)
  {
    forall x, y :: x in a && y in b && x.file == y.file ==> IsStarItem(x)
  }

  lemma DistinctAppend(a: seq<Item>, b: seq<Item>)
    requires DistinctFiles(a) && DistinctFiles(b) && NoneShared(a, b)
    ensures DistinctFiles(a + b)
  {
    hide IsStarItem;
    var xs := a + b;
    forall i, j | 0 <= i < j < |xs| && xs[i].file == xs[j].file ensures IsStarItem(xs[i]) {
      if j < |a| {
        assert a[i].file == a[j].file;
      } else if i < |a| {
        assert xs[i] in a && xs[j] in b;
      } else {
        assert b[i - |a|].file == b[j - |a|].file;
      }
    }
  }

  lemma ItemOfRow(w: World, archive: string, dir: string, row: Row, delivery: bool, x: Item)
    requires x in RowItem(w, archive, dir, row, delivery)
    ensures x.file == Name(Fst, row.head) && RowItem(w, archive, dir, row, delivery) == [x]
  {
    hide AddressesWith, Name, UpdatedSince, TimeOf;
  }

  /** In one table. */
  ghost predicate RowsOnce(rows: seq<Row>)
  {
    forall i, j :: 0 <= i < j < |rows| && Name(Fst, rows[i].head) == Name(Fst, rows[j].head) ==>
        StarName(Name(Fst, rows[i].head))
  }

  lemma {:induction false} TableDistinct(w: World, archive: string, dir: string, rows: seq<Row>, delivery: bool)
    requires RowsOnce(rows)
    ensures DistinctFiles(TableItems(w, archive, dir, rows, delivery))
  {
    hide RowItem, Name;
    if rows != [] {
      var n := |rows| - 1;
      var a, b := RowItem(w, archive, dir, rows[n], delivery), TableItems(w, archive, dir, rows[..n], delivery);
      TableDistinct(w, archive, dir, rows[..n], delivery);
      AtMostOne(w, archive, dir, rows[n], delivery);
      forall x, y | x in a && y in b && x.file == y.file ensures IsStarItem(x) {
        ItemOfRow(w, archive, dir, rows[n], delivery, x);
        TableItemIn(w, archive, dir, rows[..n], delivery, y);
        var i :| 0 <= i < n && RowItem(w, archive, dir, rows[..n][i], delivery) == [y];
        assert y in [y];
        ItemOfRow(w, archive, dir, rows[i], delivery, y);
      }
      DistinctAppend(a, b);
    }
  }

  lemma OnceInTable(archives: seq<ArchiveSpec>, tables: seq<seq<Row>>, k: nat)
    requires |tables| == |archives| && EachOnce(archives, tables) && k < |archives| && TakesPart(archives[k])
    ensures RowsOnce(tables[k])
  {
    hide Name, OnceListed;
    var rows := tables[k];
    forall i, j | 0 <= i < j < |rows| && Name(Fst, rows[i].head) == Name(Fst, rows[j].head)
      ensures StarName(Name(Fst, rows[i].head))
    {
      var file := FileAt(tables, k, i);
      if !StarName(file) {
        assert OnceListed(archives, tables, file);
        SameRow(archives, tables, file, k, i, k, j);
      }
    }
  }

  lemma OnceBefore(archives: seq<ArchiveSpec>, tables: seq<seq<Row>>, n: nat)
    requires |tables| == |archives| && EachOnce(archives, tables) && n <= |archives|
    ensures EachOnce(archives[..n], tables[..n])
  {
    hide Name, OnceListed;
    forall file | !StarName(file) ensures OnceListed(archives[..n], tables[..n], file) {
      assert OnceListed(archives, tables, file);
      OnceListedBefore(archives, tables, n, file);
    }
  }

  lemma OnceListedBefore(archives: seq<ArchiveSpec>, tables: seq<seq<Row>>, n: nat, file: string)
    requires |tables| == |archives| && OnceListed(archives, tables, file) && n <= |archives|
    ensures OnceListed(archives[..n], tables[..n], file)
  {
    hide Name, OnceListed;
    var as', ts' := archives[..n], tables[..n];
    forall k, i, l, j |
      InTables(as', ts', k, i) && FileAt(ts', k, i) == file && InTables(as', ts', l, j) && FileAt(ts', l, j) == file
      ensures k == l && i == j
    {
      SameRow(archives, tables, file, k, i, l, j);
    }
    MakeOnce(as', ts', file);
  }

  lemma MakeOnce(archives: seq<ArchiveSpec>, tables: seq<seq<Row>>, file: string)
    requires |tables| == |archives|
    requires forall k, i, l, j ::
               (InTables(archives, tables, k, i) && FileAt(tables, k, i) == file &&
                InTables(archives, tables, l, j) && FileAt(tables, l, j) == file) ==> k == l && i == j
    ensures OnceListed(archives, tables, file)
  {
    hide Name;
  }

  /** Pass 1 makes one node at most for each file. */
  lemma {:induction false} FirstPassDistinct(w: World, archives: seq<ArchiveSpec>, tables: seq<seq<Row>>,
                                             delivery: bool)
    requires |tables| == |archives| && EachOnce(archives, tables)
    ensures DistinctFiles(AllItems(w, archives, tables, delivery))
  {
    hide RowItem, TableItems, EachOnce, DistinctFiles, IsStarItem;
    if archives == [] {
      NothingTwice();
    } else {
      var n := |archives| - 1;
      var a := archives[n];
      var rest := AllItems(w, archives[..n], tables[..n], delivery);
      OnceBefore(archives, tables, n);
      FirstPassDistinct(w, archives[..n], tables[..n], delivery);
      if TakesPart(a) {
        var items := TableItems(w, a.name, a.dir, tables[n], delivery);
        OnceInTable(archives, tables, n);
        TableDistinct(w, a.name, a.dir, tables[n], delivery);
        forall x, y | x in items && y in rest && x.file == y.file ensures IsStarItem(x) {
          FromTwoTables(w, archives, tables, delivery, x, y);
        }
        DistinctAppend(items, rest);
      } else {
        assert [] + rest == rest;
      }
    }
  }

  lemma NothingTwice()
    ensures DistinctFiles([])
  {
  }

  /** One file in the last table and in one before. */
  lemma FromTwoTables(w: World, archives: seq<ArchiveSpec>, tables: seq<seq<Row>>, delivery: bool, x: Item, y: Item)
    requires |tables| == |archives| > 0 && EachOnce(archives, tables)
    requires var n := |archives| - 1;
             && TakesPart(archives[n]) && x in TableItems(w, archives[n].name, archives[n].dir, tables[n], delivery)
             && y in AllItems(w, archives[..n], tables[..n], delivery)
    requires x.file == y.file
    ensures IsStarItem(x)
  {
    hide RowItem, TableItems, AllItems, OnceListed, Name;
    var n := |archives| - 1;
    TableItemIn(w, archives[n].name, archives[n].dir, tables[n], delivery, x);
    var i: nat :| i < |tables[n]| && RowItem(w, archives[n].name, archives[n].dir, tables[n][i], delivery) == [x];
    assert x in [x] && y in [y];
    ItemOfRow(w, archives[n].name, archives[n].dir, tables[n][i], delivery, x);
    ItemIn(w, archives[..n], tables[..n], delivery, y);
    var l: nat, j: nat :| InTables(archives[..n], tables[..n], l, j) &&
                          ItemAt(w, archives[..n], tables[..n], delivery, l, j) == [y];
    ItemOfRow(w, archives[l].name, archives[l].dir, tables[l][j], delivery, y);
    if !StarName(x.file) {
      assert OnceListed(archives, tables, x.file);
      SameRow(archives, tables, x.file, n, i, l, j);
    }
  }

  /** The lists have no node for all files, and one node at most for each file. */
  lemma FinalShape(w: World, archives: seq<ArchiveSpec>, tables: seq<seq<Row>>, delivery: bool)
    requires |tables| == |archives| && NoStarNames(w)
    ensures var ys := Final(w, AllItems(w, archives, tables, delivery));
            NoStars(ys) && (EachOnce(archives, tables) ==> DistinctFiles(ys))
  {
    hide AllItems, Visited, Joined, LastOnly, Addresses, EachOnce;
    var xs := AllItems(w, archives, tables, delivery);
    assert xs[..|xs| - |xs|] == [];
    if EachOnce(archives, tables) {
      FirstPassDistinct(w, archives, tables, delivery);
    }
    VisitedShape(w, xs, |xs|);
    var vs, ys := Visited(w, xs, |xs|), Final(w, xs);
    assert forall i :: 0 <= i < |ys| ==> ys[i].file == vs[i].file;
  }

  // ---------------------------------------------------------------- from the texts of the tables

  /** The tables of well-formed texts are good. */
  lemma {:induction false} EntriesGood(rests: seq<string>, e: Entry)
    requires Lines(Fst, rests) && e in All(Fst, rests)
    ensures GoodAddress(e.key)
  {
    hide Plain, ContinuedLine, Entries, GoodAddress;
    var n := |rests| - 1;
    if e in Entries(Fst, rests[n]) {
      LineEntriesValid(Fst, rests[n]);
      ValidKey(e);
    } else {
      EntriesGood(rests[..n], e);
    }
  }

  lemma ValidKey(e: Entry)
    requires ValidEntry(Fst, e)
    ensures GoodAddress(e.key)
  {
    hide AddressOf, SkipSpaces, WordLength, PairsUp;
    var s := Shown(Fst, e);
    assert Pairs(s) == [e];
    assert Pairs(s)[0] == e;
    assert AddressOf(s) == e.key;
  }

  lemma {:induction false} TextsAreGood(rs: seq<Rec>)
    requires Wf(Fst, rs)
    ensures forall i :: 0 <= i < |Rows(Fst, rs)| ==> GoodRow(Rows(Fst, rs)[i])
  {
    hide WfRec, All, GoodAddress;
    if rs != [] {
      var r := rs[|rs| - 1];
      TextsAreGood(rs[..|rs| - 1]);
      if !Comment(r) {
        WfParts(Fst, r);
        FoldedLines(Fst, r.rests);
        forall e | e in All(Fst, r.rests) ensures GoodAddress(e.key) {
          EntriesGood(r.rests, e);
        }
      }
    }
  }

  lemma ReadableIsGood(archives: seq<ArchiveSpec>, recs: seq<seq<Rec>>)
    requires Readable(archives, recs)
    ensures GoodTables(archives, Tables(recs))
  {
    hide GoodRow, Wf, TableText, Rows;
    forall k: nat, i: nat | InTables(archives, Tables(recs), k, i) ensures GoodRow(Tables(recs)[k][i]) {
      TextsAreGood(recs[k]);
    }
  }

  /** From well-formed texts of files tables, in which no file has two records, the
      three passes make a list with one node for each file, which holds exactly those
      who are to get it, each once. */
  lemma DeliveredFromTexts(w: World, archives: seq<ArchiveSpec>, recs: seq<seq<Rec>>, delivery: bool, file: string)
    requires Readable(archives, recs) && EachOnce(archives, Tables(recs)) && NoStarNames(w) && !StarName(file)
    ensures var tables := Tables(recs);
            var ys := Final(w, AllItems(w, archives, tables, delivery)); var to := Addresses(AddressesOf(ys, file));
            && NoStars(ys) && DistinctFiles(ys)
            && (forall x :: x in to <==> (exists k, i :: Direct(w, archives, tables, delivery, file, x, k, i))
                                         || (exists k, i :: ByStar(w, archives, tables, delivery, file, x, k, i)))
            && (forall i, j :: 0 <= i < j < |to| ==> to[i] != to[j])
  {
    hide AllItems, Final, GoodTables, Wf, TableText, OnceListed, Direct, ByStar, Addresses, AddressesOf, NoStarNames,
         Tables;
    ReadableIsGood(archives, recs);
    FinalShape(w, archives, Tables(recs), delivery);
    assert OnceListed(archives, Tables(recs), file);
    Recipients(w, archives, Tables(recs), delivery, file);
  }
}
