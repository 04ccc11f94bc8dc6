/** Pass 1 of a delivery: the files that have changed, with the addresses they are
    to be sent to and the addresses to be notified (commands/afd_fui.c). */
module DeliveryPass1 {
  import opened Text
  import opened TextFiles
  import opened Streams
  import opened TableLines
  import opened FoldedTables
  import opened AfdTables
  import opened AfdUpdates
  import opened AfdRows
  import opened AfdStatus
  import opened DeliveryLists
  import opened Delivery
  import opened DeliveryAddresses

  // ---------------------------------------------------------------- what has changed

  function EntryFor(entries: seq<DirEntry>, file: string): Option<DirEntry>
  {
    if entries == [] then None
    else if entries[0].file == file then Some(entries[0]) else EntryFor(entries[1..], file)
  }

  /** The new time of a file that is not as old as the table says, else 0. */
  function UpdatedSince(w: World, dir: string, file: string, time: nat): nat
  {
    if IsStar(file) then 1
    else
      match (if dir in w.dirs then EntryFor(w.dirs[dir], file) else None)
      case None => 0
      case Some(e) =>
        if e.plain.Some? && e.plain.value != time then e.plain.value
        else if e.compressed.Some? && e.compressed.value != time then e.compressed.value
        else 0
  }

  /** file_updated */
  method FileUpdated(w: World, dir: string, file: string, time: nat) returns (ret: nat)
    ensures ret == UpdatedSince(w, dir, file, time)
  {
    if IsStar(file) {
      return 1;
    }
    var found: Option<DirEntry> := None;
    if dir in w.dirs {
      var entries, i := w.dirs[dir], 0;
      assert entries[0..] == entries;
      while i < |entries| && found.None?
        invariant 0 <= i <= |entries|
        invariant found.Some? ==> EntryFor(entries, file) == found
        invariant found.None? ==> EntryFor(entries, file) == EntryFor(entries[i..], file)
        decreases |entries| - i, found.None?
      {
        assert entries[i..][1..] == entries[i + 1..];
        if entries[i].file == file {
          found := Some(entries[i]);
        }
        i := i + 1;
      }
    }
    ret := 0;
    if found.Some? {
      var e := found.value;
      if e.plain.Some? && e.plain.value != time {
        ret := e.plain.value;
      } else if e.compressed.Some? && e.compressed.value != time {
        ret := e.compressed.value;
      }
    }
  }

  // ---------------------------------------------------------------- what a record adds

  function AfterLast(s: string): string
  {
    if FIELD in s then AfterLast(s[IndexOf(s, FIELD) + 1..]) else s
  }

  /** The mode is D, not N. */
  predicate IsDelivery(e: Entry)
  {
    var m := AfterLast(e.mode);
    m != "" && m[0] == 'D'
  }

  function AddressesWith(delivery: bool, es: seq<Entry>): seq<string>
  {
    if es == [] then []
    else
      var e := es[|es| - 1];
      AddressesWith(delivery, es[..|es| - 1]) + if IsDelivery(e) == delivery then [e.key] else []
  }

  datatype Place = Place(archive: string, dir: string, file: string)

  function Started(p: Place, xs: seq<string>): seq<Item>
  {
    if xs == [] then [] else [Item(p.archive, p.dir, p.file, Joined(xs))]
  }

  /** Append an address to the node of this record, which comes first in the list
      if there is one. */
  method ListAddress(list: FileList, p: Place, address: string, started: bool, ghost xs: seq<string>,
                     ghost base: seq<Item>)
    requires list.Valid() && (started <==> xs != []) && list.items == Started(p, xs) + base
    modifies list, list.repr
    ensures list.Valid() && fresh(list.repr - old(list.repr))
    ensures list.items == Started(p, xs + [address]) + base
  {
    hide Started, FileList.Linked;
    StartedMore(p, xs, address);
    if !started {
      list.Push(p.archive, p.dir, p.file, "");
    }
    list.AppendFirst(address + [BLANK]);
  }

  lemma StartedMore(p: Place, xs: seq<string>, address: string)
    ensures xs == [] ==> Started(p, xs) == []
    ensures xs != [] ==> |Started(p, xs)| == 1
    ensures var first := if xs == [] then Item(p.archive, p.dir, p.file, "") else Started(p, xs)[0];
            Started(p, xs + [address]) == [first.(addresses := first.addresses + (address + [BLANK]))]
  {
    JoinedAppend(xs, [address]);
    JoinedOne(address);
    JoinedNone();
    hide Joined;
  }

  ghost predicate Apart(d: FileList, n: FileList)
    reads d, n, d.repr, n.repr
  {
    d != n && d.repr !! n.repr && d.Valid() && n.Valid()
  }

  /** The two lists when a record has these entries. */
  ghost predicate Holds(d: FileList, n: FileList, p: Place, es: seq<Entry>, baseD: seq<Item>, baseN: seq<Item>)
    reads d, n
  {
    && d.items == Started(p, AddressesWith(true, es)) + baseD
    && n.items == Started(p, AddressesWith(false, es)) + baseN
  }

  lemma AddressesWithSnoc(delivery: bool, es: seq<Entry>, e: Entry)
    ensures AddressesWith(delivery, es + [e]) ==
            AddressesWith(delivery, es) + if IsDelivery(e) == delivery then [e.key] else []
  {
    hide IsDelivery;
    assert (es + [e])[..|es|] == es;
  }

  method ListEntry(d: FileList, n: FileList, p: Place, e: Entry, ghost es: seq<Entry>, dStarted: bool, nStarted: bool,
                   ghost baseD: seq<Item>, ghost baseN: seq<Item>)
    requires Apart(d, n) && Holds(d, n, p, es, baseD, baseN)
    requires dStarted <==> AddressesWith(true, es) != []
    requires nStarted <==> AddressesWith(false, es) != []
    modifies d, n, d.repr, n.repr
    ensures Apart(d, n) && Holds(d, n, p, es + [e], baseD, baseN)
    ensures fresh(d.repr - old(d.repr)) && fresh(n.repr - old(n.repr))
  {
    hide IsDelivery, AddressesWith, Started, FileList.Linked;
    AddressesWithSnoc(true, es, e);
    AddressesWithSnoc(false, es, e);
    EmptyTail(AddressesWith(true, es));
    EmptyTail(AddressesWith(false, es));
    if IsDelivery(e) {
      ListAddress(d, p, e.key, dStarted, AddressesWith(true, es), baseD);
    } else {
      ListAddress(n, p, e.key, nStarted, AddressesWith(false, es), baseN);
    }
  }

  lemma EmptyTail(xs: seq<string>)
    ensures xs + [] == xs
  {
  }

  // ---------------------------------------------------------------- the loops over a record

  /** The loop over the addresses and modes of a line. */
  method ListLine(d: FileList, n: FileList, p: Place, line: string, ghost es: seq<Entry>, dStarted: bool,
                  nStarted: bool, ghost baseD: seq<Item>, ghost baseN: seq<Item>) returns (dNow: bool, nNow: bool)
    requires Apart(d, n) && Holds(d, n, p, es, baseD, baseN)
    requires dStarted <==> AddressesWith(true, es) != []
    requires nStarted <==> AddressesWith(false, es) != []
    modifies d, n, d.repr, n.repr
    ensures Apart(d, n) && Holds(d, n, p, es + Pairs(line), baseD, baseN)
    ensures dNow <==> AddressesWith(true, es + Pairs(line)) != []
    ensures nNow <==> AddressesWith(false, es + Pairs(line)) != []
    ensures fresh(d.repr - old(d.repr)) && fresh(n.repr - old(n.repr))
  {
    hide FirstPair, Pairs, AddressesWith, Holds, Apart, IsDelivery;
    dNow, nNow := dStarted, nStarted;
    var s, done := line, false;
    ghost var seen := es;
    while !done
      invariant Apart(d, n) && Holds(d, n, p, seen, baseD, baseN)
      invariant es + Pairs(line) == seen + if done then [] else Pairs(s)
      invariant dNow <==> AddressesWith(true, seen) != []
      invariant nNow <==> AddressesWith(false, seen) != []
      invariant fresh(d.repr - old(d.repr)) && fresh(n.repr - old(n.repr))
      decreases |s|, !done
    {
      PairsStep(s);
      match FirstPair(s)
      case None =>
        done := true;
      case Some((e, rest)) =>
        ListEntry(d, n, p, e, seen, dNow, nNow, baseD, baseN);
        AddressesWithSnoc(true, seen, e);
        AddressesWithSnoc(false, seen, e);
        if IsDelivery(e) {
          dNow := true;
        } else {
          nNow := true;
        }
        seen := seen + [e];
        s := rest;
    }
    assert seen + [] == seen;
  }

  lemma PairsStep(s: string)
    ensures Pairs(s) == match FirstPair(s) case None => [] case Some((e, rest)) => [e] + Pairs(rest)
  {
  }

  lemma NoneListed(d: FileList, n: FileList, p: Place)
    ensures Holds(d, n, p, [], d.items, n.items) && AddressesWith(true, []) == [] == AddressesWith(false, [])
    ensures All(Fst, []) == []
  {
    assert [] + d.items == d.items && [] + n.items == n.items;
  }

  /** The loop over the lines of a record. */
  method ListRecord(d: FileList, n: FileList, p: Place, from: string, pos: nat, ghost rests: seq<string>,
                    ghost after: string)
      returns (next: nat)
    requires Apart(d, n) && Chain(rests) && pos <= |from| && from[pos..] == Flatten(rests) + after
    modifies d, n, d.repr, n.repr
    ensures Apart(d, n) && Holds(d, n, p, All(Fst, rests), old(d.items), old(n.items))
    ensures fresh(d.repr - old(d.repr)) && fresh(n.repr - old(n.repr))
    ensures next <= |from| && from[next..] == after
  {
    hide Flatten, AddressesWith, Holds, Apart, Pairs, All;
    ghost var i := 0;
    var dNow, nNow, more := false, false, true;
    next := pos;
    assert rests[0..] == rests && rests[..0] == [];
    NoneListed(d, n, p);
    while more
      invariant i <= |rests| && next <= |from| && (more <==> i < |rests|)
      invariant from[next..] == Flatten(rests[i..]) + after
      invariant Apart(d, n) && Holds(d, n, p, All(Fst, rests[..i]), old(d.items), old(n.items))
      invariant dNow <==> AddressesWith(true, All(Fst, rests[..i])) != []
      invariant nNow <==> AddressesWith(false, All(Fst, rests[..i])) != []
      invariant fresh(d.repr - old(d.repr)) && fresh(n.repr - old(n.repr))
      decreases |rests| - i
    {
      var line;
      line, next := GetLine(from, next, rests, i, after);
      AllPairsSnoc(rests, i);
      dNow, nNow := ListLine(d, n, p, line, All(Fst, rests[..i]), dNow, nNow, old(d.items), old(n.items));
      i := i + 1;
      more := Continued(line);
    }
    FlattenNone(rests, i, after);
    assert rests[..i] == rests;
  }

  lemma AllPairsSnoc(rests: seq<string>, i: nat)
    requires i < |rests|
    ensures All(Fst, rests[..i + 1]) == All(Fst, rests[..i]) + Pairs(rests[i])
  {
    hide Pairs;
    assert rests[..i + 1][..i] == rests[..i];
  }

  // ---------------------------------------------------------------- the loop over a table

  function TimeOf(h: string): nat { if IndexOf(h, BLANK) < |h| then Atoi(h[IndexOf(h, BLANK) + 1..]) else 0 }

  /** What the record of a file adds to one of the lists. */
  function RowItem(w: World, archive: string, dir: string, row: Row, delivery: bool): seq<Item>
  {
    var file := Name(Fst, row.head);
    if UpdatedSince(w, dir, file, TimeOf(row.head)) == 0 then []
    else Started(Place(archive, dir, file), AddressesWith(delivery, row.entries))
  }

  /** What a table adds; later records come first. */
  function TableItems(w: World, archive: string, dir: string, rows: seq<Row>, delivery: bool): seq<Item>
  {
    if rows == [] then []
    else
      RowItem(w, archive, dir, rows[|rows| - 1], delivery) + TableItems(w, archive, dir, rows[..|rows| - 1], delivery)
  }

  lemma TableItemsNext(w: World, archive: string, dir: string, rs: seq<Rec>, i: nat, delivery: bool)
    requires i < |rs|
    ensures TableItems(w, archive, dir, Rows(Fst, rs[..i + 1]), delivery) ==
            (if Comment(rs[i]) then [] else RowItem(w, archive, dir, Row(rs[i].head, All(Fst, rs[i].rests)), delivery))
            + TableItems(w, archive, dir, Rows(Fst, rs[..i]), delivery)
  {
    hide RowItem, All;
    var rows := Rows(Fst, rs[..i]);
    assert rs[..i + 1][..i] == rs[..i];
    RowsSnoc(Fst, rs[..i + 1]);
    if Comment(rs[i]) {
      assert rows + [] == rows;
    } else {
      var row := Row(rs[i].head, All(Fst, rs[i].rests));
      assert (rows + [row])[..|rows|] == rows;
    }
  }

  /** The two lists when the records before i have been read. */
  ghost predicate ReadSoFar(d: FileList, n: FileList, w: World, archive: string, dir: string, rows: seq<Row>,
                            baseD: seq<Item>, baseN: seq<Item>)
    reads d, n
  {
    && d.items == TableItems(w, archive, dir, rows, true) + baseD
    && n.items == TableItems(w, archive, dir, rows, false) + baseN
  }

  lemma ReadRecord(d: FileList, n: FileList, w: World, archive: string, dir: string, rs: seq<Rec>, i: nat,
                   wasD: seq<Item>, wasN: seq<Item>, baseD: seq<Item>, baseN: seq<Item>)
    requires i < |rs| && !Comment(rs[i]) && UpdatedSince(w, dir, Name(Fst, rs[i].head), TimeOf(rs[i].head)) != 0
    requires wasD == TableItems(w, archive, dir, Rows(Fst, rs[..i]), true) + baseD
    requires wasN == TableItems(w, archive, dir, Rows(Fst, rs[..i]), false) + baseN
    requires Holds(d, n, Place(archive, dir, Name(Fst, rs[i].head)), All(Fst, rs[i].rests), wasD, wasN)
    ensures ReadSoFar(d, n, w, archive, dir, Rows(Fst, rs[..i + 1]), baseD, baseN)
  {
    hide TableItems, AddressesWith, Started, All, Rows, Name, TimeOf, UpdatedSince;
    TableItemsNext(w, archive, dir, rs, i, true);
    TableItemsNext(w, archive, dir, rs, i, false);
  }

  lemma PassedRecord(d: FileList, n: FileList, w: World, archive: string, dir: string, rs: seq<Rec>, i: nat,
                     baseD: seq<Item>, baseN: seq<Item>)
    requires i < |rs|
    requires Comment(rs[i]) || UpdatedSince(w, dir, Name(Fst, rs[i].head), TimeOf(rs[i].head)) == 0
    requires ReadSoFar(d, n, w, archive, dir, Rows(Fst, rs[..i]), baseD, baseN)
    ensures ReadSoFar(d, n, w, archive, dir, Rows(Fst, rs[..i + 1]), baseD, baseN)
  {
    hide TableItems, AddressesWith, Started, All, Rows, Name, TimeOf, UpdatedSince;
    TableItemsNext(w, archive, dir, rs, i, true);
    TableItemsNext(w, archive, dir, rs, i, false);
    NothingMore(TableItems(w, archive, dir, Rows(Fst, rs[..i]), true));
    NothingMore(TableItems(w, archive, dir, Rows(Fst, rs[..i]), false));
  }

  lemma NothingMore(xs: seq<Item>)
    ensures [] + xs == xs
  {
  }

  lemma FileRecord(from: string, rs: seq<Rec>, i: nat, file: string, head: string, next: nat)
    requires Wf(Fst, rs) && i < |rs| && HeadRead(Fst, from, rs, i, file, head, next)
    ensures Chain(rs[i].rests) && head == rs[i].head && file == Name(Fst, head) && next <= |from|
    ensures from[next..] == Flatten(rs[i].rests) + TableText(rs[i + 1..])
  {
    hide HeadOk, Folded, Chain, Flatten, TableText, Name;
  }

  /** Visit all files of an archive. */
  method ListTable(d: FileList, n: FileList, w: World, archive: string, dir: string, from: string, ghost rs: seq<Rec>)
    requires Apart(d, n) && Wf(Fst, rs) && from == TableText(rs)
    modifies d, n, d.repr, n.repr
    ensures Apart(d, n) && fresh(d.repr - old(d.repr)) && fresh(n.repr - old(n.repr))
    ensures ReadSoFar(d, n, w, archive, dir, Rows(Fst, rs), old(d.items), old(n.items))
  {
    hide TableText, Rows, WfRec, HeadRead, Chain, Flatten, Holds, Apart, ReadSoFar, TimeOf, Name, UpdatedSince, All;
    var eof := false;
    var pos: nat := 0;
    ghost var i := 0;
    assert from[0..] == from && rs[0..] == rs && rs[..0] == [];
    NothingRead(d, n, w, archive, dir);
    while !eof
      invariant i <= |rs| && pos <= |from| && (if eof then i == |rs| else from[pos..] == TableText(rs[i..]))
      invariant Apart(d, n) && fresh(d.repr - old(d.repr)) && fresh(n.repr - old(n.repr))
      invariant ReadSoFar(d, n, w, archive, dir, Rows(Fst, rs[..i]), old(d.items), old(n.items))
      decreases |rs| - i, !eof
    {
      var file, head, next := ReadFileHead(from, pos, rs, i);
      HeadReadIs(Fst, from, rs, i, file, head, next);
      if file != "" {
        FileRecord(from, rs, i, file, head, next);
        var time := FileUpdated(w, dir, file, TimeOf(head));
        if file[0] == '#' || time == 0 {
          pos := SkipRests(from, next, rs[i].rests, TableText(rs[i + 1..]));
          PassedRecord(d, n, w, archive, dir, rs, i, old(d.items), old(n.items));
        } else {
          ghost var wasD, wasN := d.items, n.items;
          SoFar(d, n, w, archive, dir, Rows(Fst, rs[..i]), old(d.items), old(n.items));
          pos := ListRecord(d, n, Place(archive, dir, file), from, next, rs[i].rests, TableText(rs[i + 1..]));
          ReadRecord(d, n, w, archive, dir, rs, i, wasD, wasN, old(d.items), old(n.items));
        }
        i := i + 1;
      } else {
        eof := true;
      }
    }
    assert rs[..i] == rs;
  }

  lemma SoFar(d: FileList, n: FileList, w: World, archive: string, dir: string, rows: seq<Row>, baseD: seq<Item>,
              baseN: seq<Item>)
    requires ReadSoFar(d, n, w, archive, dir, rows, baseD, baseN)
    ensures d.items == TableItems(w, archive, dir, rows, true) + baseD
    ensures n.items == TableItems(w, archive, dir, rows, false) + baseN
  {
  }

  lemma NothingRead(d: FileList, n: FileList, w: World, archive: string, dir: string)
    ensures ReadSoFar(d, n, w, archive, dir, Rows(Fst, []), d.items, n.items)
  {
    NothingMore(d.items);
    NothingMore(n.items);
  }

  // ---------------------------------------------------------------- all archives

  /** A line of the master INDEX, with the text of the archive's files table if it
      can be read; only archives that are marked take part. */
  datatype ArchiveSpec = ArchiveSpec(name: string, dir: string, marked: bool, fst: Option<string>)

  predicate TakesPart(a: ArchiveSpec) { a.marked && a.fst.Some? }

  function AllItems(w: World, archives: seq<ArchiveSpec>, tables: seq<seq<Row>>, delivery: bool): seq<Item>
    requires |tables| == |archives|
  {
    if archives == [] then []
    else
      var k := |archives| - 1;
      var a := archives[k];
      (if TakesPart(a) then TableItems(w, a.name, a.dir, tables[k], delivery) else [])
      + AllItems(w, archives[..k], tables[..k], delivery)
  }

  ghost predicate Readable(archives: seq<ArchiveSpec>, recs: seq<seq<Rec>>)
  {
    && |recs| == |archives|
    && forall k :: 0 <= k < |archives| && archives[k].fst.Some? ==>
         Wf(Fst, recs[k]) && archives[k].fst.value == TableText(recs[k])
  }

  function Tables(recs: seq<seq<Rec>>): (t: seq<seq<Row>>)
    ensures |t| == |recs| && forall k :: 0 <= k < |t| ==> t[k] == Rows(Fst, recs[k])
  {
    seq(|recs|, k requires 0 <= k < |recs| => Rows(Fst, recs[k]))
  }

  /** afd_fui_deliver_pass1 */
  method Pass1(archives: seq<ArchiveSpec>, w: World, d: FileList, n: FileList, ghost recs: seq<seq<Rec>>)
      returns (ret: bool)
    requires Apart(d, n) && d.items == [] && n.items == [] && Readable(archives, recs)
    modifies d, n, d.repr, n.repr
    ensures Apart(d, n) && fresh(d.repr - old(d.repr)) && fresh(n.repr - old(n.repr))
    ensures d.items == AllItems(w, archives, Tables(recs), true) &&
            n.items == AllItems(w, archives, Tables(recs), false)
    ensures ret <==> forall k :: 0 <= k < |archives| && archives[k].marked ==> archives[k].fst.Some?
  {
    hide TableText, Rows, Wf, Apart, TableItems;
    ret := true;
    var k := 0;
    ghost var tables := Tables(recs);
    while k < |archives|
      invariant 0 <= k <= |archives|
      invariant Apart(d, n) && fresh(d.repr - old(d.repr)) && fresh(n.repr - old(n.repr))
      invariant d.items == AllItems(w, archives[..k], tables[..k], true)
      invariant n.items == AllItems(w, archives[..k], tables[..k], false)
      invariant ret <==> forall j :: 0 <= j < k && archives[j].marked ==> archives[j].fst.Some?
    {
      var a := archives[k];
      AllItemsNext(w, archives, tables, k, true);
      AllItemsNext(w, archives, tables, k, false);
      if a.marked {
        if a.fst.None? {
          ret := false;
        } else {
          ListTable(d, n, w, a.name, a.dir, a.fst.value, recs[k]);
        }
      }
      k := k + 1;
    }
    assert archives[..k] == archives && tables[..k] == tables;
  }

  lemma AllItemsNext(w: World, archives: seq<ArchiveSpec>, tables: seq<seq<Row>>, k: nat, delivery: bool)
    requires |tables| == |archives| && k < |archives|
    ensures AllItems(w, archives[..k + 1], tables[..k + 1], delivery) ==
            (if TakesPart(archives[k])
             then TableItems(w, archives[k].name, archives[k].dir, tables[k], delivery) else [])
            + AllItems(w, archives[..k], tables[..k], delivery)
    ensures !TakesPart(archives[k]) ==>
              AllItems(w, archives[..k + 1], tables[..k + 1], delivery) ==
                  AllItems(w, archives[..k], tables[..k], delivery)
  {
    hide TableItems;
    assert archives[..k + 1][..k] == archives[..k] && tables[..k + 1][..k] == tables[..k];
    NothingMore(AllItems(w, archives[..k], tables[..k], delivery));
  }
}
