/** Over every run of subscriptions, the subscribers table and the files table of
    an archive are transposes of each other (commands/afd_fui.c). */
module AfdRuns {
  import opened Text
  import opened TextFiles
  import opened TableLines
  import opened FoldedTables
  import opened AfdTables
  import opened AfdUpdates
  import opened AfdRows
  import opened AfdStatus
  import opened AfdArchive

  // ---------------------------------------------------------------- counting

  /** How often an entry is listed under a name. */
  function Count(k: Kind, rows: seq<Row>, n: string, e: Entry): nat
  {
    if rows == [] then 0
    else
      var row := rows[|rows| - 1];
      Count(k, rows[..|rows| - 1], n, e) + if Name(k, row.head) == n then multiset(row.entries)[e] else 0
  }

  /** How many rows a name has. */
  function Num(k: Kind, rows: seq<Row>, n: string): nat
  {
    if rows == [] then 0
    else Num(k, rows[..|rows| - 1], n) + if Name(k, rows[|rows| - 1].head) == n then 1 else 0
  }

  lemma {:induction false} CountAppend(k: Kind, a: seq<Row>, b: seq<Row>, n: string, e: Entry)
    ensures Count(k, a + b, n, e) == Count(k, a, n, e) + Count(k, b, n, e)
    ensures Num(k, a + b, n) == Num(k, a, n) + Num(k, b, n)
    decreases |b|
  {
    hide Name;
    if b == [] {
      assert a + b == a;
    } else {
      var m := |b| - 1;
      assert (a + b)[..|a| + m] == a + b[..m] && (a + b)[|a| + m] == b[m];
      CountAppend(k, a, b[..m], n, e);
    }
  }

  lemma CountOne(k: Kind, row: Row, n: string, e: Entry)
    ensures Count(k, [row], n, e) == if Name(k, row.head) == n then multiset(row.entries)[e] else 0
    ensures Num(k, [row], n) == if Name(k, row.head) == n then 1 else 0
  {
    hide Name;
    assert [row][..0] == [];
    assert Count(k, [], n, e) == 0 && Num(k, [], n) == 0;
  }

  lemma {:induction false} FilterCount(es: seq<Entry>, keep: Entry -> bool, e: Entry)
    ensures multiset(Filter(es, keep))[e] == if keep(e) then multiset(es)[e] else 0
  {
    if es != [] {
      assert es == [es[0]] + es[1..];
      FilterCount(es[1..], keep, e);
    }
  }

  lemma {:induction false} NumHits(k: Kind, rows: seq<Row>, hit: string -> bool)
    ensures RowHits(k, rows, hit) <==> exists n :: hit(n) && Num(k, rows, n) > 0
  {
    hide Name;
    if RowHits(k, rows, hit) {
      var i :| 0 <= i < |rows| && hit(Name(k, rows[i].head));
      NumAt(k, rows, i);
    }
    if n :| hit(n) && Num(k, rows, n) > 0 {
      var i := RowAt(k, rows, n);
      assert hit(Name(k, rows[i].head));
    }
  }

  lemma {:induction false} NumAt(k: Kind, rows: seq<Row>, i: nat)
    requires i < |rows|
    ensures Num(k, rows, Name(k, rows[i].head)) > 0
  {
    hide Name;
    if i < |rows| - 1 {
      NumAt(k, rows[..|rows| - 1], i);
    }
  }

  lemma {:induction false} RowAt(k: Kind, rows: seq<Row>, n: string) returns (i: nat)
    requires Num(k, rows, n) > 0
    ensures i < |rows| && Name(k, rows[i].head) == n
  {
    hide Name;
    if Name(k, rows[|rows| - 1].head) == n {
      i := |rows| - 1;
    } else {
      i := RowAt(k, rows[..|rows| - 1], n);
    }
  }

  // ---------------------------------------------------------------- what an update does to the counts

  predicate Kept(k: Kind, a: Action, e: Entry) requires a.Delete? { Keeps(k, a.arg)(e) }

  function RowCount(k: Kind, row: Row, a: Action, n: string, e: Entry): nat
  {
    var c := multiset(row.entries)[e];
    if Name(k, row.head) != n || a.Drop? then 0
    else if a.Add? then c + (if a.e == e then 1 else 0)
    else if Kept(k, a, e) then c else 0
  }

  function NewCount(k: Kind, rows: seq<Row>, hit: string -> bool, a: Action, n: string, e: Entry): nat
  {
    if !hit(n) then Count(k, rows, n, e)
    else if a.Drop? then 0
    else if a.Add? then Count(k, rows, n, e) + (if a.e == e then Num(k, rows, n) else 0)
    else if Kept(k, a, e) then Count(k, rows, n, e) else 0
  }

  lemma ChangedCount(k: Kind, row: Row, a: Action, n: string, e: Entry)
    ensures var t := ChangedRow(k, row, a);
            && Count(k, t, n, e) == RowCount(k, row, a, n, e)
            && Num(k, t, n) <= (if Name(k, row.head) == n then 1 else 0)
            && (a.Add? && Name(k, row.head) == n ==> Num(k, t, n) == 1)
  {
    hide Name, Filter, Keeps;
    match a
    case Add(x, _) => CountOne(k, Row(row.head, row.entries + [x]), n, e);
    case Delete(arg) =>
      var es := Filter(row.entries, Keeps(k, arg));
      FilterCount(row.entries, Keeps(k, arg), e);
      CountOne(k, Row(row.head, es), n, e);
    case Drop =>
  }

  lemma OneRowCount(k: Kind, row: Row, hit: string -> bool, a: Action, n: string, e: Entry)
    ensures var t := if hit(Name(k, row.head)) then ChangedRow(k, row, a) else [row];
            && Count(k, t, n, e) == NewCount(k, [row], hit, a, n, e)
            && Num(k, t, n) <= Num(k, [row], n)
            && (a.Add? ==> Num(k, t, n) == Num(k, [row], n))
  {
    hide Name, ChangedRow, Kept, Count, Num;
    ChangedCount(k, row, a, n, e);
    CountOne(k, row, n, e);
  }

  lemma NewCountAppend(k: Kind, a: seq<Row>, b: seq<Row>, hit: string -> bool, c: Action, n: string, e: Entry)
    ensures NewCount(k, a + b, hit, c, n, e) == NewCount(k, a, hit, c, n, e) + NewCount(k, b, hit, c, n, e)
  {
    hide Count, Num, Kept;
    CountAppend(k, a, b, n, e);
  }

  lemma NoneCount(k: Kind, hit: string -> bool, a: Action, n: string, e: Entry)
    ensures UpdatedRows(k, [], hit, a) == [] && Count(k, [], n, e) == 0 == NewCount(k, [], hit, a, n, e) &&
            Num(k, [], n) == 0
  {
  }

  lemma {:induction false} UpdatedCount(k: Kind, rows: seq<Row>, hit: string -> bool, a: Action, n: string, e: Entry)
    ensures Count(k, UpdatedRows(k, rows, hit, a), n, e) == NewCount(k, rows, hit, a, n, e)
    ensures Num(k, UpdatedRows(k, rows, hit, a), n) <= Num(k, rows, n)
    ensures a.Add? ==> Num(k, UpdatedRows(k, rows, hit, a), n) == Num(k, rows, n)
  {
    hide Name, ChangedRow, Count, Num, NewCount;
    if rows == [] {
      NoneCount(k, hit, a, n, e);
    } else {
      var m := |rows| - 1;
      var row, u := rows[m], UpdatedRows(k, rows[..m], hit, a);
      var t := if hit(Name(k, row.head)) then ChangedRow(k, row, a) else [row];
      UpdatedCount(k, rows[..m], hit, a, n, e);
      OneRowCount(k, row, hit, a, n, e);
      CountAppend(k, u, t, n, e);
      CountAppend(k, rows[..m], [row], n, e);
      NewCountAppend(k, rows[..m], [row], hit, a, n, e);
      assert rows == rows[..m] + [row];
    }
  }

  /** The counts after an update. */
  lemma NewRowsCount(k: Kind, rows: seq<Row>, hit: string -> bool, a: Action, head: string, n: string, e: Entry)
    ensures var t := NewRows(k, rows, hit, a, head);
            var added := a.Add? && !RowHits(k, rows, hit) && Name(k, head) == n;
            && Count(k, t, n, e) == NewCount(k, rows, hit, a, n, e) + (if added && a.e == e then 1 else 0)
            && Num(k, t, n) <= Num(k, rows, n) + (if added then 1 else 0)
            && (a.Add? ==> Num(k, t, n) == Num(k, rows, n) + (if added then 1 else 0))
  {
    hide Name, Count, Num, NewCount, UpdatedRows, RowHits;
    var u := UpdatedRows(k, rows, hit, a);
    UpdatedCount(k, rows, hit, a, n, e);
    if a.Add? && !RowHits(k, rows, hit) {
      CountOne(k, Row(head, [a.e]), n, e);
      CountAppend(k, u, [Row(head, [a.e])], n, e);
    } else {
      assert u + [] == u;
    }
  }

  // ---------------------------------------------------------------- rows and counts

  lemma {:induction false} CountNeedsRow(k: Kind, rows: seq<Row>, n: string, e: Entry)
    ensures Num(k, rows, n) == 0 ==> Count(k, rows, n, e) == 0
  {
    hide Name;
    if rows != [] {
      CountNeedsRow(k, rows[..|rows| - 1], n, e);
    }
  }

  lemma {:induction false} CountAt(k: Kind, rows: seq<Row>, i: nat, e: Entry)
    requires i < |rows| && Num(k, rows, Name(k, rows[i].head)) <= 1
    ensures Count(k, rows, Name(k, rows[i].head), e) == multiset(rows[i].entries)[e]
  {
    hide Name;
    var m, n := |rows| - 1, Name(k, rows[i].head);
    if i == m {
      CountNeedsRow(k, rows[..m], n, e);
    } else {
      NumAt(k, rows[..m], i);
      CountAt(k, rows[..m], i, e);
    }
  }

  // ---------------------------------------------------------------- the invariant

  ghost predicate GoodNames(users: set<string>, files: set<string>)
  {
    (forall a :: a in users ==> GoodUser(a)) && (forall f :: f in files ==> GoodFile(f))
  }

  /** Addresses written in one way each, and files none of which starts another. */
  ghost predicate Names(users: set<string>, files: set<string>)
  {
    && GoodNames(users, files)
    && (forall a, b :: a in users && b in users && Upcase(a) == Upcase(b) ==> a == b)
    && (forall f, g :: f in files && g in files && StartsWith(g, f) ==> f == g)
  }

  ghost predicate OneRowEach(k: Kind, rows: seq<Row>, names: set<string>)
  {
    && (forall n :: Num(k, rows, n) <= 1)
    && (forall n :: Num(k, rows, n) > 0 ==> n in names)
  }

  function Listed(t: Tables, a: string, f: string, m: char): nat { Count(Sft, t.sft, a, SftEntry(f, m)) }

  function ListedBack(t: Tables, a: string, f: string, m: char): nat { Count(Fst, t.fst, f, FstEntry(a, m)) }

  /** A user has a file in one table with the mode with which the file has the user
      in the other, and at most once. */
  ghost predicate Transposed(t: Tables, users: set<string>, files: set<string>)
  {
    && (forall a, f, m :: a in users && f in files && GoodMode(m) ==> Listed(t, a, f, m) == ListedBack(t, a, f, m))
    && (forall a, f :: a in users && f in files ==> Listed(t, a, f, 'D') + Listed(t, a, f, 'N') <= 1)
  }

  /** And no table lists anything else. */
  ghost predicate NothingElse(t: Tables, users: set<string>, files: set<string>)
  {
    && (forall n, e :: Count(Sft, t.sft, n, e) > 0 ==>
          n in users && exists f, m :: f in files && GoodMode(m) && e == SftEntry(f, m))
    && (forall n, e :: Count(Fst, t.fst, n, e) > 0 ==>
          n in files && exists a, m :: a in users && GoodMode(m) && e == FstEntry(a, m))
  }

  ghost predicate Inv(t: Tables, users: set<string>, files: set<string>)
  {
    && OneRowEach(Sft, t.sft, users) && OneRowEach(Fst, t.fst, files)
    && Transposed(t, users, files) && NothingElse(t, users, files)
  }

  // ---------------------------------------------------------------- entries

  lemma SftEntryInjective(f: string, m: char, g: string, o: char)
    requires GoodFile(f) && GoodFile(g) && GoodMode(m) && GoodMode(o)
    ensures SftEntry(f, m) == SftEntry(g, o) <==> f == g && m == o
  {
    if SftEntry(f, m) == SftEntry(g, o) {
      GoodSftEntry(f, m);
      GoodSftEntry(g, o);
      assert SftEntry(f, m).key[|f| + 3] == m && SftEntry(g, o).key[|g| + 3] == o;
    }
  }

  lemma FstEntryInjective(a: string, m: char, b: string, o: char)
    ensures FstEntry(a, m) == FstEntry(b, o) <==> a == b && m == o
  {
    assert ModeMark(m)[3] == m && ModeMark(o)[3] == o;
  }

  /** Deleting a file from a user takes the entries of that file alone. */
  lemma KeepsOtherFiles(users: set<string>, files: set<string>, f: string, g: string, m: char)
    requires Names(users, files) && f in files && g in files && GoodMode(m)
    ensures Keeps(Sft, f)(SftEntry(g, m)) <==> f != g
  {
    var w := SftEntry(g, m).key;
    assert w[|g|] == FIELD && forall i :: 0 <= i < |f| ==> f[i] != FIELD;
    if StartsWith(w, f) {
      assert forall i :: 0 <= i < |f| ==> w[..|f|][i] == w[i];
      assert |f| <= |g|;
      assert g[..|f|] == w[..|f|];
    } else {
      assert w[..|g|] == g;
    }
  }

  // ---------------------------------------------------------------- subscribing

  /** One more entry under one name. */
  ghost predicate OneMore(k: Kind, rows: seq<Row>, rows': seq<Row>, name: string, x: Entry)
  {
    && (forall n, e :: Count(k, rows', n, e) == Count(k, rows, n, e) + if n == name && e == x then 1 else 0)
    && (forall n :: Num(k, rows', n) == if n == name then 1 else Num(k, rows, n))
  }

  lemma AddOneAt(k: Kind, rows: seq<Row>, hit: string -> bool, x: Entry, base: nat, head: string, names: set<string>,
                 n: string, e: Entry)
    requires OneRowEach(k, rows, names)
    requires forall m :: m in names ==> (hit(m) <==> m == Name(k, head))
    ensures var rows' := NewRows(k, rows, hit, Add(x, base), head);
            && Count(k, rows', n, e) == Count(k, rows, n, e) + (if n == Name(k, head) && e == x then 1 else 0)
            && Num(k, rows', n) == if n == Name(k, head) then 1 else Num(k, rows, n)
  {
    hide Count, Num, NewRows, Name, RowHits;
    NumHits(k, rows, hit);
    NewRowsCount(k, rows, hit, Add(x, base), head, n, e);
    assert Num(k, rows, n) <= 1 && Num(k, rows, Name(k, head)) <= 1;
    assert Num(k, rows, n) > 0 ==> n in names;
  }

  lemma AddOne(k: Kind, rows: seq<Row>, hit: string -> bool, x: Entry, base: nat, head: string, names: set<string>)
    requires OneRowEach(k, rows, names)
    requires forall n :: n in names ==> (hit(n) <==> n == Name(k, head))
    ensures OneMore(k, rows, NewRows(k, rows, hit, Add(x, base), head), Name(k, head), x)
  {
    hide Count, Num, NewRows, Name, OneRowEach;
    var rows' := NewRows(k, rows, hit, Add(x, base), head);
    forall n, e ensures Count(k, rows', n, e) == Count(k, rows, n, e) + if n == Name(k, head) && e == x then 1 else 0 {
      AddOneAt(k, rows, hit, x, base, head, names, n, e);
    }
    forall n ensures Num(k, rows', n) == if n == Name(k, head) then 1 else Num(k, rows, n) {
      AddOneAt(k, rows, hit, x, base, head, names, n, x);
    }
  }

  lemma AddKeepsInv(t: Tables, t': Tables, users: set<string>, files: set<string>, address: string, file: string,
                    mode: char)
    requires Names(users, files) && Inv(t, users, files)
    requires address in users && file in files && GoodMode(mode)
    requires OneMore(Sft, t.sft, t'.sft, address, SftEntry(file, mode))
    requires OneMore(Fst, t.fst, t'.fst, file, FstEntry(address, mode))
    requires Listed(t, address, file, 'D') == 0 && Listed(t, address, file, 'N') == 0
    ensures Inv(t', users, files)
  {
    hide Count, Num, GoodUser, GoodFile, StartsWith, SftEntry, FstEntry;
    AddLists(t, t', users, files, address, file, mode);
    assert OneRowEach(Sft, t'.sft, users) && OneRowEach(Fst, t'.fst, files);
    AddKeepsForms(t, t', users, files, address, file, mode);
  }

  /** One more pair. */
  lemma AddLists(t: Tables, t': Tables, users: set<string>, files: set<string>, address: string, file: string,
                 mode: char)
    requires Names(users, files) && address in users && file in files && GoodMode(mode)
    requires OneMore(Sft, t.sft, t'.sft, address, SftEntry(file, mode))
    requires OneMore(Fst, t.fst, t'.fst, file, FstEntry(address, mode))
    ensures forall a, f, m :: a in users && f in files && GoodMode(m) ==>
              var more := if a == address && f == file && m == mode then 1 else 0;
              && Listed(t', a, f, m) == Listed(t, a, f, m) + more
              && ListedBack(t', a, f, m) == ListedBack(t, a, f, m) + more
  {
    hide Count, Num, GoodUser, GoodFile, StartsWith, SftEntry, FstEntry;
    forall a, f, m | a in users && f in files && GoodMode(m)
      ensures Listed(t', a, f, m) == Listed(t, a, f, m) + if a == address && f == file && m == mode then 1 else 0
      ensures ListedBack(t', a, f, m) ==
              ListedBack(t, a, f, m) + if a == address && f == file && m == mode then 1 else 0
    {
      SftEntryInjective(f, m, file, mode);
      FstEntryInjective(a, m, address, mode);
    }
  }

  lemma AddKeepsForms(t: Tables, t': Tables, users: set<string>, files: set<string>, address: string, file: string,
                      mode: char)
    requires NothingElse(t, users, files) && address in users && file in files && GoodMode(mode)
    requires OneMore(Sft, t.sft, t'.sft, address, SftEntry(file, mode))
    requires OneMore(Fst, t.fst, t'.fst, file, FstEntry(address, mode))
    ensures NothingElse(t', users, files)
  {
    hide Count, Num, SftEntry, FstEntry;
    forall n, e | Count(Sft, t'.sft, n, e) > 0
      ensures n in users && exists f, m :: f in files && GoodMode(m) && e == SftEntry(f, m)
    {
      assert Count(Sft, t.sft, n, e) > 0 || (n == address && e == SftEntry(file, mode));
    }
    forall n, e | Count(Fst, t'.fst, n, e) > 0
      ensures n in files && exists a, m :: a in users && GoodMode(m) && e == FstEntry(a, m)
    {
      assert Count(Fst, t.fst, n, e) > 0 || (n == file && e == FstEntry(address, mode));
    }
  }

  /** A user who is not subscribed to the file does not have it. */
  lemma NotListed(rows: seq<Row>, users: set<string>, files: set<string>, address: string, file: string, m: char)
    requires Names(users, files) && OneRowEach(Sft, rows, users) && address in users && file in files && GoodMode(m)
    requires StatusOf(rows, address, file) != Subscribed
    ensures Count(Sft, rows, address, SftEntry(file, m)) == 0
  {
    hide Count, Num, SftEntry, FileOf, GoodUser, GoodFile, Upcase;
    var e, i := SftEntry(file, m), FindUser(rows, address);
    GoodSftEntry(file, m);
    if i == |rows| {
      if Num(Sft, rows, address) > 0 {
        var j := RowAt(Sft, rows, address);
      }
      CountNeedsRow(Sft, rows, address, e);
    } else {
      NumAt(Sft, rows, i);
      CountAt(Sft, rows, i, e);
      assert Covers(e, file);
      assert e !in rows[i].entries;
    }
  }

  lemma SubscribeKeeps(t: Tables, users: set<string>, files: set<string>, address: string, file: string, mode: char,
                       time: nat)
    requires Names(users, files) && Inv(t, users, files)
    requires address in users && file in files && GoodMode(mode)
    ensures Inv(AfterSubscribe(t, address, file, mode, time), users, files)
  {
    hide Count, Num, NewRows, GoodUser, GoodFile, Upcase, FileHead, Transposed, NothingElse, OneMore, StatusOf,
         StartsWith;
    if StatusOf(t.sft, address, file) != Subscribed {
      var t' := AfterSubscribe(t, address, file, mode, time);
      NotListed(t.sft, users, files, address, file, 'D');
      NotListed(t.sft, users, files, address, file, 'N');
      AddOne(Sft, t.sft, UserIs(address), SftEntry(file, mode), |address| + |file| + 6, address, users);
      GoodFileHead(file, time);
      AddOne(Fst, t.fst, FileIs(file, false), FstEntry(address, mode), |file| + |address| + 6,
             FileHead(file, time), files);
      AddKeepsInv(t, t', users, files, address, file, mode);
    }
  }

  // ---------------------------------------------------------------- unsubscribing

  /** Nothing is listed that was not, and one user loses one file, or all. */
  ghost predicate Fewer(t: Tables, t': Tables, users: set<string>, files: set<string>, address: string, file: string,
                        all: bool)
  {
    && (forall n, e :: Count(Sft, t'.sft, n, e) <= Count(Sft, t.sft, n, e))
    && (forall n :: Num(Sft, t'.sft, n) <= Num(Sft, t.sft, n))
    && (forall n, e :: Count(Fst, t'.fst, n, e) <= Count(Fst, t.fst, n, e))
    && (forall n :: Num(Fst, t'.fst, n) <= Num(Fst, t.fst, n))
    && forall a, f, m :: a in users && f in files && GoodMode(m) ==>
         && Listed(t', a, f, m) == (if a == address && (all || f == file) then 0 else Listed(t, a, f, m))
         && ListedBack(t', a, f, m) == (if a == address && (all || f == file) then 0 else ListedBack(t, a, f, m))
  }

  lemma FewerKeepsInv(t: Tables, t': Tables, users: set<string>, files: set<string>, address: string, file: string,
                      all: bool)
    requires Inv(t, users, files) && Fewer(t, t', users, files, address, file, all)
    ensures Inv(t', users, files)
  {
    hide Count, Num, SftEntry, FstEntry, Listed, ListedBack;
    assert Transposed(t', users, files);
    FewerForms(t, t', users, files);
  }

  lemma FewerForms(t: Tables, t': Tables, users: set<string>, files: set<string>)
    requires OneRowEach(Sft, t.sft, users) && OneRowEach(Fst, t.fst, files) && NothingElse(t, users, files)
    requires forall n, e :: Count(Sft, t'.sft, n, e) <= Count(Sft, t.sft, n, e)
    requires forall n :: Num(Sft, t'.sft, n) <= Num(Sft, t.sft, n)
    requires forall n, e :: Count(Fst, t'.fst, n, e) <= Count(Fst, t.fst, n, e)
    requires forall n :: Num(Fst, t'.fst, n) <= Num(Fst, t.fst, n)
    ensures OneRowEach(Sft, t'.sft, users) && OneRowEach(Fst, t'.fst, files) && NothingElse(t', users, files)
  {
    hide Count, Num, SftEntry, FstEntry;
    forall n, e | Count(Sft, t'.sft, n, e) > 0
      ensures n in users && exists f, m :: f in files && GoodMode(m) && e == SftEntry(f, m)
    {
      assert Count(Sft, t.sft, n, e) > 0;
    }
    forall n, e | Count(Fst, t'.fst, n, e) > 0
      ensures n in files && exists a, m :: a in users && GoodMode(m) && e == FstEntry(a, m)
    {
      assert Count(Fst, t.fst, n, e) > 0;
    }
  }

  lemma RemoveCount(k: Kind, rows: seq<Row>, hit: string -> bool, a: Action, head: string, n: string, e: Entry)
    requires !a.Add?
    ensures var rows' := NewRows(k, rows, hit, a, head);
            && Count(k, rows', n, e) == (if hit(n) && (a.Drop? || !Kept(k, a, e)) then 0 else Count(k, rows, n, e))
            && Num(k, rows', n) <= Num(k, rows, n)
  {
    hide Count, Num, NewRows, Kept;
    NewRowsCount(k, rows, hit, a, head, n, e);
  }

  /** What unsubscribing takes from the subscribers table. */
  lemma SftTakes(t: Tables, users: set<string>, files: set<string>, address: string, file: string, a: string,
                 f: string, m: char)
    requires Names(users, files) && address in users && file in files && a in users && f in files && GoodMode(m)
    ensures var rows' := SftRows(t.sft, address, file, 'D', if IsStar(file) then DelUser else DelFile);
            Count(Sft, rows', a, SftEntry(f, m)) ==
            if a == address && (IsStar(file) || f == file) then 0 else Count(Sft, t.sft, a, SftEntry(f, m))
  {
    hide Count, Num, NewRows, SftEntry, GoodUser, GoodFile, Upcase, StartsWith, Keeps, IsStar;
    var act := SftAction(address, file, 'D', if IsStar(file) then DelUser else DelFile);
    RemoveCount(Sft, t.sft, UserIs(address), act, address, a, SftEntry(f, m));
    if !IsStar(file) {
      KeepsOtherFiles(users, files, file, f, m);
    }
  }

  /** And from the files table. */
  lemma FstTakes(t: Tables, address: string, file: string, a: string, f: string, m: char)
    ensures var rows' := FstRows(t.fst, address, file, 'D', DelUser, 0);
            Count(Fst, rows', f, FstEntry(a, m)) ==
            if a == address && (IsStar(file) || f == file) then 0 else Count(Fst, t.fst, f, FstEntry(a, m))
  {
    hide Count, Num, NewRows, IsStar, FileHead;
    RemoveCount(Fst, t.fst, FileIs(file, IsStar(file)), Delete(address), FileHead(file, 0), f, FstEntry(a, m));
  }

  lemma UnsubscribeKeeps(t: Tables, users: set<string>, files: set<string>, address: string, file: string)
    requires Names(users, files) && Inv(t, users, files) && address in users && file in files
    ensures Inv(AfterUnsubscribe(t, address, file), users, files)
  {
    hide Count, Num, NewRows, Names, GoodUser, GoodFile, Inv, Fewer, StatusOf, SftRows, FstRows, IsStar;
    if Unsubscribable(t, address, file) {
      UnsubscribeFewer(t, users, files, address, file);
      FewerKeepsInv(t, AfterUnsubscribe(t, address, file), users, files, address, file, IsStar(file));
    }
  }

  lemma UnsubscribeFewer(t: Tables, users: set<string>, files: set<string>, address: string, file: string)
    requires Names(users, files) && address in users && file in files && Unsubscribable(t, address, file)
    ensures Fewer(t, AfterUnsubscribe(t, address, file), users, files, address, file, IsStar(file))
  {
    hide Count, Num, NewRows, Names, GoodUser, GoodFile, StatusOf, IsStar, SftEntry, FstEntry, UserIs, FileIs, Kept,
         FileHead;
    hide Unsubscribable;
    var t' := AfterUnsubscribe(t, address, file);
    var act := SftAction(address, file, 'D', if IsStar(file) then DelUser else DelFile);
    forall n, e ensures Count(Sft, t'.sft, n, e) <= Count(Sft, t.sft, n, e) {
      RemoveCount(Sft, t.sft, UserIs(address), act, address, n, e);
    }
    forall n ensures Num(Sft, t'.sft, n) <= Num(Sft, t.sft, n) {
      RemoveCount(Sft, t.sft, UserIs(address), act, address, n, Entry("", ""));
    }
    forall n, e ensures Count(Fst, t'.fst, n, e) <= Count(Fst, t.fst, n, e) {
      RemoveCount(Fst, t.fst, FileIs(file, IsStar(file)), Delete(address), FileHead(file, 0), n, e);
    }
    forall n ensures Num(Fst, t'.fst, n) <= Num(Fst, t.fst, n) {
      RemoveCount(Fst, t.fst, FileIs(file, IsStar(file)), Delete(address), FileHead(file, 0), n, Entry("", ""));
    }
    forall a, f, m | a in users && f in files && GoodMode(m)
      ensures Listed(t', a, f, m) == (if a == address && (IsStar(file) || f == file) then 0 else Listed(t, a, f, m))
      ensures ListedBack(t', a, f, m) ==
              (if a == address && (IsStar(file) || f == file) then 0 else ListedBack(t, a, f, m))
    {
      SftTakes(t, users, files, address, file, a, f, m);
      FstTakes(t, address, file, a, f, m);
    }
  }

  // ---------------------------------------------------------------- runs

  datatype Step =
    | Subscribe(address: string, file: string, mode: char, time: nat)
    | Unsubscribe(address: string, file: string)

  ghost function After(steps: seq<Step>): Tables
  {
    if steps == [] then Tables([], [])
    else
      var t := After(steps[..|steps| - 1]);
      match steps[|steps| - 1]
      case Subscribe(address, file, mode, time) => AfterSubscribe(t, address, file, mode, time)
      case Unsubscribe(address, file) => AfterUnsubscribe(t, address, file)
  }

  ghost predicate From(users: set<string>, files: set<string>, s: Step)
  {
    s.address in users && s.file in files && (s.Subscribe? ==> GoodMode(s.mode))
  }

  /** After every run, the two tables of an archive are transposes, and list each
      user and file at most once. */
  lemma {:induction false} AlwaysTransposed(users: set<string>, files: set<string>, steps: seq<Step>)
    requires Names(users, files) && forall i :: 0 <= i < |steps| ==> From(users, files, steps[i])
    ensures Transposed(After(steps), users, files) && NothingElse(After(steps), users, files)
    ensures Inv(After(steps), users, files)
  {
    hide AfterSubscribe, AfterUnsubscribe, Names, Transposed, NothingElse;
    if steps == [] {
      StartInv(users, files);
    } else {
      var n := |steps| - 1;
      AlwaysTransposed(users, files, steps[..n]);
      match steps[n]
      case Subscribe(address, file, mode, time) =>
        SubscribeKeeps(After(steps[..n]), users, files, address, file, mode, time);
      case Unsubscribe(address, file) =>
        UnsubscribeKeeps(After(steps[..n]), users, files, address, file);
    }
  }

  lemma StartInv(users: set<string>, files: set<string>)
    ensures Inv(Tables([], []), users, files)
  {
    assert forall k: Kind, n, e :: Count(k, [], n, e) == 0;
    assert forall k: Kind, n :: Num(k, [], n) == 0;
  }

  // ---------------------------------------------------------------- a file that starts another

  lemma SubscribedRow(a: string, es: seq<Entry>, f: string)
    ensures StatusOf([Row(a, es)], a, f) == if SomeCovers(es, f) then Subscribed else ArchiveOnly
  {
    hide SomeCovers, Upcase;
    FirstUser([Row(a, es)], a, 0);
  }

  lemma NewFirst(k: Kind, hit: string -> bool, x: Entry, base: nat, head: string)
    ensures NewRows(k, [], hit, Add(x, base), head) == [Row(head, [x])]
  {
    assert UpdatedRows(k, [], hit, Add(x, base)) == [];
  }

  lemma HitsOne(k: Kind, row: Row, hit: string -> bool)
    ensures RowHits(k, [row], hit) <==> hit(Name(k, row.head))
  {
    hide Name;
    if hit(Name(k, row.head)) {
      assert hit(Name(k, [row][0].head));
    }
  }

  /** The condition on file names is needed: a user of f and of g, which starts
      with f, who unsubscribes from f has g in the files table only. */
  lemma PrefixBreaks(a: string, f: string, g: string, m: char, time: nat)
    requires GoodUser(a) && GoodFile(f) && GoodFile(g) && GoodMode(m)
    requires f != g && StartsWith(g, f) && !IsStar(f)
    ensures var t := After([Subscribe(a, g, m, time), Subscribe(a, f, m, time), Unsubscribe(a, f)]);
            Listed(t, a, g, m) == 0 && ListedBack(t, a, g, m) == 1
  {
    hide StatusOf, SomeCovers, GoodUser, NewRows, FileHead, SftEntry, FstEntry;
    var s1, s2, s3 := Subscribe(a, g, m, time), Subscribe(a, f, m, time), Unsubscribe(a, f);
    var eg, ef, x := SftEntry(g, m), SftEntry(f, m), FstEntry(a, m);
    var hg, hf := FileHead(g, time), FileHead(f, time);
    assert [s1, s2, s3][..2] == [s1, s2] && [s1, s2][..1] == [s1] && [s1][..0] == [];
    NoStatus(a, g);
    FirstSubscription(a, g, m, time);
    var t1 := Tables([Row(a, [eg])], [Row(hg, [x])]);
    assert After([s1]) == t1;
    SecondSubscription(a, f, g, m, time);
    var t2 := Tables([Row(a, [eg, ef])], [Row(hg, [x]), Row(hf, [x])]);
    assert After([s1, s2]) == t2;
    ThenUnsubscription(a, f, g, m, time);
    var t3 := Tables([], [Row(hg, [x])]);
    assert After([s1, s2, s3]) == t3;
    GoodFileHead(g, time);
    CountOne(Fst, Row(hg, [x]), g, x);
  }

  lemma NoStatus(a: string, f: string)
    ensures StatusOf([], a, f) == NotSubscribed
  {
    FirstUser([], a, 0);
  }

  lemma FirstSubscription(a: string, g: string, m: char, time: nat)
    requires StatusOf([], a, g) == NotSubscribed
    ensures AfterSubscribe(Tables([], []), a, g, m, time) ==
            Tables([Row(a, [SftEntry(g, m)])], [Row(FileHead(g, time), [FstEntry(a, m)])])
  {
    hide StatusOf, NewRows, FileHead;
    NewFirst(Sft, UserIs(a), SftEntry(g, m), |a| + |g| + 6, a);
    NewFirst(Fst, FileIs(g, false), FstEntry(a, m), |g| + |a| + 6, FileHead(g, time));
  }

  lemma SecondSubscription(a: string, f: string, g: string, m: char, time: nat)
    requires GoodFile(f) && GoodFile(g) && GoodMode(m) && f != g && StartsWith(g, f) && !IsStar(f)
    ensures AfterSubscribe(Tables([Row(a, [SftEntry(g, m)])], [Row(FileHead(g, time), [FstEntry(a, m)])]),
                           a, f, m, time) ==
            Tables([Row(a, [SftEntry(g, m), SftEntry(f, m)])],
                   [Row(FileHead(g, time), [FstEntry(a, m)]), Row(FileHead(f, time), [FstEntry(a, m)])])
  {
    hide StatusOf, SftRows, FstRows, FileHead, SftEntry, FstEntry, GoodFile, Covers;
    SecondCovers(f, g, m);
    NotCovered(a, SftEntry(g, m), f);
    SecondSft(a, f, g, m);
    SecondFst(a, f, g, m, time);
  }

  lemma SecondCovers(f: string, g: string, m: char)
    requires GoodFile(f) && GoodFile(g) && GoodMode(m) && f != g && StartsWith(g, f) && !IsStar(f)
    ensures !Covers(SftEntry(g, m), f)
  {
    hide FileOf, SftEntry;
    GoodSftEntry(g, m);
    assert g[0] == g[..|f|][0];
  }

  lemma SecondSft(a: string, f: string, g: string, m: char)
    ensures SftRows([Row(a, [SftEntry(g, m)])], a, f, m, AddFile) == [Row(a, [SftEntry(g, m), SftEntry(f, m)])]
  {
    hide UpdatedRows, RowHits, SftEntry, Upcase, Filter, Keeps;
    var eg, ef := SftEntry(g, m), SftEntry(f, m);
    var row, act := Row(a, [eg]), Add(ef, |a| + |f| + 6);
    UpdatedRowsOne(Sft, row, UserIs(a), act);
    HitsOne(Sft, row, UserIs(a));
    assert [eg] + [ef] == [eg, ef];
    assert ChangedRow(Sft, row, act) == [Row(a, [eg, ef])];
    assert [Row(a, [eg, ef])] + [] == [Row(a, [eg, ef])];
  }

  lemma SecondFst(a: string, f: string, g: string, m: char, time: nat)
    requires GoodFile(g) && f != g
    ensures FstRows([Row(FileHead(g, time), [FstEntry(a, m)])], a, f, m, AddFile, time) ==
            [Row(FileHead(g, time), [FstEntry(a, m)]), Row(FileHead(f, time), [FstEntry(a, m)])]
  {
    hide UpdatedRows, RowHits, FstEntry, FileHead, GoodFile, Name;
    var x := FstEntry(a, m);
    var row := Row(FileHead(g, time), [x]);
    GoodFileHead(g, time);
    UpdatedRowsOne(Fst, row, FileIs(f, false), Add(x, |f| + |a| + 6));
    HitsOne(Fst, row, FileIs(f, false));
    assert [row] + [Row(FileHead(f, time), [x])] == [row, Row(FileHead(f, time), [x])];
  }

  lemma NotCovered(a: string, e: Entry, f: string)
    requires !Covers(e, f)
    ensures StatusOf([Row(a, [e])], a, f) == ArchiveOnly
  {
    hide Covers, StatusOf;
    SubscribedRow(a, [e], f);
  }

  lemma ThenUnsubscription(a: string, f: string, g: string, m: char, time: nat)
    requires GoodFile(f) && GoodFile(g) && GoodMode(m) && f != g && StartsWith(g, f) && !IsStar(f)
    ensures var x := FstEntry(a, m);
            AfterUnsubscribe(Tables([Row(a, [SftEntry(g, m), SftEntry(f, m)])],
                                    [Row(FileHead(g, time), [x]), Row(FileHead(f, time), [x])]), a, f) ==
            Tables([], [Row(FileHead(g, time), [x])])
  {
    hide StatusOf, SftRows, FstRows, FileHead, GoodFile, FileOf, SftEntry, FstEntry, IsStar;
    var eg, ef := SftEntry(g, m), SftEntry(f, m);
    GoodSftEntry(f, m);
    SubscribedRow(a, [eg, ef], f);
    assert Covers([eg, ef][1], f);
    LosesBoth(a, f, g, m);
    LosesOne(a, f, g, m, time);
  }

  lemma LosesBoth(a: string, f: string, g: string, m: char)
    requires StartsWith(g, f)
    ensures SftRows([Row(a, [SftEntry(g, m), SftEntry(f, m)])], a, f, 'D', DelFile) == []
  {
    hide UpdatedRows, Upcase;
    var eg, ef := SftEntry(g, m), SftEntry(f, m);
    assert eg.key[..|f|] == g[..|f|] && ef.key[..|f|] == f;
    assert Filter([eg, ef][1..], Keeps(Sft, f)) == [];
    assert Filter([eg, ef], Keeps(Sft, f)) == [];
    UpdatedRowsOne(Sft, Row(a, [eg, ef]), UserIs(a), Delete(f));
  }

  lemma LosesOne(a: string, f: string, g: string, m: char, time: nat)
    requires GoodFile(f) && GoodFile(g) && f != g && !IsStar(f)
    ensures var x := FstEntry(a, m);
            FstRows([Row(FileHead(g, time), [x]), Row(FileHead(f, time), [x])], a, f, 'D', DelUser, 0) ==
            [Row(FileHead(g, time), [x])]
  {
    hide UpdatedRows, FileHead, GoodFile, Name, IsStar;
    var x := FstEntry(a, m);
    var rg, rf := Row(FileHead(g, time), [x]), Row(FileHead(f, time), [x]);
    GoodFileHead(f, time);
    GoodFileHead(g, time);
    UpdatedRowsOne(Fst, rg, FileIs(f, false), Delete(a));
    UpdatedRowsOne(Fst, rf, FileIs(f, false), Delete(a));
    UpdatedRowsAppend(Fst, [rg], [rf], FileIs(f, false), Delete(a));
    assert [rg] + [rf] == [rg, rf];
    assert Filter([x], Keeps(Fst, a)) == [];
  }

  // ---------------------------------------------------------------- an address written in two ways

  /** The condition on addresses is needed: a user who subscribes as a and
      unsubscribes as b is left in the files table only. */
  lemma CaseBreaks(a: string, b: string, f: string, m: char, time: nat)
    requires GoodUser(a) && GoodUser(b) && GoodFile(f) && GoodMode(m) && a != b && Upcase(a) == Upcase(b)
    ensures var t := After([Subscribe(a, f, m, time), Unsubscribe(b, f)]);
            Listed(t, a, f, m) == 0 && ListedBack(t, a, f, m) == 1
  {
    hide StatusOf, SomeCovers, GoodUser, NewRows, FileHead, SftEntry, FstEntry, Upcase;
    var s1, s2 := Subscribe(a, f, m, time), Unsubscribe(b, f);
    var h, x := FileHead(f, time), FstEntry(a, m);
    assert [s1, s2][..1] == [s1] && [s1][..0] == [];
    NoStatus(a, f);
    FirstSubscription(a, f, m, time);
    assert After([s1]) == Tables([Row(a, [SftEntry(f, m)])], [Row(h, [x])]);
    OtherUnsubscription(a, b, f, m, time);
    assert After([s1, s2]) == Tables([], [Row(h, [x])]);
    GoodFileHead(f, time);
    CountOne(Fst, Row(h, [x]), f, x);
  }

  lemma OtherUnsubscription(a: string, b: string, f: string, m: char, time: nat)
    requires GoodFile(f) && GoodMode(m) && a != b && Upcase(a) == Upcase(b)
    ensures var h, x := FileHead(f, time), FstEntry(a, m);
            AfterUnsubscribe(Tables([Row(a, [SftEntry(f, m)])], [Row(h, [x])]), b, f) == Tables([], [Row(h, [x])])
  {
    hide SftRows, FstRows, FileHead, GoodFile, FileOf, SftEntry, FstEntry, IsStar, Upcase;
    var e := SftEntry(f, m);
    GoodSftEntry(f, m);
    FirstUser([Row(a, [e])], b, 0);
    assert Covers([e][0], f);
    LosesRow(a, b, f, m);
    KeepsRow(a, b, f, m, time);
  }

  lemma LosesRow(a: string, b: string, f: string, m: char)
    requires Upcase(a) == Upcase(b)
    ensures SftRows([Row(a, [SftEntry(f, m)])], b, f, 'D', if IsStar(f) then DelUser else DelFile) == []
  {
    hide UpdatedRows, Upcase, IsStar;
    var e := SftEntry(f, m);
    assert e.key[..|f|] == f;
    assert Filter([e], Keeps(Sft, f)) == [];
    UpdatedRowsOne(Sft, Row(a, [e]), UserIs(b), if IsStar(f) then Drop else Delete(f));
  }

  lemma KeepsRow(a: string, b: string, f: string, m: char, time: nat)
    requires GoodFile(f) && a != b
    ensures var row := Row(FileHead(f, time), [FstEntry(a, m)]); FstRows([row], b, f, 'D', DelUser, 0) == [row]
  {
    hide UpdatedRows, FileHead, GoodFile, Name, IsStar;
    var x := FstEntry(a, m);
    GoodFileHead(f, time);
    UpdatedRowsOne(Fst, Row(FileHead(f, time), [x]), FileIs(f, IsStar(f)), Delete(b));
    assert Filter([x], Keeps(Fst, b)) == [x];
  }

  // ---------------------------------------------------------------- which names will do

  ghost predicate StepsFrom(users: set<string>, files: set<string>, steps: seq<Step>)
  {
    forall i :: 0 <= i < |steps| ==> From(users, files, steps[i])
  }

  ghost predicate EveryRunTransposed(users: set<string>, files: set<string>)
  {
    forall steps :: StepsFrom(users, files, steps) ==>
      Transposed(After(steps), users, files) && NothingElse(After(steps), users, files)
  }

  /** The tables are transposes after every run over some addresses and files if and
      only if no address is written in two ways and no file name starts another. */
  lemma TransposedIff(users: set<string>, files: set<string>)
    requires GoodNames(users, files) && users != {} && files != {}
    ensures EveryRunTransposed(users, files) <==> Names(users, files)
  {
    hide GoodNames, Transposed, NothingElse, After, From, GoodUser, GoodFile;
    if Names(users, files) {
      forall steps | StepsFrom(users, files, steps)
        ensures Transposed(After(steps), users, files) && NothingElse(After(steps), users, files)
      {
        AlwaysTransposed(users, files, steps);
      }
    }
    if EveryRunTransposed(users, files) {
      forall a, b | a in users && b in users && Upcase(a) == Upcase(b) ensures a == b {
        if a != b {
          OneWayEach(users, files, a, b);
        }
      }
      forall f, g | f in files && g in files && StartsWith(g, f) ensures f == g {
        if f != g {
          NoneStarts(users, files, f, g);
        }
      }
    }
  }

  lemma OneWayEach(users: set<string>, files: set<string>, a: string, b: string)
    requires GoodNames(users, files) && files != {} && EveryRunTransposed(users, files)
    requires a in users && b in users && Upcase(a) == Upcase(b)
    ensures a == b
  {
    hide Listed, ListedBack, NothingElse, After, GoodUser, GoodFile;
    var f :| f in files;
    var steps := [Subscribe(a, f, 'D', 0), Unsubscribe(b, f)];
    assert StepsFrom(users, files, steps);
    assert Listed(After(steps), a, f, 'D') == ListedBack(After(steps), a, f, 'D');
    if a != b {
      CaseBreaks(a, b, f, 'D', 0);
    }
  }

  lemma NoneStarts(users: set<string>, files: set<string>, f: string, g: string)
    requires GoodNames(users, files) && users != {} && EveryRunTransposed(users, files)
    requires f in files && g in files && StartsWith(g, f)
    ensures f == g
  {
    hide Listed, ListedBack, NothingElse, After, GoodUser;
    var a :| a in users;
    var steps := [Subscribe(a, g, 'D', 0), Subscribe(a, f, 'D', 0), Unsubscribe(a, f)];
    assert StepsFrom(users, files, steps);
    assert Listed(After(steps), a, g, 'D') == ListedBack(After(steps), a, g, 'D');
    if f != g {
      assert !IsStar(f) by {
        assert g[0] == g[..|f|][0];
      }
      PrefixBreaks(a, f, g, 'D', 0);
    }
  }
}
