/** What one subscription or unsubscription does to the pairs that the two tables of
    an archive list, and whether it is answered as done (commands/afd_fui.c). */
module AfdEffects {
  import opened Text
  import opened TextFiles
  import opened TableLines
  import opened FoldedTables
  import opened AfdTables
  import opened AfdUpdates
  import opened AfdRows
  import opened AfdStatus
  import opened AfdArchive
  import opened AfdRuns

  const ALL: string := "*"

  // ---------------------------------------------------------------- who has what

  /** The file, or all files, are listed for the user. */
  ghost predicate Covered(t: Tables, a: string, f: string)
  {
    exists m :: GoodMode(m) && (Listed(t, a, f, m) > 0 || Listed(t, a, ALL, m) > 0)
  }

  ghost predicate HasAny(t: Tables, a: string)
  {
    exists f, m :: GoodMode(m) && Listed(t, a, f, m) > 0
  }

  /** No user is left in the table without files. */
  ghost predicate NoEmptyRows(rows: seq<Row>) { forall i :: 0 <= i < |rows| ==> rows[i].entries != [] }

  lemma StarIsAll(f: string)
    requires GoodFile(f)
    ensures IsStar(f) <==> f == ALL
  {
  }

  lemma CoversIff(g: string, m: char, f: string)
    requires GoodFile(g) && GoodMode(m)
    ensures Covers(SftEntry(g, m), f) <==> g == f || g == ALL
  {
    hide FileOf, SftEntry, GoodFile;
    GoodSftEntry(g, m);
    StarIsAll(g);
  }

  /** The row of a user, who is written in one way. */
  lemma UserRow(t: Tables, users: set<string>, files: set<string>, a: string) returns (i: nat)
    requires Names(users, files) && OneRowEach(Sft, t.sft, users) && a in users
    ensures i == FindUser(t.sft, a) <= |t.sft|
    ensures i < |t.sft| ==> forall e :: Count(Sft, t.sft, a, e) == multiset(t.sft[i].entries)[e]
    ensures i == |t.sft| ==> forall e :: Count(Sft, t.sft, a, e) == 0
  {
    hide Count, Num, Upcase, GoodUser, GoodFile, StartsWith;
    i := FindUser(t.sft, a);
    if i < |t.sft| {
      NumAt(Sft, t.sft, i);
      assert t.sft[i].head == a;
      forall e ensures Count(Sft, t.sft, a, e) == multiset(t.sft[i].entries)[e] {
        CountAt(Sft, t.sft, i, e);
      }
    } else {
      if Num(Sft, t.sft, a) > 0 {
        var j := RowAt(Sft, t.sft, a);
      }
      forall e ensures Count(Sft, t.sft, a, e) == 0 {
        CountNeedsRow(Sft, t.sft, a, e);
      }
    }
  }

  /** What subscribed_to_archive answers. */
  lemma StatusMeans(t: Tables, users: set<string>, files: set<string>, a: string, f: string)
    requires Names(users, files) && Inv(t, users, files) && NoEmptyRows(t.sft) && a in users && f in files
    ensures StatusOf(t.sft, a, f) == Subscribed <==> Covered(t, a, f)
    ensures StatusOf(t.sft, a, f) == NotSubscribed <==> !HasAny(t, a)
  {
    hide Count, Num, GoodUser, Names, SftEntry, Covers, FindUser, Transposed, OneRowEach;
    var i := UserRow(t, users, files, a);
    if i < |t.sft| {
      var es := t.sft[i].entries;
      if SomeCovers(es, f) {
        var j :| 0 <= j < |es| && Covers(es[j], f);
        CoveringIsListed(t, users, files, a, f, es[j]);
      }
      if Covered(t, a, f) {
        var m :| GoodMode(m) && (Listed(t, a, f, m) > 0 || Listed(t, a, ALL, m) > 0);
        ListedCovers(t, users, files, a, f, m, es);
      }
      assert es[0] in multiset(es);
      EntryIsListed(t, users, files, a, es[0]);
    }
  }

  lemma EntryIsListed(t: Tables, users: set<string>, files: set<string>, a: string, e: Entry)
    requires NothingElse(t, users, files) && Count(Sft, t.sft, a, e) > 0
    ensures HasAny(t, a) && exists g, m :: g in files && GoodMode(m) && e == SftEntry(g, m) && Listed(t, a, g, m) > 0
  {
    hide Count, SftEntry;
    var g, m :| g in files && GoodMode(m) && e == SftEntry(g, m);
    assert Listed(t, a, g, m) > 0;
  }

  lemma CoveringIsListed(t: Tables, users: set<string>, files: set<string>, a: string, f: string, e: Entry)
    requires Names(users, files) && NothingElse(t, users, files) && Count(Sft, t.sft, a, e) > 0 && Covers(e, f)
    ensures Covered(t, a, f)
  {
    hide Count, SftEntry, NothingElse, Covers, GoodFile, GoodUser;
    EntryIsListed(t, users, files, a, e);
    var g, m :| g in files && GoodMode(m) && e == SftEntry(g, m) && Listed(t, a, g, m) > 0;
    CoversIff(g, m, f);
  }

  lemma ListedCovers(t: Tables, users: set<string>, files: set<string>, a: string, f: string, m: char, es: seq<Entry>)
    requires Names(users, files) && f in files && GoodMode(m)
    requires forall e :: Count(Sft, t.sft, a, e) == multiset(es)[e]
    requires Listed(t, a, f, m) > 0 || Listed(t, a, ALL, m) > 0
    ensures SomeCovers(es, f)
  {
    hide Count, SftEntry, Covers, GoodFile, GoodUser;
    var g := if Listed(t, a, f, m) > 0 then f else ALL;
    assert GoodFile(ALL) by {
      AllIsGood();
    }
    CoversIff(g, m, f);
    assert SftEntry(g, m) in multiset(es);
    var j :| 0 <= j < |es| && es[j] == SftEntry(g, m);
  }

  lemma AllIsGood()
    ensures GoodFile(ALL)
  {
  }

  // ---------------------------------------------------------------- the two requests

  /** The pairs are what they were, but for those of one user that are told. */
  ghost predicate Except(t: Tables, t': Tables, users: set<string>, files: set<string>, a: string,
                         told: (string, char) -> bool, n: nat)
  {
    forall b, g, m :: b in users && g in files && GoodMode(m) ==>
      && Listed(t', b, g, m) == (if b == a && told(g, m) then n else Listed(t, b, g, m))
      && ListedBack(t', b, g, m) == (if b == a && told(g, m) then n else ListedBack(t, b, g, m))
  }

  function Pair(f: string, m: char): (string, char) -> bool { (g: string, o: char) => g == f && o == m }

  function Taken(f: string): (string, char) -> bool { (g: string, o: char) => f == ALL || g == f }

  /** A subscription is done unless the user has the file or all files; then the file
      is listed for him once, with that mode, in both tables, and nothing else
      changes. */
  lemma SubscribeDoes(t: Tables, users: set<string>, files: set<string>, a: string, f: string, m: char, time: nat)
    requires Names(users, files) && Inv(t, users, files) && NoEmptyRows(t.sft)
    requires a in users && f in files && GoodMode(m)
    ensures var t' := AfterSubscribe(t, a, f, m, time);
            && (Covered(t, a, f) <==> StatusOf(t.sft, a, f) == Subscribed)
            && if Covered(t, a, f) then t' == t else Except(t, t', users, files, a, Pair(f, m), 1)
  {
    hide Count, Num, NewRows, GoodUser, GoodFile, Upcase, FileHead, OneMore, StatusOf, StartsWith;
    StatusMeans(t, users, files, a, f);
    if !Covered(t, a, f) {
      var t' := AfterSubscribe(t, a, f, m, time);
      AddOne(Sft, t.sft, UserIs(a), SftEntry(f, m), |a| + |f| + 6, a, users);
      AddHeads(users, files, f, time);
      AddOne(Fst, t.fst, FileIs(f, false), FstEntry(a, m), |f| + |a| + 6, FileHead(f, time), files);
      AddLists(t, t', users, files, a, f, m);
      assert Listed(t, a, f, m) == 0 && ListedBack(t, a, f, m) == 0;
    }
  }

  lemma AddHeads(users: set<string>, files: set<string>, f: string, time: nat)
    requires Names(users, files) && f in files
    ensures Name(Fst, FileHead(f, time)) == f
  {
    GoodFileHead(f, time);
  }

  /** An unsubscription is done if the user has the file, or if it is from all files
      and he has any; afterwards he has it no more, or has none, in both tables, and
      nothing else changes. */
  lemma UnsubscribeDoes(t: Tables, users: set<string>, files: set<string>, a: string, f: string)
    requires Names(users, files) && Inv(t, users, files) && NoEmptyRows(t.sft) && a in users && f in files
    ensures Unsubscribable(t, a, f) <==> if f == ALL then HasAny(t, a) else Covered(t, a, f)
    ensures Except(t, AfterUnsubscribe(t, a, f), users, files, a, Taken(f), 0)
  {
    hide Count, Num, NewRows, GoodUser, GoodFile, StatusOf, Inv, Names, Fewer, AfterUnsubscribe;
    StatusMeans(t, users, files, a, f);
    assert IsStar(f) <==> f == ALL by {
      FileIsGood(users, files, f);
      StarIsAll(f);
    }
    StarCovers(t, users, files, a);
    if Unsubscribable(t, a, f) {
      UnsubscribeFewer(t, users, files, a, f);
      FewerIsExcept(t, AfterUnsubscribe(t, a, f), users, files, a, f);
    } else {
      NothingTaken(t, users, files, a, f);
    }
  }

  lemma FileIsGood(users: set<string>, files: set<string>, f: string)
    requires Names(users, files) && f in files
    ensures GoodFile(f)
  {
  }

  lemma StarCovers(t: Tables, users: set<string>, files: set<string>, a: string)
    ensures Covered(t, a, ALL) ==> HasAny(t, a)
  {
    hide Listed;
  }

  lemma FewerIsExcept(t: Tables, t': Tables, users: set<string>, files: set<string>, a: string, f: string)
    requires Fewer(t, t', users, files, a, f, f == ALL)
    ensures Except(t, t', users, files, a, Taken(f), 0)
  {
    hide Count, Num, Listed, ListedBack;
  }

  lemma NothingTaken(t: Tables, users: set<string>, files: set<string>, a: string, f: string)
    requires Inv(t, users, files) && !Unsubscribable(t, a, f) && a in users
    requires if f == ALL then !HasAny(t, a) else !Covered(t, a, f)
    ensures Except(t, AfterUnsubscribe(t, a, f), users, files, a, Taken(f), 0)
  {
    hide Count, Num, Listed, ListedBack, NothingElse, OneRowEach, Unsubscribable;
    forall b, g, m | b in users && g in files && GoodMode(m) && b == a && Taken(f)(g, m)
      ensures Listed(t, b, g, m) == 0 == ListedBack(t, b, g, m)
    {
    }
  }

  // ---------------------------------------------------------------- the lines

  /** An entry goes on the last line of its record if that stays within 80 characters
      with the name in front, else on a line of its own. */
  lemma AddedToLine(k: Kind, r: Rec, a: string, f: string, m: char)
    requires r.rests != [] && (k == Sft ==> r.rests[0] != "")
    ensures var act := if k == Sft then SftAction(a, f, m, AddFile) else FstAction(a, f, m, AddFile);
            var last := |Last(Body(k, r.rests))|;
            && |ChangedRec(k, r, act)| == 1 && ChangedRec(k, r, act)[0].head == r.head
            && var t := ChangedRec(k, r, act)[0].rests;
               if |a| + |f| + 6 + last <= 80
               then
                 && |t| == |r.rests| && Last(t) == Last(r.rests) + Shown(k, act.e)
                 && |Last(t)| + (if k == Sft then |a| else |f|) <= 80
               else |t| == |r.rests| + 1 && Last(t) == Shown(k, act.e)
  {
    hide Show;
    ShownLength(k, a, f, m);
    var act := if k == Sft then SftAction(a, f, m, AddFile) else FstAction(a, f, m, AddFile);
    var t := ChangedRec(k, r, act)[0].rests;
    BodyLast(k, r.rests);
  }

  lemma ShownLength(k: Kind, a: string, f: string, m: char)
    ensures |Shown(Sft, SftEntry(f, m))| == |f| + 5 && |Shown(Fst, FstEntry(a, m))| == |a| + 6
  {
  }

  lemma BodyLast(k: Kind, rests: seq<string>)
    requires rests != [] && (k == Sft ==> rests[0] != "")
    ensures |Last(rests)| <= |Last(Body(k, rests))| + 1
  {
  }

  // ---------------------------------------------------------------- over a run

  lemma {:induction false} UpdatedNoEmpty(k: Kind, rows: seq<Row>, hit: string -> bool, a: Action)
    requires NoEmptyRows(rows)
    ensures NoEmptyRows(UpdatedRows(k, rows, hit, a))
  {
    hide Name, Filter, Keeps;
    if rows != [] {
      UpdatedNoEmpty(k, rows[..|rows| - 1], hit, a);
    }
  }

  lemma NewNoEmpty(k: Kind, rows: seq<Row>, hit: string -> bool, a: Action, head: string)
    requires NoEmptyRows(rows)
    ensures NoEmptyRows(NewRows(k, rows, hit, a, head))
  {
    hide UpdatedRows, RowHits;
    UpdatedNoEmpty(k, rows, hit, a);
  }

  lemma {:induction false} RunNoEmpty(steps: seq<Step>)
    ensures NoEmptyRows(After(steps).sft)
  {
    hide NewRows, StatusOf, NoEmptyRows;
    if steps == [] {
      NoRowsNoEmpty();
    } else {
      var n := |steps| - 1;
      var t := After(steps[..n]);
      RunNoEmpty(steps[..n]);
      match steps[n]
      case Subscribe(a, f, m, _) => NewNoEmpty(Sft, t.sft, UserIs(a), SftAction(a, f, m, AddFile), a);
      case Unsubscribe(a, f) =>
        NewNoEmpty(Sft, t.sft, UserIs(a), SftAction(a, f, 'D', if IsStar(f) then DelUser else DelFile), a);
    }
  }

  lemma NoRowsNoEmpty()
    ensures NoEmptyRows([])
  {
  }

  /** So it goes with every request of every run. */
  lemma EveryStepDoes(users: set<string>, files: set<string>, steps: seq<Step>, s: Step)
    requires Names(users, files) && StepsFrom(users, files, steps) && From(users, files, s)
    ensures var t, t' := After(steps), After(steps + [s]);
            if s.Unsubscribe? then Except(t, t', users, files, s.address, Taken(s.file), 0)
            else if Covered(t, s.address, s.file) then t' == t
            else Except(t, t', users, files, s.address, Pair(s.file, s.mode), 1)
  {
    hide Names, Inv, Except, Covered, NoEmptyRows, AfterSubscribe, AfterUnsubscribe;
    AlwaysTransposed(users, files, steps);
    RunNoEmpty(steps);
    assert (steps + [s])[..|steps|] == steps;
    match s
    case Subscribe(a, f, m, time) => SubscribeDoes(After(steps), users, files, a, f, m, time);
    case Unsubscribe(a, f) => UnsubscribeDoes(After(steps), users, files, a, f);
  }
}
