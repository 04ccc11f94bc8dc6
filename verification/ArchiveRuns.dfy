/** Where a path leads after any run of calls of make_indexes, and when it leads to
    its own directory (lplib/misc.c, commands/archive.c, commands/get.c). */
module ArchiveRuns {
  import opened Text
  import opened AddressText
  import opened Numbers
  import opened ArchiveIndex
  import opened ArchiveLaws

  // ---------------------------------------------------------------- which directory has a name first

  datatype Call = Call(path: seq<string>, password: string, afd: bool)

  ghost predicate ValidCalls(root: string, calls: seq<Call>)
  {
    PlainWord(root) && forall i :: 0 <= i < |calls| ==> GoodPath(calls[i].path)
  }

  /** The first directory of a name on the path of a call, from number j on, and the
      mark and the password that the call gives it. */
  function NameFrom(root: string, c: Call, name: string, j: nat): Option<Found>
    decreases |c.path| + 1 - j
  {
    if j > |c.path| then None
    else if Locase(PartAt(c.path, j)) == name then
      Some(Found(DirAt(root, c.path, j), c.afd, if j == |c.path| then WordOf(c.password) else ""))
    else NameFrom(root, c, name, j + 1)
  }

  /** The first directory of that name at or below dir, if the path comes through dir
      at number i or later. */
  function NamedBy(root: string, c: Call, dir: string, name: string, i: nat): Option<Found>
    decreases |c.path| + 1 - i
  {
    if i > |c.path| then None
    else if DirAt(root, c.path, i) == dir && NameFrom(root, c, name, i).Some? then NameFrom(root, c, name, i)
    else NamedBy(root, c, dir, name, i + 1)
  }

  /** The same of the first call that has one; every path comes through the default
      archive. */
  function FirstNamed(root: string, calls: seq<Call>, dir: string, name: string): Option<Found>
  {
    if calls == [] then None
    else
      var was := FirstNamed(root, calls[..|calls| - 1], dir, name);
      if was.Some? then was else NamedBy(root, calls[|calls| - 1], dir, name, 0)
  }

  /** Where names lead, one after another. */
  function Leads(root: string, calls: seq<Call>, at: Found, names: seq<string>): Option<Found>
    decreases |names|
  {
    if names == [] then Some(at)
    else
      var next := FirstNamed(root, calls, at.path, names[0]);
      if next.None? then None else Leads(root, calls, next.value, names[1..])
  }

  /** Number k + 1 on the path is the first directory of its name at or below number k. */
  ghost predicate ComesFirst(root: string, calls: seq<Call>, cs: seq<string>, k: nat)
    requires k < |cs|
  {
    var f := FirstNamed(root, calls, DirAt(root, cs, k), Locase(cs[k]));
    f.Some? && f.value.path == DirAt(root, cs, k + 1)
  }

  ghost predicate AllFirst(root: string, calls: seq<Call>, cs: seq<string>)
  {
    forall k :: 0 <= k < |cs| ==> ComesFirst(root, calls, cs, k)
  }

  // ---------------------------------------------------------------- lines

  predicate GoodName(c: string) { PlainWord(c) && c[0] != MARK }

  /** What is read from a line that make_indexes writes. */
  lemma LineRead(dir: string, password: string, afd: bool)
    requires PlainWord(dir) && GoodName(BaseName(dir))
    ensures var l := LineFor(dir, password, afd);
            && PathOf(l) == dir && NameOf(l) == Locase(BaseName(dir))
            && FoundOn(l) == Found(dir, afd, WordOf(password))
  {
    hide WordLength, BaseName, Locase;
    var b := BaseName(dir);
    var n := (if afd then [MARK] else "") + b;
    var l := LineFor(dir, password, afd);
    var r2 := [BLANK] + password;
    var r1 := [BLANK] + dir + r2;
    assert l == n + r1;
    assert PlainWord(n);
    FirstField(n, r1);
    FirstField(dir, r2);
    assert [BLANK] + (dir + r2) == r1;
    FieldBehindBlank(dir + r2);
    FieldBehindBlank(password);
    MarkedName(b, afd);
  }

  lemma MarkedName(b: string, afd: bool)
    requires GoodName(b)
    ensures var n := (if afd then [MARK] else "") + b;
            PlainName(n) == Locase(b) && (n != "" && Locase(n)[0] == MARK <==> afd)
  {
    var n := (if afd then [MARK] else "") + b;
    assert Lower(b[0]) != MARK;
    if afd {
      assert Locase(n)[1..] == Locase(b);
    } else {
      assert n == b;
    }
  }

  // ---------------------------------------------------------------- the invariant

  /** A line has the name of its directory. */
  predicate Titled(l: string) { NameOf(l) == Locase(BaseName(PathOf(l))) }

  ghost predicate AllTitled(ls: seq<string>) { forall i :: 0 <= i < |ls| ==> Titled(ls[i]) }

  ghost predicate Inv(files: map<string, seq<string>>) { forall f :: f in files ==> AllTitled(files[f]) }

  /** Each INDEX on a path has the directories on it from its own on. */
  ghost predicate Covers(files: map<string, seq<string>>, root: string, cs: seq<string>)
  {
    forall i, j :: 0 <= i <= j <= |cs| ==>
      IndexFile(DirAt(root, cs, i)) in files && HasPath(files[IndexFile(DirAt(root, cs, i))], DirAt(root, cs, j))
  }

  /** No line is taken away or moved. */
  ghost predicate Grows(a: map<string, seq<string>>, b: map<string, seq<string>>)
  {
    forall f :: f in a ==> f in b && a[f] <= b[f]
  }

  // ---------------------------------------------------------------- one call

  ghost predicate CleanSlots(root: string, cs: seq<string>, ds: seq<Option<string>>)
  {
    |ds| == |cs| + 1 && forall i :: 0 <= i < |ds| ==> ds[i] == Some(DirAt(root, cs, i))
  }

  lemma {:induction false} PathPlain(cs: seq<string>)
    requires GoodPath(cs)
    ensures PlainWord(PathText(cs))
  {
    var n := |cs| - 1;
    assert GoodPart(cs[n]);
    if n > 0 {
      PathPlain(cs[..n]);
    }
  }

  lemma DirPlain(root: string, cs: seq<string>, k: nat)
    requires PlainWord(root) && GoodPath(cs) && k <= |cs|
    ensures PlainWord(DirAt(root, cs, k)) && GoodName(BaseName(DirAt(root, cs, k)))
  {
    hide PathText, PlainWord, BaseName;
    DirName(root, cs, k);
    DefaultPlain();
    if k > 0 {
      assert GoodPart(cs[k - 1]);
      PathPlain(cs[..k]);
    }
    PlainJoin(root, if k == 0 then DEFAULT_ARCHIVE else PathText(cs[..k]));
  }

  lemma DefaultPlain()
    ensures GoodName(DEFAULT_ARCHIVE)
  {
  }

  lemma PlainJoin(a: string, b: string)
    requires PlainWord(a) && PlainWord(b)
    ensures PlainWord(a + [SEP] + b)
  {
  }

  /** What make_indexes writes for a directory of the path. */
  lemma NewLine(root: string, c: Call, j: nat)
    requires PlainWord(root) && GoodPath(c.path) && j <= |c.path|
    ensures var pw := if j == |c.path| then c.password else ""; var l := LineFor(DirAt(root, c.path, j), pw, c.afd);
            && PathOf(l) == DirAt(root, c.path, j) && Titled(l) && NameOf(l) == Locase(PartAt(c.path, j))
            && FoundOn(l) == Found(DirAt(root, c.path, j), c.afd, if j == |c.path| then WordOf(c.password) else "")
  {
    hide GoodPart, PathText, Locase, NameOf, PathOf, LineFor, FoundOn, DirAt, PartAt;
    var pw := if j == |c.path| then c.password else "";
    DirPlain(root, c.path, j);
    DirName(root, c.path, j);
    LineRead(DirAt(root, c.path, j), pw, c.afd);
    assert WordOf("") == "";
  }

  lemma HasPathAppend(a: seq<string>, b: seq<string>, path: string)
    ensures HasPath(a + b, path) <==> HasPath(a, path) || HasPath(b, path)
  {
    hide PathOf;
    if HasPath(a, path) {
      var i :| 0 <= i < |a| && PathOf(a[i]) == path;
      assert (a + b)[i] == a[i];
    }
    if HasPath(b, path) {
      var i :| 0 <= i < |b| && PathOf(b[i]) == path;
      assert (a + b)[|a| + i] == b[i];
    }
  }

  lemma OneLineHas(l: string)
    ensures HasPath([l], PathOf(l))
  {
    hide PathOf;
    assert PathOf([l][0]) == PathOf(l);
  }

  // ---------------------------------------------------------------- the first line of a name

  function FirstOf(ls: seq<string>, name: string): Option<Found>
  {
    var i := FindName(ls, name);
    if i == |ls| then None else Some(FoundOn(ls[i]))
  }

  lemma {:induction false} FirstOfCons(l: string, ls: seq<string>, name: string)
    ensures FirstOf([], name) == None
    ensures FirstOf([l] + ls, name) == if NameOf(l) == name then Some(FoundOn(l)) else FirstOf(ls, name)
  {
    hide NameOf, FoundOn;
    assert ([l] + ls)[1..] == ls;
  }

  lemma {:induction false} FirstOfAppend(a: seq<string>, b: seq<string>, name: string)
    ensures FirstOf(a + b, name) == if FirstOf(a, name).Some? then FirstOf(a, name) else FirstOf(b, name)
  {
    hide NameOf, FoundOn, FirstOf;
    if a == [] {
      FirstOfCons("", b, name);
      assert a + b == b;
    } else {
      FirstOfAppend(a[1..], b, name);
      FirstOfCons(a[0], a[1..], name);
      FirstOfCons(a[0], a[1..] + b, name);
      assert [a[0]] + a[1..] == a && [a[0]] + (a[1..] + b) == a + b;
    }
  }

  /** A directory that is listed can be found by its name. */
  lemma ListedIsNamed(ls: seq<string>, dir: string)
    requires AllTitled(ls) && HasPath(ls, dir)
    ensures FirstOf(ls, Locase(BaseName(dir))).Some?
  {
    hide NameOf, PathOf, FoundOn, Locase, BaseName, FindName;
    var i :| 0 <= i < |ls| && PathOf(ls[i]) == dir;
    assert Titled(ls[i]);
  }

  lemma NameFromStep(root: string, c: Call, name: string, j: nat)
    requires j <= |c.path|
    ensures NameFrom(root, c, name, j) ==
            if Locase(PartAt(c.path, j)) == name
            then Some(Found(DirAt(root, c.path, j), c.afd, if j == |c.path| then WordOf(c.password) else ""))
            else NameFrom(root, c, name, j + 1)
    ensures NameFrom(root, c, name, |c.path| + 1) == None
  {
    hide DirAt, PartAt, Locase;
  }

  /** The lines added to an INDEX that has no line of a name. */
  lemma {:induction false} MissingFirst(ls: seq<string>, root: string, c: Call, ds: seq<Option<string>>, j: nat,
                                        name: string)
    requires PlainWord(root) && GoodPath(c.path) && CleanSlots(root, c.path, ds) && j <= |ds| && AllTitled(ls)
    ensures var added := Missing(ls, ds, j, c.password, c.afd);
            AllTitled(added) && (FirstOf(ls, name).None? ==> FirstOf(added, name) == NameFrom(root, c, name, j))
    decreases |ds| - j
  {
    hide GoodPart, GoodPath, PlainWord, DirAt, HasPath, LineFor, PathOf, NameOf, FoundOn, Missing, Titled, FirstOf,
         NameFrom, Locase, BaseName, PartAt;
    if j == |ds| {
      MissingEnd(ls, ds, c.password, c.afd);
      NameFromStep(root, c, name, 0);
      FirstOfCons("", [], name);
    } else {
      var rest := Missing(ls, ds, j + 1, c.password, c.afd);
      MissingFirst(ls, root, c, ds, j + 1, name);
      MissingStep(ls, ds, j, c.password, c.afd);
      NameFromStep(root, c, name, j);
      NewLine(root, c, j);
      var dir := DirAt(root, c.path, j);
      assert ds[j] == Some(dir);
      if HasPath(ls, dir) {
        ListedIsNamed(ls, dir);
        DirName(root, c.path, j);
        assert [] + rest == rest;
      } else {
        FirstOfCons(LineFor(dir, if j == |ds| - 1 then c.password else "", c.afd), rest, name);
      }
    }
  }

  function FirstIn(files: map<string, seq<string>>, dir: string, name: string): Option<Found>
  {
    FirstOf(LinesIn(files, IndexFile(dir)), name)
  }

  lemma IndexFiles(a: string, b: string)
    ensures IndexFile(a) == a + "/INDEX" && (IndexFile(a) == IndexFile(b) <==> a == b)
  {
    if IndexFile(a) == IndexFile(b) {
      assert |a| == |b|;
      assert IndexFile(a)[..|a|] == a && IndexFile(b)[..|b|] == b;
    }
  }

  lemma NamedByStep(root: string, c: Call, dir: string, name: string, i: nat)
    requires i <= |c.path|
    ensures NamedBy(root, c, dir, name, i) ==
            if DirAt(root, c.path, i) == dir && NameFrom(root, c, name, i).Some? then NameFrom(root, c, name, i)
            else NamedBy(root, c, dir, name, i + 1)
    ensures NamedBy(root, c, dir, name, |c.path| + 1) == None
  {
    hide DirAt, NameFrom;
  }

  /** One INDEX brought up to date. */
  lemma IndexOneFirst(files: map<string, seq<string>>, root: string, c: Call, ds: seq<Option<string>>, i: nat,
                      dir: string, name: string) returns (next: map<string, seq<string>>)
    requires PlainWord(root) && GoodPath(c.path) && CleanSlots(root, c.path, ds) && i < |ds| && Inv(files)
    ensures Indexed(files, ds, i, c.password, c.afd) == Indexed(next, ds, i + 1, c.password, c.afd) && Inv(next)
    ensures FirstIn(next, dir, name) ==
            if FirstIn(files, dir, name).None? && DirAt(root, c.path, i) == dir then NameFrom(root, c, name, i)
            else FirstIn(files, dir, name)
  {
    hide GoodPart, GoodPath, PlainWord, DirAt, HasPath, Missing, NameFrom, FirstOf, IndexFile, Titled;
    var here := DirAt(root, c.path, i);
    assert ds[i] == Some(here);
    var file := IndexFile(here);
    var ls := LinesIn(files, file);
    var added := Missing(ls, ds, i, c.password, c.afd);
    next := files[file := ls + added];
    MissingFirst(ls, root, c, ds, i, name);
    FirstOfAppend(ls, added, name);
    IndexFiles(here, dir);
  }

  lemma {:induction false} IndexedFirst(files: map<string, seq<string>>, root: string, c: Call,
                                        ds: seq<Option<string>>, i: nat,
                                        dir: string, name: string)
    requires PlainWord(root) && GoodPath(c.path) && CleanSlots(root, c.path, ds) && i <= |ds| && Inv(files)
    ensures var files' := Indexed(files, ds, i, c.password, c.afd);
            && Inv(files')
            && FirstIn(files', dir, name) ==
               if FirstIn(files, dir, name).Some? then FirstIn(files, dir, name) else NamedBy(root, c, dir, name, i)
    decreases |ds| - i
  {
    hide GoodPart, GoodPath, PlainWord, DirAt, NameFrom, NamedBy, FirstIn, Inv, IndexFile, Missing;
    if i < |ds| {
      var next := IndexOneFirst(files, root, c, ds, i, dir, name);
      IndexedFirst(next, root, c, ds, i + 1, dir, name);
      NamedByStep(root, c, dir, name, i);
    } else {
      NamedByStep(root, c, dir, name, 0);
    }
  }

  /** A call gives a name in an INDEX to the first directory on its path that has it,
      unless the INDEX had the name before. */
  lemma MakeNames(files: map<string, seq<string>>, root: string, c: Call, dir: string, name: string)
    requires PlainWord(root) && GoodPath(c.path) && Inv(files)
    ensures var files' := AfterMake(files, root, PathText(c.path), c.password, c.afd);
            && Inv(files')
            && FirstIn(files', dir, name) ==
               if FirstIn(files, dir, name).Some? then FirstIn(files, dir, name) else NamedBy(root, c, dir, name, 0)
  {
    hide GoodPart, GoodPath, PlainWord, DirAt, NamedBy, FirstIn, Inv, PathText, DirsOf, Indexed;
    CleanDirs(root, c.path);
    IndexedFirst(files, root, c, DirsOf(root, PathText(c.path)), 0, dir, name);
  }

  // ---------------------------------------------------------------- every INDEX on the path

  lemma GrowsTrans(a: map<string, seq<string>>, b: map<string, seq<string>>, c: map<string, seq<string>>)
    requires Grows(a, b) && Grows(b, c)
    ensures Grows(a, c)
  {
  }

  lemma {:induction false} IndexedGrows(files: map<string, seq<string>>, ds: seq<Option<string>>, i: nat,
                                        password: string, afd: bool)
    requires i <= |ds|
    ensures Grows(files, Indexed(files, ds, i, password, afd))
    decreases |ds| - i
  {
    hide Missing, IndexFile;
    if i < |ds| {
      if ds[i].None? {
        IndexedGrows(files, ds, i + 1, password, afd);
      } else {
        var file := IndexFile(ds[i].value);
        var ls := LinesIn(files, file);
        var next := files[file := ls + Missing(ls, ds, i, password, afd)];
        IndexedGrows(next, ds, i + 1, password, afd);
        assert Grows(files, next);
        GrowsTrans(files, next, Indexed(next, ds, i + 1, password, afd));
      }
    }
  }

  /** The INDEX of directory i has the directories from i on. */
  ghost predicate CoversAt(files: map<string, seq<string>>, root: string, cs: seq<string>, i: nat)
    requires i <= |cs|
  {
    && IndexFile(DirAt(root, cs, i)) in files
    && forall j :: i <= j <= |cs| ==> HasPath(files[IndexFile(DirAt(root, cs, i))], DirAt(root, cs, j))
  }

  lemma CoversAtGrows(a: map<string, seq<string>>, b: map<string, seq<string>>, root: string, cs: seq<string>, i: nat)
    requires Grows(a, b) && i <= |cs| && CoversAt(a, root, cs, i)
    ensures CoversAt(b, root, cs, i)
  {
    hide DirAt, IndexFile, HasPath;
    var f := IndexFile(DirAt(root, cs, i));
    assert b[f] == a[f] + b[f][|a[f]|..];
    forall j | i <= j <= |cs| ensures HasPath(b[f], DirAt(root, cs, j)) {
      HasPathAppend(a[f], b[f][|a[f]|..], DirAt(root, cs, j));
    }
  }

  lemma {:induction false} MissingCovers(ls: seq<string>, root: string, c: Call, ds: seq<Option<string>>, j: nat)
    requires PlainWord(root) && GoodPath(c.path) && CleanSlots(root, c.path, ds) && j <= |ds|
    ensures var added := Missing(ls, ds, j, c.password, c.afd);
            forall k :: j <= k < |ds| ==> HasPath(ls, DirAt(root, c.path, k)) || HasPath(added, DirAt(root, c.path, k))
    decreases |ds| - j
  {
    hide GoodPart, PlainWord, DirAt, HasPath, LineFor, PathOf, NameOf, FoundOn, Titled, Missing;
    if j < |ds| {
      MissingCovers(ls, root, c, ds, j + 1);
      var rest := Missing(ls, ds, j + 1, c.password, c.afd);
      NewLine(root, c, j);
      MissingStep(ls, ds, j, c.password, c.afd);
      var l := LineFor(DirAt(root, c.path, j), if j == |ds| - 1 then c.password else "", c.afd);
      OneLineHas(l);
      assert [] + rest == rest;
      forall k | j <= k < |ds|
        ensures HasPath(ls, DirAt(root, c.path, k)) ||
                HasPath(Missing(ls, ds, j, c.password, c.afd), DirAt(root, c.path, k))
      {
        HasPathAppend([l], rest, DirAt(root, c.path, k));
      }
    }
  }

  lemma IndexOneCovers(files: map<string, seq<string>>, root: string, c: Call, ds: seq<Option<string>>, i: nat)
      returns (next: map<string, seq<string>>)
    requires PlainWord(root) && GoodPath(c.path) && CleanSlots(root, c.path, ds) && i < |ds|
    ensures Indexed(files, ds, i, c.password, c.afd) == Indexed(next, ds, i + 1, c.password, c.afd)
    ensures CoversAt(next, root, c.path, i)
  {
    hide GoodPart, PlainWord, DirAt, HasPath, Missing, IndexFile;
    var file := IndexFile(DirAt(root, c.path, i));
    var ls := LinesIn(files, file);
    var added := Missing(ls, ds, i, c.password, c.afd);
    next := files[file := ls + added];
    MissingCovers(ls, root, c, ds, i);
    forall j | i <= j <= |c.path| ensures HasPath(ls + added, DirAt(root, c.path, j)) {
      HasPathAppend(ls, added, DirAt(root, c.path, j));
    }
  }

  lemma {:induction false} IndexedCovers(files: map<string, seq<string>>, root: string, c: Call,
                                         ds: seq<Option<string>>, i: nat)
    requires PlainWord(root) && GoodPath(c.path) && CleanSlots(root, c.path, ds) && i <= |ds|
    ensures var files' := Indexed(files, ds, i, c.password, c.afd);
            forall k :: i <= k <= |c.path| ==> CoversAt(files', root, c.path, k)
    decreases |ds| - i
  {
    hide GoodPart, PlainWord, DirAt, HasPath, Missing, IndexFile, CoversAt, Grows;
    if i < |ds| {
      var next := IndexOneCovers(files, root, c, ds, i);
      IndexedCovers(next, root, c, ds, i + 1);
      IndexedGrows(next, ds, i + 1, c.password, c.afd);
      CoversAtGrows(next, Indexed(next, ds, i + 1, c.password, c.afd), root, c.path, i);
    }
  }

  /** A call takes no line away, and brings all INDEX files on its path up to date. */
  lemma MakeCovers(files: map<string, seq<string>>, root: string, c: Call)
    requires PlainWord(root) && GoodPath(c.path)
    ensures var files' := AfterMake(files, root, PathText(c.path), c.password, c.afd);
            Covers(files', root, c.path) && Grows(files, files')
  {
    hide GoodPart, PlainWord, DirAt, HasPath, IndexFile, PathText, DirsOf, Indexed, Grows;
    var cs, ds := c.path, DirsOf(root, PathText(c.path));
    CleanDirs(root, cs);
    IndexedCovers(files, root, c, ds, 0);
    IndexedGrows(files, ds, 0, c.password, c.afd);
    var files' := AfterMake(files, root, PathText(cs), c.password, c.afd);
    forall i, j | 0 <= i <= j <= |cs|
      ensures IndexFile(DirAt(root, cs, i)) in files' &&
              HasPath(files'[IndexFile(DirAt(root, cs, i))], DirAt(root, cs, j))
    {
      assert CoversAt(files', root, cs, i);
    }
  }

  lemma {:induction false} CoveredIsIndexed(files: map<string, seq<string>>, root: string, cs: seq<string>,
                                            ds: seq<Option<string>>, i: nat,
                                            password: string, afd: bool)
    requires Covers(files, root, cs) && CleanSlots(root, cs, ds) && i <= |ds|
    ensures Indexed(files, ds, i, password, afd) == files
    decreases |ds| - i
  {
    hide DirAt, HasPath, IndexFile, Missing;
    if i < |ds| {
      CoveredIsIndexed(files, root, cs, ds, i + 1, password, afd);
      var file := IndexFile(DirAt(root, cs, i));
      forall k | i <= k < |ds| && ds[k].Some? ensures HasPath(files[file], ds[k].value) {
      }
      NothingMissing(files[file], ds, i, password, afd);
      assert files[file] + [] == files[file];
      assert files[file := files[file]] == files;
    }
  }

  /** Repeating a call adds no line. */
  lemma RepeatAddsNothing(files: map<string, seq<string>>, root: string, cs: seq<string>, password: string, afd: bool)
    requires GoodPath(cs) && Covers(files, root, cs)
    ensures AfterMake(files, root, PathText(cs), password, afd) == files
  {
    hide GoodPart, DirAt, HasPath, IndexFile, PathText, DirsOf, Indexed, Covers;
    CleanDirs(root, cs);
    CoveredIsIndexed(files, root, cs, DirsOf(root, PathText(cs)), 0, password, afd);
  }

  // ---------------------------------------------------------------- runs

  function After(root: string, calls: seq<Call>): map<string, seq<string>>
    requires forall i :: 0 <= i < |calls| ==> GoodPath(calls[i].path)
  {
    if calls == [] then map[]
    else
      var c := calls[|calls| - 1];
      assert GoodPath(c.path);
      AfterMake(After(root, calls[..|calls| - 1]), root, PathText(c.path), c.password, c.afd)
  }

  /** In every INDEX a name stands for the directory that had it first. */
  lemma {:induction false} RunNames(root: string, calls: seq<Call>, dir: string, name: string)
    requires ValidCalls(root, calls)
    ensures Inv(After(root, calls)) && FirstIn(After(root, calls), dir, name) == FirstNamed(root, calls, dir, name)
  {
    hide GoodPath, PlainWord, AfterMake, NamedBy, IndexFile, PathText;
    if calls != [] {
      var n := |calls| - 1;
      RunNames(root, calls[..n], dir, name);
      MakeNames(After(root, calls[..n]), root, calls[n], dir, name);
    }
  }

  lemma CoversGrows(a: map<string, seq<string>>, b: map<string, seq<string>>, root: string, cs: seq<string>)
    requires Grows(a, b) && Covers(a, root, cs)
    ensures Covers(b, root, cs)
  {
    hide DirAt, IndexFile, HasPath;
    forall i, j | 0 <= i <= j <= |cs|
      ensures IndexFile(DirAt(root, cs, i)) in b && HasPath(b[IndexFile(DirAt(root, cs, i))], DirAt(root, cs, j))
    {
      var f := IndexFile(DirAt(root, cs, i));
      assert b[f] == a[f] + b[f][|a[f]|..];
      HasPathAppend(a[f], b[f][|a[f]|..], DirAt(root, cs, j));
    }
  }

  lemma {:induction false} RunCovers(root: string, calls: seq<Call>, i: nat)
    requires ValidCalls(root, calls) && i < |calls|
    ensures Covers(After(root, calls), root, calls[i].path)
  {
    hide GoodPath, Covers, AfterMake, PlainWord, Grows;
    var n := |calls| - 1;
    MakeCovers(After(root, calls[..n]), root, calls[n]);
    if i < n {
      RunCovers(root, calls[..n], i);
      CoversGrows(After(root, calls[..n]), After(root, calls), root, calls[i].path);
    }
  }

  // ---------------------------------------------------------------- walking

  lemma {:induction false} LocasePath(cs: seq<string>)
    requires cs != []
    ensures var ls := seq(|cs|, i requires 0 <= i < |cs| => Locase(cs[i]));
            ls != [] && Locase(PathText(cs)) == PathText(ls)
  {
    var n := |cs| - 1;
    var ls := seq(|cs|, i requires 0 <= i < |cs| => Locase(cs[i]));
    if n > 0 {
      LocasePath(cs[..n]);
      assert ls[..n] == seq(n, i requires 0 <= i < n => Locase(cs[..n][i]));
      LocaseConcat(PathText(cs[..n]) + [SEP], cs[n]);
      LocaseConcat(PathText(cs[..n]), [SEP]);
      assert Locase([SEP]) == [SEP];
    }
  }

  lemma LocaseConcat(a: string, b: string)
    ensures Locase(a + b) == Locase(a) + Locase(b)
  {
  }

  /** The names a user writes for a path, in lower case. */
  function Lowered(cs: seq<string>): (ls: seq<string>)
    ensures |ls| == |cs| && forall i :: 0 <= i < |ls| ==> ls[i] == Locase(cs[i])
  {
    seq(|cs|, i requires 0 <= i < |cs| => Locase(cs[i]))
  }

  lemma LoweredGood(cs: seq<string>)
    requires GoodPath(cs)
    ensures GoodPath(Lowered(cs))
  {
    forall i | 0 <= i < |cs| ensures GoodPart(Locase(cs[i])) {
      LoweredPart(cs[i]);
    }
  }

  lemma LoweredPart(c: string)
    requires GoodPart(c)
    ensures GoodPart(Locase(c))
  {
    forall i | 0 <= i < |c| ensures !IsSpace(Locase(c)[i]) && Locase(c)[i] != EOS && Locase(c)[i] != SEP {
      assert Locase(c)[i] == Lower(c[i]);
      assert c[i] != SEP;
    }
    assert Lower(c[0]) != MARK;
  }

  /** What the walk takes off the path next. */
  lemma FirstOff(ls: seq<string>, k: nat)
    requires GoodPath(ls) && k < |ls|
    ensures var a := PathText(ls[k..]);
            && a != "" && FirstPart(a) == ls[k]
            && NextPart(a) == (if k + 1 == |ls| then "" else PathText(ls[k + 1..]))
            && (k + 1 < |ls| ==> FirstPart(NextPart(a)) != "")
  {
    hide PathText;
    CleanPart(ls, k);
    if k + 1 < |ls| {
      CleanPart(ls, k + 1);
      assert GoodPart(ls[k + 1]);
    }
  }

  /** One step of the walk. */
  lemma WalkStep(files: map<string, seq<string>>, dir: string, a: string, at: Found)
    requires a != ""
    ensures var f := FirstIn(files, dir, FirstPart(a)); var rest := NextPart(a);
            WalkFrom(files, IndexFile(dir), a, at) ==
            if f.None? then None
            else WalkFrom(files, if FirstPart(rest) != "" then IndexFile(f.value.path) else f.value.path, rest, f.value)
  {
    hide FindName, FoundOn, FirstPart, NextPart, IndexFile;
    EmptyNamesNothing(FirstPart(a));
  }

  lemma EmptyNamesNothing(name: string)
    ensures FindName([], name) == 0
  {
  }

  lemma WalkEnd(files: map<string, seq<string>>, file: string, at: Found)
    ensures WalkFrom(files, file, "", at) == Some(at)
  {
  }

  lemma {:induction false} WalkOn(root: string, calls: seq<Call>, names: seq<string>, k: nat, at: Found, was: Found)
    requires ValidCalls(root, calls) && GoodPath(names) && k < |names|
    ensures WalkFrom(After(root, calls), IndexFile(at.path), PathText(names[k..]), was) ==
            Leads(root, calls, at, names[k..])
    decreases |names| - k
  {
    hide GoodPart, GoodPath, PlainWord, IndexFile, PathText, FirstPart, NextPart, WalkFrom, FirstNamed, FirstIn, After;
    var files := After(root, calls);
    FirstOff(names, k);
    WalkStep(files, at.path, PathText(names[k..]), was);
    RunNames(root, calls, at.path, names[k]);
    var next := FirstNamed(root, calls, at.path, names[k]);
    assert names[k..][1..] == names[k + 1..];
    if next.Some? {
      if k + 1 < |names| {
        WalkOn(root, calls, names, k + 1, next.value, next.value);
      } else {
        EmptyPart();
        WalkEnd(files, next.value.path, next.value);
      }
    }
  }

  lemma EmptyPart()
    ensures FirstPart("") == ""
  {
  }

  function Start(root: string): Found { Found(root + [SEP] + DEFAULT_ARCHIVE, false, "") }

  /** After any run of calls, a path leads where its names lead one after another, each
      to the directory that had the name first; mark and password are those of the
      call that made it first. */
  lemma WalkIsFirst(root: string, calls: seq<Call>, names: seq<string>)
    requires ValidCalls(root, calls) && GoodPath(names)
    ensures Walk(After(root, calls), root, PathText(names)) == Leads(root, calls, Start(root), names)
  {
    hide GoodPart, PlainWord, IndexFile, PathText, WalkFrom, Leads, After;
    assert names[0..] == names;
    WalkOn(root, calls, names, 0, Start(root), Found("", false, ""));
  }

  // ---------------------------------------------------------------- when a path resolves

  /** The path and its ancestors lead to their directories. */
  ghost predicate Resolves(root: string, calls: seq<Call>, cs: seq<string>)
    requires ValidCalls(root, calls)
  {
    forall n :: 0 < n <= |cs| ==>
      ResolvesTo(Walk(After(root, calls), root, Locase(PathText(cs[..n]))), DirAt(root, cs, n))
  }

  predicate ResolvesTo(r: Option<Found>, dir: string) { r.Some? && r.value.path == dir }

  lemma {:induction false} LeadsSnoc(root: string, calls: seq<Call>, at: Found, names: seq<string>, name: string)
    ensures var f := Leads(root, calls, at, names);
            Leads(root, calls, at, names + [name]) ==
            if f.None? then None else FirstNamed(root, calls, f.value.path, name)
    decreases |names|
  {
    hide FirstNamed;
    if names == [] {
      assert names + [name] == [name] && [name][1..] == [];
    } else {
      assert (names + [name])[1..] == names[1..] + [name];
      var next := FirstNamed(root, calls, at.path, names[0]);
      if next.Some? {
        LeadsSnoc(root, calls, next.value, names[1..], name);
      }
    }
  }

  /** The walk of an ancestor is a walk of lower-case names. */
  lemma AncestorWalk(root: string, calls: seq<Call>, cs: seq<string>, n: nat)
    requires ValidCalls(root, calls) && GoodPath(cs) && 0 < n <= |cs|
    ensures Walk(After(root, calls), root, Locase(PathText(cs[..n]))) ==
            Leads(root, calls, Start(root), Lowered(cs)[..n])
  {
    hide GoodPart, ValidCalls, PathText, Locase, Walk, Leads, After;
    LocasePath(cs[..n]);
    LoweredGood(cs);
    assert Lowered(cs)[..n] == seq(n, i requires 0 <= i < n => Locase(cs[..n][i]));
    WalkIsFirst(root, calls, Lowered(cs)[..n]);
  }

  lemma {:induction false} FirstLeads(root: string, calls: seq<Call>, cs: seq<string>, n: nat)
    requires n <= |cs| && forall k :: 0 <= k < n ==> ComesFirst(root, calls, cs, k)
    ensures ResolvesTo(Leads(root, calls, Start(root), Lowered(cs)[..n]), DirAt(root, cs, n))
  {
    hide FirstNamed, PathText, Locase;
    if n > 0 {
      FirstLeads(root, calls, cs, n - 1);
      assert Lowered(cs)[..n] == Lowered(cs)[..n - 1] + [Locase(cs[n - 1])];
      LeadsSnoc(root, calls, Start(root), Lowered(cs)[..n - 1], Locase(cs[n - 1]));
      assert ComesFirst(root, calls, cs, n - 1);
    }
  }

  /** After any run of calls, a path and its ancestors lead to their directories if
      and only if each of them is the first of its name at or below the one above. */
  lemma ResolvesIff(root: string, calls: seq<Call>, cs: seq<string>)
    requires ValidCalls(root, calls) && GoodPath(cs)
    ensures Resolves(root, calls, cs) <==> AllFirst(root, calls, cs)
  {
    hide GoodPath, PlainWord, Walk, Leads, After, FirstNamed, PathText, Locase, DirAt;
    if AllFirst(root, calls, cs) {
      forall n | 0 < n <= |cs|
        ensures ResolvesTo(Walk(After(root, calls), root, Locase(PathText(cs[..n]))), DirAt(root, cs, n))
      {
        FirstLeads(root, calls, cs, n);
        AncestorWalk(root, calls, cs, n);
      }
    }
    if Resolves(root, calls, cs) {
      forall k | 0 <= k < |cs| ensures ComesFirst(root, calls, cs, k) {
        ResolvedIsFirst(root, calls, cs, k);
      }
    }
  }

  lemma ResolvedIsFirst(root: string, calls: seq<Call>, cs: seq<string>, k: nat)
    requires ValidCalls(root, calls) && GoodPath(cs) && k < |cs| && Resolves(root, calls, cs)
    ensures ComesFirst(root, calls, cs, k)
  {
    hide GoodPath, PlainWord, Walk, After, FirstNamed, PathText, Locase;
    var low := Lowered(cs);
    assert low[..k + 1] == low[..k] + [Locase(cs[k])];
    LeadsSnoc(root, calls, Start(root), low[..k], Locase(cs[k]));
    AncestorWalk(root, calls, cs, k + 1);
    assert ResolvesTo(Walk(After(root, calls), root, Locase(PathText(cs[..k + 1]))), DirAt(root, cs, k + 1));
    if k > 0 {
      AncestorWalk(root, calls, cs, k);
      assert ResolvesTo(Walk(After(root, calls), root, Locase(PathText(cs[..k]))), DirAt(root, cs, k));
    } else {
      assert low[..0] == [];
    }
  }

  // ---------------------------------------------------------------- over a run

  lemma {:induction false} FirstStays(root: string, calls: seq<Call>, n: nat, dir: string, name: string)
    requires n <= |calls| && FirstNamed(root, calls[..n], dir, name).Some?
    ensures FirstNamed(root, calls, dir, name) == FirstNamed(root, calls[..n], dir, name)
  {
    hide NamedBy;
    var m := |calls| - 1;
    if n <= m {
      assert calls[..m][..n] == calls[..n];
      FirstStays(root, calls[..m], n, dir, name);
    } else {
      assert calls[..n] == calls;
    }
  }

  lemma {:induction false} PartIsNamed(root: string, c: Call, j: nat, k: nat)
    requires j <= k <= |c.path|
    ensures NameFrom(root, c, Locase(PartAt(c.path, k)), j).Some?
    decreases k - j
  {
    hide DirAt, PartAt, Locase;
    if j < k {
      PartIsNamed(root, c, j + 1, k);
    }
  }

  lemma {:induction false} PathIsNamed(root: string, c: Call, i: nat, k: nat)
    requires i <= k < |c.path|
    ensures NamedBy(root, c, DirAt(root, c.path, k), Locase(c.path[k]), i).Some?
    decreases k - i
  {
    hide DirAt, NameFrom, Locase;
    if i < k {
      PathIsNamed(root, c, i + 1, k);
    } else {
      PartIsNamed(root, c, k, k + 1);
    }
  }

  /** After a call each name on its path stands for some directory, */
  lemma CallNames(root: string, calls: seq<Call>, i: nat, k: nat)
    requires i < |calls| && k < |calls[i].path|
    ensures FirstNamed(root, calls[..i + 1], DirAt(root, calls[i].path, k), Locase(calls[i].path[k])).Some?
  {
    hide DirAt, NamedBy, Locase;
    assert calls[..i + 1][..i] == calls[..i] && calls[..i + 1][i] == calls[i];
    PathIsNamed(root, calls[i], 0, k);
  }

  /** and for that one from then on: whether the path of a call resolves is settled
      when the call is made, and no later call breaks it or repairs it. */
  lemma FirstMadeWins(root: string, calls: seq<Call>, i: nat)
    requires ValidCalls(root, calls) && i < |calls|
    ensures ValidCalls(root, calls[..i + 1])
    ensures Resolves(root, calls, calls[i].path) <==> Resolves(root, calls[..i + 1], calls[i].path)
  {
    hide Resolves, AllFirst, GoodPath, PlainWord;
    var cs := calls[i].path;
    ResolvesIff(root, calls, cs);
    ResolvesIff(root, calls[..i + 1], cs);
    FirstThroughout(root, calls, calls[..i + 1], i);
  }

  lemma FirstThroughout(root: string, calls: seq<Call>, early: seq<Call>, i: nat)
    requires i < |calls| && early == calls[..i + 1]
    ensures AllFirst(root, calls, calls[i].path) <==> AllFirst(root, early, calls[i].path)
  {
    hide FirstNamed, Locase, DirAt;
    var cs := calls[i].path;
    forall k | 0 <= k < |cs| ensures ComesFirst(root, calls, cs, k) <==> ComesFirst(root, early, cs, k) {
      CallNames(root, calls, i, k);
      FirstStays(root, calls, i + 1, DirAt(root, cs, k), Locase(cs[k]));
    }
  }

  /** Repeating a call of the run changes no file. */
  lemma CallsNeedNoRepeat(root: string, calls: seq<Call>, i: nat)
    requires ValidCalls(root, calls) && i < |calls|
    ensures AfterMake(After(root, calls), root, PathText(calls[i].path), calls[i].password, calls[i].afd) ==
            After(root, calls)
  {
    hide GoodPath, PlainWord, Covers, AfterMake, PathText, After;
    RunCovers(root, calls, i);
    RepeatAddsNothing(After(root, calls), root, calls[i].path, calls[i].password, calls[i].afd);
  }

  // ---------------------------------------------------------------- distinct names

  /** The names of the directories on a path lead there. */
  ghost predicate Agrees(home: map<string, string>, root: string, cs: seq<string>)
  {
    forall k :: 0 <= k <= |cs| ==> Locase(PartAt(cs, k)) in home && home[Locase(PartAt(cs, k))] == DirAt(root, cs, k)
  }

  ghost predicate AllAgree(home: map<string, string>, root: string, calls: seq<Call>)
  {
    forall i :: 0 <= i < |calls| ==> Agrees(home, root, calls[i].path)
  }

  lemma {:induction false} NameFromHome(home: map<string, string>, root: string, c: Call, name: string, j: nat)
    requires Agrees(home, root, c.path) && NameFrom(root, c, name, j).Some?
    ensures name in home && NameFrom(root, c, name, j).value.path == home[name]
    decreases |c.path| + 1 - j
  {
    hide DirAt, PartAt, Locase;
    if Locase(PartAt(c.path, j)) != name {
      NameFromHome(home, root, c, name, j + 1);
    }
  }

  lemma {:induction false} NamedByHome(home: map<string, string>, root: string, c: Call, dir: string, name: string,
                                       i: nat)
    requires Agrees(home, root, c.path) && NamedBy(root, c, dir, name, i).Some?
    ensures name in home && NamedBy(root, c, dir, name, i).value.path == home[name]
    decreases |c.path| + 1 - i
  {
    hide DirAt, NameFrom, Agrees;
    if DirAt(root, c.path, i) == dir && NameFrom(root, c, name, i).Some? {
      NameFromHome(home, root, c, name, i);
    } else {
      NamedByHome(home, root, c, dir, name, i + 1);
    }
  }

  lemma {:induction false} FirstHome(home: map<string, string>, root: string, calls: seq<Call>, dir: string,
                                     name: string)
    requires AllAgree(home, root, calls) && FirstNamed(root, calls, dir, name).Some?
    ensures name in home && FirstNamed(root, calls, dir, name).value.path == home[name]
  {
    hide NamedBy, Agrees;
    var n := |calls| - 1;
    if FirstNamed(root, calls[..n], dir, name).Some? {
      FirstHome(home, root, calls[..n], dir, name);
    } else {
      NamedByHome(home, root, calls[n], dir, name, 0);
    }
  }

  /** If each name stands for one directory, the path of every call resolves, and stays
      so after all further calls. */
  lemma AlwaysResolves(home: map<string, string>, root: string, calls: seq<Call>, i: nat)
    requires ValidCalls(root, calls) && AllAgree(home, root, calls) && i < |calls|
    ensures Resolves(root, calls, calls[i].path)
  {
    hide Resolves, FirstNamed, GoodPath, PlainWord, Locase, DirAt;
    var cs := calls[i].path;
    ResolvesIff(root, calls, cs);
    forall k | 0 <= k < |cs| ensures ComesFirst(root, calls, cs, k) {
      CallNames(root, calls, i, k);
      FirstStays(root, calls, i + 1, DirAt(root, cs, k), Locase(cs[k]));
      FirstHome(home, root, calls, DirAt(root, cs, k), Locase(cs[k]));
      assert Agrees(home, root, cs) && PartAt(cs, k + 1) == cs[k];
    }
  }

  // ---------------------------------------------------------------- slashes too many

  predicate ExtraSlash(path: string)
  {
    exists i :: 0 <= i < |path| && path[i] == SEP && (i + 1 == |path| || path[i + 1] == SEP)
  }

  /** The slashes behind a part, and what follows them. */
  lemma {:induction false} SkipCounts(s: string)
    ensures var r := SkipSlashes(s);
            && Slashes(s) == |s| - |r| + Slashes(r) && r == s[|s| - |r|..] && (r != "" ==> r[0] != SEP)
            && forall i :: 0 <= i < |s| - |r| ==> s[i] == SEP
  {
    if s != "" && s[0] == SEP {
      SkipCounts(s[1..]);
      var r := SkipSlashes(s[1..]);
      assert forall i :: 1 <= i < |s| - |r| ==> s[i] == s[1..][i - 1];
    }
  }

  /** One step of the split: the slots, and the slashes taken. */
  lemma SplitStep(above: string, path: string, slots: nat)
    requires slots > 0
    ensures var len := IndexOf(path, SEP); var rest := SkipSlashes(path[len..]);
            var ds := DirsOn(above, path, slots);
            && Slashes(path) == |path| - len - |rest| + Slashes(rest)
            && (rest == "" && slots > 1 ==> ds[slots - 1] == None)
            && (rest == "" && slots == 1 ==> ds[0].Some?)
            && (rest != "" && slots > 1 ==>
                  ds[slots - 1] == DirsOn(above + [SEP] + path[..len], rest, slots - 1)[slots - 2])
  {
    hide DirsOn, IndexOf, SkipSlashes;
    var len := IndexOf(path, SEP);
    DirsStep(above, path, slots);
    NoSlashes(path[..len]);
    SlashesAppend(path[..len], path[len..]);
    assert path == path[..len] + path[len..];
    SkipCounts(path[len..]);
  }

  lemma {:induction false} SlotsLeft(above: string, path: string, slots: nat)
    requires slots > Slashes(path) + 1
    ensures DirsOn(above, path, slots)[slots - 1] == None
    decreases slots
  {
    hide DirsOn, IndexOf, SkipSlashes, Slashes;
    SplitStep(above, path, slots);
    var len := IndexOf(path, SEP);
    var rest := SkipSlashes(path[len..]);
    if rest != "" {
      SkipCounts(path[len..]);
      assert |rest| < |path| - len by {
        assert len < |path|;
      }
      SlotsLeft(above + [SEP] + path[..len], rest, slots - 1);
    }
  }

  /** The last slot is used exactly when the path has no slash too many; the password
      is written on the line of that slot only, and so is lost with it. */
  lemma {:induction false} LastSlot(above: string, path: string)
    ensures DirsOn(above, path, Slashes(path) + 1)[Slashes(path)].Some? <==> !ExtraSlash(path)
    decreases |path|
  {
    hide DirsOn, IndexOf, SkipSlashes, Slashes, ExtraSlash;
    var n, len := Slashes(path), IndexOf(path, SEP);
    var rest := SkipSlashes(path[len..]);
    var dir := above + [SEP] + path[..len];
    SplitStep(above, path, n + 1);
    SkipCounts(path[len..]);
    ExtraWhere(path);
    if len < |path| && rest != "" {
      if |path| - len - |rest| == 1 {
        LastSlot(dir, rest);
      } else {
        SlotsLeft(dir, rest, n);
      }
    }
  }

  lemma ExtraWhere(path: string)
    ensures var len := IndexOf(path, SEP); var rest := SkipSlashes(path[len..]);
            && (len == |path| ==> !ExtraSlash(path) && rest == "" && Slashes(path) == 0)
            && (len < |path| && (rest == "" || |path| - len - |rest| > 1) ==> ExtraSlash(path))
            && (len < |path| && rest != "" && |path| - len - |rest| == 1 ==> (ExtraSlash(path) <==> ExtraSlash(rest)))
            && (len < |path| ==> |rest| < |path| - len)
  {
    hide IndexOf, SkipSlashes, ExtraSlash, Slashes;
    var len := IndexOf(path, SEP);
    var s := path[len..];
    var rest := SkipSlashes(s);
    SkipCounts(s);
    if len == |path| {
      NoExtra(path);
      NoSlashes(path);
      assert s == "";
      assert SkipSlashes("") == "" by {
        SkipNothing();
      }
    } else {
      SomeSkipped(s);
      if rest == "" || |s| - |rest| > 1 {
        IsExtra(path, len, |s| - |rest|);
      } else {
        SameExtra(path, len, rest);
      }
    }
  }

  lemma SkipNothing()
    ensures SkipSlashes("") == ""
  {
  }

  lemma SomeSkipped(s: string)
    requires s != "" && s[0] == SEP
    ensures |SkipSlashes(s)| < |s|
  {
  }

  lemma NoExtra(path: string)
    requires SEP !in path
    ensures !ExtraSlash(path)
  {
  }

  /** m slashes from len on. */
  lemma IsExtra(path: string, len: nat, m: nat)
    requires 0 < m && len + m <= |path| && (m > 1 || len + m == |path|)
    requires forall i :: 0 <= i < m ==> path[len..][i] == SEP
    ensures ExtraSlash(path)
  {
    assert path[len] == path[len..][0] == SEP;
    if m > 1 {
      assert path[len + 1] == path[len..][1];
    }
  }

  lemma SameExtra(path: string, len: nat, rest: string)
    requires len < |path| && path[len] == SEP && path[len + 1..] == rest && rest != "" && rest[0] != SEP
    requires forall i :: 0 <= i < len ==> path[i] != SEP
    ensures ExtraSlash(path) <==> ExtraSlash(rest)
  {
    assert forall i :: 0 <= i < |rest| ==> rest[i] == path[len + 1 + i];
    if ExtraSlash(path) {
      var i :| 0 <= i < |path| && path[i] == SEP && (i + 1 == |path| || path[i + 1] == SEP);
      assert i > len;
      assert rest[i - len - 1] == SEP;
    }
    if ExtraSlash(rest) {
      var i :| 0 <= i < |rest| && rest[i] == SEP && (i + 1 == |rest| || rest[i + 1] == SEP);
      assert path[len + 1 + i] == SEP;
    }
  }
}
