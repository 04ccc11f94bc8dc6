/** The INDEX files of the archives: make_indexes (lplib/misc.c) writes them, and a
    path is walked through them (commands/archive.c, commands/get.c). */
module ArchiveIndex {
  import opened Text
  import opened AddressText
  import opened Numbers

  const DEFAULT_ARCHIVE: string := "listproc"
  const INDEX: string := "INDEX"
  const MARK: char := '%'
  const SEP: char := '/'

  // ---------------------------------------------------------------- lines

  /** sscanf(line, "%s %s %s") */
  datatype Fields = Fields(name: string, path: string, password: string)

  function FieldsOf(l: string): Fields
  {
    Fields(WordOf(l), WordOf(RestAfter(l)), WordOf(RestAfter(RestAfter(l))))
  }

  /** The name of an archive without the mark, as it is compared. */
  function PlainName(name: string): string
  {
    var n := Locase(name);
    if n != "" && n[0] == MARK then n[1..] else n
  }

  function NameOf(l: string): string { PlainName(FieldsOf(l).name) }

  function PathOf(l: string): string { FieldsOf(l).path }

  function LineFor(dir: string, password: string, afd: bool): string
  {
    (if afd then [MARK] else "") + BaseName(dir) + [BLANK] + dir + [BLANK] + password
  }

  /** What is behind the last slash. */
  function BaseName(dir: string): string
  {
    if SEP in dir then BaseName(dir[IndexOf(dir, SEP) + 1..]) else dir
  }

  function IndexFile(dir: string): string { dir + [SEP] + INDEX }

  // ---------------------------------------------------------------- make_indexes

  function Slashes(s: string): nat
  {
    if s == "" then 0 else Slashes(s[1..]) + if s[0] == SEP then 1 else 0
  }

  function SkipSlashes(s: string): (r: string)
    ensures |r| <= |s|
  {
    if s != "" && s[0] == SEP then SkipSlashes(s[1..]) else s
  }

  /** The directories on a path, one below the other; a slot is empty when the path
      ends before it. */
  function DirsOn(above: string, path: string, slots: nat): (ds: seq<Option<string>>)
    ensures |ds| == slots
    decreases slots
  {
    if slots == 0 then []
    else
      var len := IndexOf(path, SEP);
      var dir := above + [SEP] + path[..len];
      var rest := SkipSlashes(path[len..]);
      [Some(dir)] + if rest == "" then Nones(slots - 1) else DirsOn(dir, rest, slots - 1)
  }

  function DirsOf(root: string, path: string): (ds: seq<Option<string>>)
    ensures |ds| == Slashes(path) + 2
  {
    [Some(root + [SEP] + DEFAULT_ARCHIVE)] + DirsOn(root, path, Slashes(path) + 1)
  }

  predicate HasPath(ls: seq<string>, path: string) { exists i :: 0 <= i < |ls| && PathOf(ls[i]) == path }

  /** The lines that an INDEX lacks, for the directories from number j on. */
  function Missing(ls: seq<string>, dirs: seq<Option<string>>, j: nat, password: string, afd: bool): seq<string>
    requires j <= |dirs|
    decreases |dirs| - j
  {
    if j == |dirs| then []
    else
      (if dirs[j].Some? && !HasPath(ls, dirs[j].value)
       then [LineFor(dirs[j].value, if j == |dirs| - 1 then password else "", afd)] else [])
      + Missing(ls, dirs, j + 1, password, afd)
  }

  function LinesIn(files: map<string, seq<string>>, file: string): seq<string>
  {
    if file in files then files[file] else []
  }

  /** The INDEX files of the directories from number i on, brought up to date. */
  function Indexed(files: map<string, seq<string>>, dirs: seq<Option<string>>, i: nat, password: string,
                   afd: bool): map<string, seq<string>>
    requires i <= |dirs|
    decreases |dirs| - i
  {
    if i == |dirs| then files
    else if dirs[i].None? then Indexed(files, dirs, i + 1, password, afd)
    else
      var file := IndexFile(dirs[i].value);
      var ls := LinesIn(files, file);
      Indexed(files[file := ls + Missing(ls, dirs, i, password, afd)], dirs, i + 1, password, afd)
  }

  function AfterMake(files: map<string, seq<string>>, root: string, path: string, password: string,
                     afd: bool): map<string, seq<string>>
  {
    Indexed(files, DirsOf(root, path), 0, password, afd)
  }

  // ---------------------------------------------------------------- the walk

  datatype Found = Found(path: string, marked: bool, password: string)

  function FindName(ls: seq<string>, name: string): (i: nat)
    ensures i <= |ls|
    ensures i < |ls| ==> NameOf(ls[i]) == name
    ensures forall j :: 0 <= j < i ==> NameOf(ls[j]) != name
  {
    if ls == [] || NameOf(ls[0]) == name then 0 else 1 + FindName(ls[1..], name)
  }

  function FirstPart(archive: string): string { archive[..IndexOf(archive, SEP)] }

  function NextPart(archive: string): (r: string)
    ensures archive != "" ==> |r| < |archive|
  {
    var i := IndexOf(archive, SEP);
    if i < |archive| then archive[i + 1..] else ""
  }

  function FoundOn(l: string): Found
  {
    var f := FieldsOf(l);
    Found(f.path, f.name != "" && Locase(f.name)[0] == MARK, f.password)
  }

  /** Where a path leads to, from an INDEX file on. */
  function WalkFrom(files: map<string, seq<string>>, file: string, archive: string, at: Found): Option<Found>
    decreases |archive|
  {
    if archive == "" then Some(at)
    else if file !in files then None
    else
      var ls, cur := files[file], FirstPart(archive);
      var i := FindName(ls, cur);
      if i == |ls| then None
      else
        var found := FoundOn(ls[i]);
        var rest := NextPart(archive);
        WalkFrom(files, if FirstPart(rest) != "" then IndexFile(found.path) else found.path, rest, found)
  }

  function Walk(files: map<string, seq<string>>, root: string, archive: string): Option<Found>
  {
    WalkFrom(files, IndexFile(root + [SEP] + DEFAULT_ARCHIVE), archive, Found("", false, ""))
  }

  class ArchiveTree {
    const root: string
    var files: map<string, seq<string>>

    constructor (root: string)
      ensures this.root == root && files == map[]
    {
      this.root, files := root, map[];
    }

    method CountSlashes(path: string) returns (n: nat)
      ensures n == Slashes(path)
    {
      n := 0;
      var c := 0;
      assert path[0..] == path;
      while c < |path|
        invariant 0 <= c <= |path| && n + Slashes(path[c..]) == Slashes(path)
      {
        assert path[c..][1..] == path[c + 1..];
        if path[c] == SEP {
          n := n + 1;
        }
        c := c + 1;
      }
    }

    /** The loop that splits the path. */
    method SplitPath(path: string) returns (dirs: array<Option<string>>)
      ensures fresh(dirs) && dirs[..] == DirsOf(root, path)
    {
      hide DirsOn, Slashes, IndexOf, SkipSlashes;
      var n := CountSlashes(path);
      var nDirs := n + 2;
      dirs := new Option<string>[nDirs](_ => None);
      dirs[0] := Some(root + [SEP] + DEFAULT_ARCHIVE);
      var i, p, above, done := 1, path, root, false;
      ghost var got := [dirs[0]];
      while i < nDirs && !done
        invariant 1 <= i <= nDirs == dirs.Length && |got| == i
        invariant forall k :: 0 <= k < i ==> dirs[k] == got[k]
        invariant forall k :: i <= k < nDirs ==> dirs[k] == None
        invariant DirsOf(root, path) == got + if done then Nones(nDirs - i) else DirsOn(above, p, nDirs - i)
        decreases nDirs - i, !done
      {
        DirsStep(above, p, nDirs - i);
        var len := IndexOf(p, SEP);
        var dir := above + [SEP] + p[..len];
        dirs[i] := Some(dir);
        got := got + [Some(dir)];
        p := SkipSlashes(p[len..]);
        above := dir;
        i := i + 1;
        done := p == "";
      }
      DirsNone(above, p);
      assert dirs[..] == got + Nones(nDirs - i);
    }

    /** Which directories an INDEX has, from number i on. */
    method MatchLines(ls: seq<string>, dirs: array<Option<string>>, i: nat) returns (found: array<bool>)
      requires i <= dirs.Length
      ensures fresh(found) && found.Length == dirs.Length
      ensures forall j :: i <= j < dirs.Length ==>
                (found[j] <==> dirs[j].Some? && HasPath(ls, dirs[j].value))
    {
      hide FieldsOf;
      found := new bool[dirs.Length](_ => false);
      var k := 0;
      while k < |ls|
        invariant 0 <= k <= |ls|
        invariant forall j :: i <= j < dirs.Length ==>
                    (found[j] <==> dirs[j].Some? && exists m :: 0 <= m < k && PathOf(ls[m]) == dirs[j].value)
      {
        MatchLine(PathOf(ls[k]), dirs, i, found);
        k := k + 1;
      }
    }

    method MatchLine(path: string, dirs: array<Option<string>>, i: nat, found: array<bool>)
      requires i <= dirs.Length == found.Length
      modifies found
      ensures forall j :: i <= j < dirs.Length ==>
                (found[j] <==> old(found[j]) || (dirs[j].Some? && path == dirs[j].value))
    {
      var j := i;
      while j < dirs.Length
        invariant i <= j <= dirs.Length
        invariant forall m :: i <= m < j ==> (found[m] <==> old(found[m]) || (dirs[m].Some? && path == dirs[m].value))
        invariant forall m :: j <= m < dirs.Length ==> found[m] == old(found[m])
      {
        if dirs[j].Some? && path == dirs[j].value {
          found[j] := true;
        }
        j := j + 1;
      }
    }

    /** Set 'missing', and add lines if there is something missing. */
    method AddMissing(ls: seq<string>, dirs: array<Option<string>>, found: array<bool>, i: nat, password: string,
                      afd: bool)
        returns (ls': seq<string>)
      requires i <= dirs.Length == found.Length
      requires forall j :: i <= j < dirs.Length ==> (found[j] <==> dirs[j].Some? && HasPath(ls, dirs[j].value))
      ensures ls' == ls + Missing(ls, dirs[..], i, password, afd)
    {
      hide HasPath, LineFor, Missing;
      ghost var ds := dirs[..];
      var missing := exists j :: i <= j < dirs.Length && !found[j];
      ls' := ls;
      if missing {
        var j := i;
        assert ls' + Missing(ls, ds, j, password, afd) == ls + Missing(ls, ds, i, password, afd);
        while j < dirs.Length
          invariant i <= j <= dirs.Length
          invariant ls' + Missing(ls, ds, j, password, afd) == ls + Missing(ls, ds, i, password, afd)
        {
          MissingStep(ls, ds, j, password, afd);
          if dirs[j].Some? && !found[j] {
            ls' := ls' + [LineFor(dirs[j].value, if j == dirs.Length - 1 then password else "", afd)];
          }
          j := j + 1;
        }
        MissingEnd(ls, ds, password, afd);
      } else {
        NothingMissing(ls, ds, i, password, afd);
      }
    }

    /** make_indexes; no password is an empty one. */
    method MakeIndexes(path: string, password: string, afd: bool)
      modifies this
      ensures files == AfterMake(old(files), root, path, password, afd)
    {
      hide DirsOf, Missing, HasPath;
      var dirs := SplitPath(path);
      ghost var ds := dirs[..];
      var i := 0;
      while i < dirs.Length
        invariant 0 <= i <= dirs.Length && dirs[..] == ds
        invariant Indexed(old(files), ds, 0, password, afd) == Indexed(files, ds, i, password, afd)
      {
        if dirs[i].Some? {
          var file := IndexFile(dirs[i].value);
          ghost var before := files;
          if file !in files {
            files := files[file := []];
          }
          var found := MatchLines(files[file], dirs, i);
          var ls := AddMissing(files[file], dirs, found, i, password, afd);
          files := files[file := ls];
          assert files == before[file := ls];
        }
        i := i + 1;
      }
    }

    /** The walk of get_archive_path and of get */
    method WalkPath(archive: string) returns (r: Option<Found>)
      ensures r == Walk(files, root, archive)
    {
      hide FindName, FoundOn, FirstPart, NextPart;
      var file := IndexFile(root + [SEP] + DEFAULT_ARCHIVE);
      var a, at := archive, Found("", false, "");
      while a != ""
        invariant Walk(files, root, archive) == WalkFrom(files, file, a, at)
        decreases |a|
      {
        var cur := FirstPart(a);
        if file !in files {
          return None;
        }
        var i := FindLine(files[file], cur);
        if i == |files[file]| {
          return None;
        }
        at := FoundOn(files[file][i]);
        a := NextPart(a);
        file := if FirstPart(a) != "" then IndexFile(at.path) else at.path;
      }
      r := Some(at);
    }

    method FindLine(ls: seq<string>, name: string) returns (i: nat)
      ensures i == FindName(ls, name)
    {
      hide NameOf, FieldsOf;
      i := 0;
      assert ls[0..] == ls;
      while i < |ls| && NameOf(ls[i]) != name
        invariant 0 <= i <= |ls| && FindName(ls, name) == i + FindName(ls[i..], name)
      {
        assert ls[i..][1..] == ls[i + 1..];
        i := i + 1;
      }
    }
  }

  lemma MissingStep(ls: seq<string>, dirs: seq<Option<string>>, j: nat, password: string, afd: bool)
    requires j < |dirs|
    ensures Missing(ls, dirs, j, password, afd) ==
            (if dirs[j].Some? && !HasPath(ls, dirs[j].value)
             then [LineFor(dirs[j].value, if j == |dirs| - 1 then password else "", afd)] else [])
            + Missing(ls, dirs, j + 1, password, afd)
  {
    hide HasPath, LineFor;
  }

  lemma MissingEnd(ls: seq<string>, dirs: seq<Option<string>>, password: string, afd: bool)
    ensures Missing(ls, dirs, |dirs|, password, afd) == []
  {
  }

  lemma {:induction false} NothingMissing(ls: seq<string>, dirs: seq<Option<string>>, j: nat, password: string,
                                          afd: bool)
    requires j <= |dirs| && forall k :: j <= k < |dirs| ==> dirs[k].Some? ==> HasPath(ls, dirs[k].value)
    ensures Missing(ls, dirs, j, password, afd) == []
    decreases |dirs| - j
  {
    hide HasPath, LineFor;
    if j < |dirs| {
      NothingMissing(ls, dirs, j + 1, password, afd);
    }
  }

  function Nones(k: nat): (ds: seq<Option<string>>)
    ensures |ds| == k && forall i :: 0 <= i < k ==> ds[i] == None
  {
    seq(k, _ => None)
  }

  lemma DirsStep(above: string, p: string, slots: nat)
    requires slots > 0
    ensures var dir := above + [SEP] + p[..IndexOf(p, SEP)]; var rest := SkipSlashes(p[IndexOf(p, SEP)..]);
            DirsOn(above, p, slots) ==
            [Some(dir)] + if rest == "" then Nones(slots - 1) else DirsOn(dir, rest, slots - 1)
  {
    hide IndexOf, SkipSlashes;
  }

  lemma DirsNone(above: string, p: string)
    ensures DirsOn(above, p, 0) == [] == Nones(0)
  {
  }
}
