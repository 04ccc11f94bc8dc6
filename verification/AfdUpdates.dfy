/** update_sft, update_fst and subscribed_to_archive on the text of a table, and
    what they do to what the tables list (commands/afd_fui.c). */
module AfdUpdates {
  import opened Text
  import opened TextFiles
  import opened TableLines
  import opened FoldedTables
  import opened AfdTables

  datatype Request = AddFile | DelFile | DelUser

  function ModeMark(mode: char): string { "///" + [mode] }

  function SftEntry(file: string, mode: char): Entry { Entry(file + ModeMark(mode), "") }

  function FstEntry(address: string, mode: char): Entry { Entry(address, ModeMark(mode)) }

  function SftAction(address: string, file: string, mode: char, req: Request): Action
  {
    match req
    case AddFile => Add(SftEntry(file, mode), |address| + |file| + 6)
    case DelFile => Delete(file)
    case DelUser => Drop
  }

  function FstAction(address: string, file: string, mode: char, req: Request): Action
  {
    match req
    case AddFile => Add(FstEntry(address, mode), |file| + |address| + 6)
    case DelFile => Drop
    case DelUser => Delete(address)
  }

  function FileHead(file: string, time: nat): string { file + [BLANK] + Dec(time) }

  predicate IsStar(file: string) { file != "" && file[0] == '*' }

  function SftAfter(rs: seq<Rec>, address: string, file: string, mode: char, req: Request): seq<Rec>
    requires Legible(Sft, rs)
  {
    NewTable(Sft, rs, UserIs(address), SftAction(address, file, mode, req), address)
  }

  function FstAfter(rs: seq<Rec>, address: string, file: string, mode: char, req: Request, time: nat): seq<Rec>
    requires Legible(Fst, rs)
  {
    NewTable(Fst, rs, FileIs(file, req == DelUser && IsStar(file)), FstAction(address, file, mode, req),
             FileHead(file, time))
  }

  // ---------------------------------------------------------------- the loops

  lemma WfLegible(k: Kind, rs: seq<Rec>)
    requires Wf(k, rs)
    ensures Legible(k, rs)
    ensures forall i :: 0 <= i <= |rs| ==> Legible(k, rs[..i])
  {
    hide HeadOk, Folded;
  }

  lemma UpdatedSnoc(k: Kind, rs: seq<Rec>, i: nat, hit: string -> bool, a: Action)
    requires Legible(k, rs) && i < |rs|
    ensures Updated(k, rs[..i + 1], hit, a) == Updated(k, rs[..i], hit, a) +
            OneRec(k, rs[i], hit(Name(k, rs[i].head)), a)
    ensures Hits(k, rs[..i + 1], hit) <==> Hits(k, rs[..i], hit) || (!Comment(rs[i]) && hit(Name(k, rs[i].head)))
  {
    hide ChangedRec, Name;
    var u := rs[..i + 1];
    assert u[..i] == rs[..i] && u[i] == rs[i];
    assert forall j :: 0 <= j < i ==> u[j] == rs[..i][j];
  }

  /** One more record is written. */
  lemma WriteOne(k: Kind, rs: seq<Rec>, i: nat, hit: string -> bool, a: Action)
    requires Legible(k, rs) && i < |rs|
    ensures TableText(Updated(k, rs[..i + 1], hit, a)) ==
            TableText(Updated(k, rs[..i], hit, a)) + TableText(OneRec(k, rs[i], hit(Name(k, rs[i].head)), a))
    ensures Hits(k, rs[..i + 1], hit) <==> Hits(k, rs[..i], hit) || (!Comment(rs[i]) && hit(Name(k, rs[i].head)))
  {
    hide TableText, Updated, OneRec, Hits;
    UpdatedSnoc(k, rs, i, hit, a);
    TableAppend(Updated(k, rs[..i], hit, a), OneRec(k, rs[i], hit(Name(k, rs[i].head)), a));
  }

  /** The end of the loop: a record for a name that was not found. */
  lemma WriteNew(k: Kind, rs: seq<Rec>, hit: string -> bool, a: Action, head: string)
    requires Legible(k, rs) && a.Add?
    ensures TableText(NewTable(k, rs, hit, a, head)) ==
            TableText(Updated(k, rs, hit, a)) + if Hits(k, rs, hit) then "" else head + (Shown(k, a.e) + [LF])
  {
    hide TableText, Updated, Hits, Shown, RecText;
    var l := Shown(k, a.e);
    TableOne(Rec(head, [l]));
    FlattenOne(l);
    RecTextIs(head, [l]);
    TableAppend(Updated(k, rs, hit, a), [Rec(head, [l])]);
    assert Updated(k, rs, hit, a) + [] == Updated(k, rs, hit, a);
  }

  lemma WriteNone(k: Kind, rs: seq<Rec>, hit: string -> bool, a: Action, head: string)
    requires Legible(k, rs) && !a.Add?
    ensures NewTable(k, rs, hit, a, head) == Updated(k, rs, hit, a)
  {
    hide Updated;
  }

  /** update_sft */
  method UpdateSft(from: string, address: string, file: string, mode: char, req: Request, ghost rs: seq<Rec>)
      returns (to: string)
    requires Wf(Sft, rs) && from == TableText(rs)
    ensures Legible(Sft, rs) && to == TableText(SftAfter(rs, address, file, mode, req))
  {
    hide TableText, Updated, OneRec, Hits, WfRec, HeadRead, Shown, NewTable, Name;
    WfLegible(Sft, rs);
    var a := SftAction(address, file, mode, req);
    ghost var hit := UserIs(address);
    var found, eof := false, false;
    var pos: nat := 0;
    ghost var i := 0;
    to := "";
    assert from[0..] == from && rs[0..] == rs && rs[..0] == [];
    StartTable(Sft, hit, a);
    while !eof
      invariant i <= |rs| && pos <= |from| && (if eof then i == |rs| else from[pos..] == TableText(rs[i..]))
      invariant to == TableText(if eof then NewTable(Sft, rs, hit, a, address) else Updated(Sft, rs[..i], hit, a))
      invariant !eof ==> (found <==> Hits(Sft, rs[..i], hit))
      decreases |rs| - i, !eof
    {
      var user, next := ReadUserHead(from, pos, rs, i);
      HeadReadIs(Sft, from, rs, i, user, user, next);
      if user != "" {
        var hits := Upcase(user) == Upcase(address);
        WriteOne(Sft, rs, i, hit, a);
        if user[0] != '#' && hits {
          found := true;
        }
        var out;
        out, pos := RewriteRec(Sft, from, next, user, user, hits, a, rs, i);
        to := to + out;
        i := i + 1;
      } else {
        eof := true;
        assert rs[..i] == rs;
        if a.Add? {
          WriteNew(Sft, rs, hit, a, address);
          if !found {
            to := to + (address + (Shown(Sft, a.e) + [LF]));
          }
        } else {
          WriteNone(Sft, rs, hit, a, address);
        }
      }
    }
  }

  lemma StartTable(k: Kind, hit: string -> bool, a: Action)
    ensures TableText(Updated(k, [], hit, a)) == "" && !Hits(k, [], hit)
  {
  }

  lemma HeadReadIs(k: Kind, from: string, rs: seq<Rec>, i: nat, name: string, head: string, next: nat)
    requires Wf(k, rs) && i <= |rs| && HeadRead(k, from, rs, i, name, head, next)
    ensures name == "" <==> i == |rs|
    ensures i < |rs| ==> name == Name(k, rs[i].head) && (Comment(rs[i]) <==> name[0] == '#')
  {
    hide WfRec, Name, Body;
  }

  /** update_fst; time is what file_updated gives for a new file. */
  method UpdateFst(from: string, address: string, file: string, mode: char, req: Request, time: nat, ghost rs: seq<Rec>)
      returns (to: string)
    requires Wf(Fst, rs) && from == TableText(rs)
    ensures Legible(Fst, rs) && to == TableText(FstAfter(rs, address, file, mode, req, time))
  {
    hide TableText, Updated, OneRec, Hits, WfRec, HeadRead, Shown, NewTable, Name, FileHead;
    WfLegible(Fst, rs);
    var a := FstAction(address, file, mode, req);
    ghost var hit := FileIs(file, req == DelUser && IsStar(file));
    ghost var fileHead := FileHead(file, time);
    var found, eof := false, false;
    var pos: nat := 0;
    ghost var i := 0;
    to := "";
    assert from[0..] == from && rs[0..] == rs && rs[..0] == [];
    StartTable(Fst, hit, a);
    while !eof
      invariant i <= |rs| && pos <= |from| && (if eof then i == |rs| else from[pos..] == TableText(rs[i..]))
      invariant to == TableText(if eof then NewTable(Fst, rs, hit, a, fileHead) else Updated(Fst, rs[..i], hit, a))
      invariant !eof ==> (found <==> Hits(Fst, rs[..i], hit))
      decreases |rs| - i, !eof
    {
      var name, head, next := ReadFileHead(from, pos, rs, i);
      HeadReadIs(Fst, from, rs, i, name, head, next);
      if name != "" {
        var hits := name == file || (req == DelUser && IsStar(file));
        WriteOne(Fst, rs, i, hit, a);
        if name[0] != '#' && hits {
          found := true;
        }
        var out;
        out, pos := RewriteRec(Fst, from, next, name, head, hits, a, rs, i);
        to := to + out;
        i := i + 1;
      } else {
        eof := true;
        assert rs[..i] == rs;
        if a.Add? {
          WriteNew(Fst, rs, hit, a, fileHead);
          if !found {
            to := to + (FileHead(file, time) + (Shown(Fst, a.e) + [LF]));
          }
        } else {
          WriteNone(Fst, rs, hit, a, fileHead);
        }
      }
    }
  }
}
