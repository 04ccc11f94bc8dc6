/** subscribed_to_archive on the text of a subscribers table (commands/afd_fui.c). */
module AfdStatus {
  import opened Text
  import opened TextFiles
  import opened TableLines
  import opened FoldedTables
  import opened AfdTables
  import opened AfdUpdates
  import opened AfdRows

  datatype Status = NotSubscribed | ArchiveOnly | Subscribed

  const FIELD: char := '/'

  /** What an entry of an SFT is for. */
  function FileOf(e: Entry): string { e.key[..IndexOf(e.key, FIELD)] }

  /** The entry covers the file: it is for that file, or for all. */
  predicate Covers(e: Entry, file: string) { FileOf(e) == file || IsStar(FileOf(e)) }

  ghost predicate SomeCovers(es: seq<Entry>, file: string) { exists i :: 0 <= i < |es| && Covers(es[i], file) }

  function FindUser(rows: seq<Row>, address: string): (i: nat)
    ensures i <= |rows|
    ensures i < |rows| ==> Upcase(rows[i].head) == Upcase(address)
    ensures forall j :: 0 <= j < i ==> Upcase(rows[j].head) != Upcase(address)
  {
    if rows == [] || Upcase(rows[0].head) == Upcase(address) then 0 else 1 + FindUser(rows[1..], address)
  }

  ghost function StatusOf(rows: seq<Row>, address: string, file: string): Status
  {
    var i := FindUser(rows, address);
    if i == |rows| then NotSubscribed
    else if SomeCovers(rows[i].entries, file) then Subscribed else ArchiveOnly
  }

  // ---------------------------------------------------------------- the loops

  /** The loop over the words of a line. */
  method LineCovers(line: string, file: string) returns (b: bool)
    ensures b <==> SomeCovers(Words(line), file)
  {
    hide FirstWord, Words, Covers, SomeCovers;
    var s, done := line, false;
    while !done
      invariant SomeCovers(Words(line), file) <==> !done && SomeCovers(Words(s), file)
      decreases |s|, !done
    {
      CoversStep(s, file);
      match FirstWord(s)
      case None =>
        done := true;
      case Some((e, rest)) =>
        if Covers(e, file) {
          return true;
        }
        s := rest;
    }
    b := false;
  }

  lemma CoversStep(s: string, file: string)
    ensures SomeCovers(Words(s), file) <==>
            match FirstWord(s)
            case None => false
            case Some((e, rest)) => Covers(e, file) || SomeCovers(Words(rest), file)
  {
    hide FirstWord, Covers;
    match FirstWord(s)
    case None =>
    case Some((e, rest)) =>
      SomeCoversAppend([e], Words(rest), file);
      assert [e][0] == e;
  }

  lemma SomeCoversAppend(a: seq<Entry>, b: seq<Entry>, file: string)
    ensures SomeCovers(a + b, file) <==> SomeCovers(a, file) || SomeCovers(b, file)
  {
    hide Covers;
    if SomeCovers(a, file) {
      var i :| 0 <= i < |a| && Covers(a[i], file);
      assert (a + b)[i] == a[i];
    }
    if SomeCovers(b, file) {
      var i :| 0 <= i < |b| && Covers(b[i], file);
      assert (a + b)[|a| + i] == b[i];
    }
  }

  /** The loop over the lines of the user's record. */
  method LinesCover(from: string, pos: nat, file: string, ghost rests: seq<string>, ghost after: string)
      returns (b: bool)
    requires Chain(rests) && pos <= |from| && from[pos..] == Flatten(rests) + after
    ensures b <==> SomeCovers(All(Sft, rests), file)
  {
    hide Flatten, SomeCovers, Words;
    ghost var i := 0;
    var next: nat, more := pos, true;
    assert rests[0..] == rests && rests[..0] == [];
    NoneCovers(file);
    b := false;
    while more
      invariant i <= |rests| && next <= |from| && (more <==> i < |rests|)
      invariant from[next..] == Flatten(rests[i..]) + after
      invariant b <==> SomeCovers(All(Sft, rests[..i]), file)
      decreases |rests| - i
    {
      var line;
      line, next := GetLine(from, next, rests, i, after);
      var c := LineCovers(line, file);
      AllSnoc(rests, i);
      SomeCoversAppend(All(Sft, rests[..i]), Words(rests[i]), file);
      if c {
        b := true;
      }
      i := i + 1;
      more := Continued(line);
    }
    assert rests[..i] == rests;
  }

  lemma NoneCovers(file: string)
    ensures All(Sft, []) == [] && !SomeCovers([], file)
  {
  }

  lemma AllSnoc(rests: seq<string>, i: nat)
    requires i < |rests|
    ensures All(Sft, rests[..i + 1]) == All(Sft, rests[..i]) + Words(rests[i])
  {
    hide Words;
    assert rests[..i + 1][..i] == rests[..i];
  }

  /** Leaving out the first blank leaves the entries. */
  lemma {:induction false} AllBody(rests: seq<string>)
    requires rests != [] && StartsBlank(rests[0])
    ensures All(Sft, Body(Sft, rests)) == All(Sft, rests)
  {
    hide Entries;
    var b, n := Body(Sft, rests), |rests| - 1;
    if n == 0 {
      SftFirstLine(rests[0]);
      assert b[..0] == rests[..0];
    } else {
      assert b[..n] == Body(Sft, rests[..n]) && b[n] == rests[n];
      AllBody(rests[..n]);
    }
  }

  /** The records read so far do not have the user. */
  ghost predicate Passed(rs: seq<Rec>, i: nat, address: string)
    requires i <= |rs|
  {
    forall j :: 0 <= j < |Rows(Sft, rs[..i])| ==> Upcase(Rows(Sft, rs[..i])[j].head) != Upcase(address)
  }

  lemma FirstUser(rows: seq<Row>, address: string, i: nat)
    requires i <= |rows|
    requires i < |rows| ==> Upcase(rows[i].head) == Upcase(address)
    requires forall j :: 0 <= j < i ==> Upcase(rows[j].head) != Upcase(address)
    ensures FindUser(rows, address) == i
  {
    hide Upcase;
  }

  lemma PassOne(rs: seq<Rec>, i: nat, address: string)
    requires i < |rs| && Passed(rs, i, address)
    ensures Comment(rs[i]) || Upcase(rs[i].head) != Upcase(address) ==> Passed(rs, i + 1, address)
    ensures !Comment(rs[i]) && Upcase(rs[i].head) == Upcase(address) ==>
              var rows, n := Rows(Sft, rs), |Rows(Sft, rs[..i])|;
              n < |rows| && rows[n] == Row(rs[i].head, All(Sft, rs[i].rests)) && FindUser(rows, address) == n
  {
    hide All, Rows, Upcase;
    assert rs[..i + 1][..i] == rs[..i];
    RowsSnoc(Sft, rs[..i + 1]);
    RowsAppend(Sft, rs[..i + 1], rs[i + 1..]);
    assert rs == rs[..i + 1] + rs[i + 1..];
    if !Comment(rs[i]) && Upcase(rs[i].head) == Upcase(address) {
      FirstUser(Rows(Sft, rs), address, |Rows(Sft, rs[..i])|);
    }
  }

  /** subscribed_to_archive for one file */
  method SubscribedToArchive(from: string, address: string, file: string, ghost rs: seq<Rec>) returns (status: Status)
    requires Wf(Sft, rs) && from == TableText(rs)
    ensures status == StatusOf(Rows(Sft, rs), address, file)
  {
    hide TableText, Rows, WfRec, HeadRead, SomeCovers, Body, Chain, Flatten, FindUser;
    var eof := false;
    var pos: nat := 0;
    ghost var i := 0;
    assert from[0..] == from && rs[0..] == rs;
    NonePassed(rs, address);
    while !eof
      invariant i <= |rs| && pos <= |from| && (if eof then i == |rs| else from[pos..] == TableText(rs[i..]))
      invariant Passed(rs, i, address)
      decreases |rs| - i, !eof
    {
      var user, next := ReadUserHead(from, pos, rs, i);
      HeadReadIs(Sft, from, rs, i, user, user, next);
      if user != "" {
        PassOne(rs, i, address);
        SftRecord(from, rs, i, user, next);
        if user[0] != '#' && Upcase(user) == Upcase(address) {
          AllBody(rs[i].rests);
          var b := LinesCover(from, next, file, Body(Sft, rs[i].rests), TableText(rs[i + 1..]));
          return if b then Subscribed else ArchiveOnly;
        }
        pos := SkipRests(from, next, Body(Sft, rs[i].rests), TableText(rs[i + 1..]));
        i := i + 1;
      } else {
        eof := true;
      }
    }
    NotThere(rs, address);
    status := NotSubscribed;
  }

  lemma NonePassed(rs: seq<Rec>, address: string)
    ensures Passed(rs, 0, address)
  {
    assert rs[..0] == [];
  }

  lemma NotThere(rs: seq<Rec>, address: string)
    requires Passed(rs, |rs|, address)
    ensures FindUser(Rows(Sft, rs), address) == |Rows(Sft, rs)|
  {
    hide Upcase;
    assert rs[..|rs|] == rs;
    FirstUser(Rows(Sft, rs), address, |Rows(Sft, rs)|);
  }

  lemma SftRecord(from: string, rs: seq<Rec>, i: nat, user: string, next: nat)
    requires Wf(Sft, rs) && i < |rs| && HeadRead(Sft, from, rs, i, user, user, next)
    ensures rs[i].rests != [] && StartsBlank(rs[i].rests[0]) && Chain(Body(Sft, rs[i].rests))
    ensures user == rs[i].head && next <= |from|
    ensures from[next..] == Flatten(Body(Sft, rs[i].rests)) + TableText(rs[i + 1..])
  {
    hide HeadOk, Folded, Chain, Body, Flatten, TableText;
    BodyText(Sft, rs[i]);
    WfParts(Sft, rs[i]);
  }
}
