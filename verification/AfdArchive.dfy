/** Subscribing to and unsubscribing from the files of an archive: afd_fui_subscribe
    and afd_fui_unsubscribe on its two tables (commands/afd_fui.c). */
module AfdArchive {
  import opened Text
  import opened AddressText
  import opened Streams
  import opened TableLines
  import opened AfdTables
  import opened AfdUpdates
  import opened AfdRows
  import opened AfdStatus

  // ---------------------------------------------------------------- names

  predicate GoodUser(a: string) { PlainAddress(a) && Printable(a) && SLASH !in a }

  predicate GoodFile(f: string)
  {
    && f != "" && f[0] != '#' && Printable(f) && Locase(f) == f
    && (forall i :: 0 <= i < |f| ==> WordChar(f[i]) && f[i] != FIELD)
    && (f[0] == '*' ==> f == "*")
  }

  predicate GoodMode(m: char) { m == 'D' || m == 'N' }

  lemma GoodSftEntry(f: string, m: char)
    requires GoodFile(f) && GoodMode(m)
    ensures ValidEntry(Sft, SftEntry(f, m)) && FileOf(SftEntry(f, m)) == f
  {
    hide ValidEntry;
    var w := f + ModeMark(m);
    assert forall i :: 0 <= i < |w| ==> w[i] == if i < |f| then f[i] else ModeMark(m)[i - |f|];
    OneWord(w);
    assert w == f + [FIELD] + ("//" + [m]);
    IndexOfIn(f, FIELD, "//" + [m]);
  }

  lemma GoodFstEntry(a: string, m: char)
    requires GoodUser(a) && GoodMode(m)
    ensures ValidEntry(Fst, FstEntry(a, m))
  {
    hide AddressOf, Scan, ValidEntry, Pairs, PairsUp, SkipSpaces;
    var w := ModeMark(m);
    assert PlainChar(a[0]);
    PlainAddressRead(a, [BLANK] + w);
    var u := a + ([BLANK] + w);
    assert u == a + [BLANK] + w && [BLANK] + u == [BLANK] + a + [BLANK] + w;
    SkipBlank(u);
    SameAddress([BLANK] + u, u);
    OnePair(a, w);
    PairText(a, a, w);
    ValidIs(Entry(a, w));
  }

  lemma SameAddress(s: string, t: string)
    requires SkipSpaces(s) == SkipSpaces(t)
    ensures AddressOf(s) == AddressOf(t)
  {
  }

  lemma GoodUserHead(a: string)
    requires GoodUser(a)
    ensures HeadOk(Sft, a) && a != "" && a[0] != '#'
  {
    PlainReadTo(a, 0);
  }

  lemma {:induction false} PlainReadTo(a: string, i: nat)
    requires PlainAddress(a) && i <= |a|
    ensures ReadTo(a + [BLANK], i, NO_NESTING) == Reading(|a| + 1, NO_NESTING, true)
    decreases |a| - i
  {
    var r := a + [BLANK];
    if i < |a| {
      assert PlainChar(r[i]);
      PlainAdvance(NO_NESTING, r, i);
      PlainReadTo(a, i + 1);
    } else {
      assert Advance(NO_NESTING, r, i) == NO_NESTING;
    }
  }

  lemma GoodFileHead(f: string, time: nat)
    requires GoodFile(f)
    ensures var h := FileHead(f, time); HeadOk(Fst, h) && h != "" && h[0] != '#' && Name(Fst, h) == f
  {
    hide Dec;
    var h, d := FileHead(f, time), Dec(time);
    assert forall i :: 0 <= i < |f| ==> WordChar(f[i]);
    IndexOfIn(f, BLANK, d);
    assert h[..|f|] == f && h[|f| + 1..] == d;
    FileWord(f);
    assert forall i :: 0 <= i < |d| ==> IsDigit(d[i]);
  }

  lemma FileWord(f: string)
    requires GoodFile(f)
    ensures PlainWord(f)
  {
    forall i | 0 <= i < |f| ensures !IsSpace(f[i]) && f[i] != EOS {
      assert WordChar(f[i]);
    }
  }

  // ---------------------------------------------------------------- the two requests

  /** What the two tables of an archive list. */
  datatype Tables = Tables(sft: seq<Row>, fst: seq<Row>)

  function SftRows(rows: seq<Row>, address: string, file: string, mode: char, req: Request): seq<Row>
  {
    NewRows(Sft, rows, UserIs(address), SftAction(address, file, mode, req), address)
  }

  function FstRows(rows: seq<Row>, address: string, file: string, mode: char, req: Request, time: nat): seq<Row>
  {
    NewRows(Fst, rows, FileIs(file, req == DelUser && IsStar(file)), FstAction(address, file, mode, req),
            FileHead(file, time))
  }

  ghost function AfterSubscribe(t: Tables, address: string, file: string, mode: char, time: nat): Tables
  {
    if StatusOf(t.sft, address, file) == Subscribed then t
    else Tables(SftRows(t.sft, address, file, mode, AddFile), FstRows(t.fst, address, file, mode, AddFile, time))
  }

  ghost predicate Unsubscribable(t: Tables, address: string, file: string)
  {
    var status := StatusOf(t.sft, address, file);
    status == Subscribed || (status == ArchiveOnly && IsStar(file))
  }

  ghost function AfterUnsubscribe(t: Tables, address: string, file: string): Tables
  {
    if !Unsubscribable(t, address, file) then t
    else Tables(SftRows(t.sft, address, file, 'D', if IsStar(file) then DelUser else DelFile),
                FstRows(t.fst, address, file, 'D', DelUser, 0))
  }

  lemma SftRefines(rs: seq<Rec>, address: string, file: string, mode: char, req: Request)
    requires Wf(Sft, rs) && GoodUser(address) && GoodFile(file) && GoodMode(mode)
    ensures Legible(Sft, rs)
    ensures var t := SftAfter(rs, address, file, mode, req);
            Wf(Sft, t) && Rows(Sft, t) == SftRows(Rows(Sft, rs), address, file, mode, req)
  {
    hide Wf, Rows, NewTable, NewRows, HeadOk, ValidEntry;
    GoodSftEntry(file, mode);
    GoodUserHead(address);
    UpdateRefines(Sft, rs, UserIs(address), SftAction(address, file, mode, req), address);
  }

  lemma FstRefines(rs: seq<Rec>, address: string, file: string, mode: char, req: Request, time: nat)
    requires Wf(Fst, rs) && GoodUser(address) && GoodFile(file) && GoodMode(mode)
    ensures Legible(Fst, rs)
    ensures var t := FstAfter(rs, address, file, mode, req, time);
            Wf(Fst, t) && Rows(Fst, t) == FstRows(Rows(Fst, rs), address, file, mode, req, time)
  {
    hide Wf, Rows, NewTable, NewRows, HeadOk, ValidEntry, FileHead;
    GoodFstEntry(address, mode);
    GoodFileHead(file, time);
    UpdateRefines(Fst, rs, FileIs(file, req == DelUser && IsStar(file)), FstAction(address, file, mode, req),
                  FileHead(file, time));
  }

  class Archive {
    var sft: string
    var fst: string
    ghost var sftRecs: seq<Rec>
    ghost var fstRecs: seq<Rec>

    ghost predicate Valid()
      reads this
    {
      && sft == TableText(sftRecs) && Wf(Sft, sftRecs)
      && fst == TableText(fstRecs) && Wf(Fst, fstRecs)
    }

    ghost function Lists(): Tables
      reads this
    {
      Tables(Rows(Sft, sftRecs), Rows(Fst, fstRecs))
    }

    constructor ()
      ensures Valid() && Lists() == Tables([], [])
    {
      sft, fst, sftRecs, fstRecs := "", "", [], [];
    }

    /** update_sft and update_fst, one after the other */
    method UpdateBoth(address: string, file: string, mode: char, sftReq: Request, fstReq: Request, time: nat)
      requires Valid() && GoodUser(address) && GoodFile(file) && GoodMode(mode)
      modifies this
      ensures Valid()
      ensures Lists() == Tables(SftRows(old(Lists()).sft, address, file, mode, sftReq),
                                FstRows(old(Lists()).fst, address, file, mode, fstReq, time))
    {
      hide TableText, Wf, Rows, SftRows, FstRows, SftAfter, FstAfter;
      SftRefines(sftRecs, address, file, mode, sftReq);
      FstRefines(fstRecs, address, file, mode, fstReq, time);
      sft := UpdateSft(sft, address, file, mode, sftReq, sftRecs);
      sftRecs := SftAfter(sftRecs, address, file, mode, sftReq);
      fst := UpdateFst(fst, address, file, mode, fstReq, time, fstRecs);
      fstRecs := FstAfter(fstRecs, address, file, mode, fstReq, time);
    }

    /** afd_fui_subscribe; time is what file_updated gives for the file. */
    method Subscribe(address: string, file: string, mode: char, time: nat) returns (done: bool)
      requires Valid() && GoodUser(address) && GoodFile(file) && GoodMode(mode)
      modifies this
      ensures Valid() && Lists() == AfterSubscribe(old(Lists()), address, file, mode, time)
      ensures done <==> StatusOf(old(Lists()).sft, address, file) != Subscribed
    {
      hide TableText, Wf, Rows, SftRows, FstRows, StatusOf;
      var status := SubscribedToArchive(sft, address, file, sftRecs);
      if status == Subscribed {
        return false;
      }
      UpdateBoth(address, file, mode, AddFile, AddFile, time);
      done := true;
    }

    /** afd_fui_unsubscribe */
    method Unsubscribe(address: string, file: string) returns (done: bool)
      requires Valid() && GoodUser(address) && GoodFile(file)
      modifies this
      ensures Valid() && Lists() == AfterUnsubscribe(old(Lists()), address, file)
      ensures done <==> Unsubscribable(old(Lists()), address, file)
    {
      hide TableText, Wf, Rows, SftRows, FstRows, StatusOf;
      var status := SubscribedToArchive(sft, address, file, sftRecs);
      if status == NotSubscribed || (status == ArchiveOnly && file[0] != '*') {
        return false;
      }
      UpdateBoth(address, file, 'D', if file[0] == '*' then DelUser else DelFile, DelUser, 0);
      done := true;
    }
  }
}
