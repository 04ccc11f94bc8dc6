/** What the tables list, and that the updates of their text are insertions and
    removals in that list (commands/afd_fui.c). */
module AfdRows {
  import opened Text
  import opened TableLines
  import opened FoldedTables
  import opened AfdTables
  import opened AfdUpdates

  datatype Row = Row(head: string, entries: seq<Entry>)

  /** What a table lists; comments are not part of it. */
  function Rows(k: Kind, rs: seq<Rec>): seq<Row>
  {
    if rs == [] then []
    else
      var n := |rs| - 1;
      Rows(k, rs[..n]) + if Comment(rs[n]) then [] else [Row(rs[n].head, All(k, rs[n].rests))]
  }

  function ChangedRow(k: Kind, row: Row, a: Action): seq<Row>
  {
    match a
    case Add(e, _) => [Row(row.head, row.entries + [e])]
    case Delete(arg) =>
      var es := Filter(row.entries, Keeps(k, arg));
      if es == [] then [] else [Row(row.head, es)]
    case Drop => []
  }

  function UpdatedRows(k: Kind, rows: seq<Row>, hit: string -> bool, a: Action): seq<Row>
  {
    if rows == [] then []
    else
      var n := |rows| - 1;
      UpdatedRows(k, rows[..n], hit, a) + if hit(Name(k, rows[n].head)) then ChangedRow(k, rows[n], a) else [rows[n]]
  }

  predicate RowHits(k: Kind, rows: seq<Row>, hit: string -> bool)
  {
    exists i :: 0 <= i < |rows| && hit(Name(k, rows[i].head))
  }

  function NewRows(k: Kind, rows: seq<Row>, hit: string -> bool, a: Action, head: string): seq<Row>
  {
    UpdatedRows(k, rows, hit, a) + if a.Add? && !RowHits(k, rows, hit) then [Row(head, [a.e])] else []
  }

  ghost predicate ValidAction(k: Kind, a: Action) { a.Add? ==> ValidEntry(k, a.e) }

  // ---------------------------------------------------------------- sequences of rows

  lemma {:induction false} RowsAppend(k: Kind, a: seq<Rec>, b: seq<Rec>)
    ensures Rows(k, a + b) == Rows(k, a) + Rows(k, b)
    decreases |b|
  {
    hide All;
    if b == [] {
      assert a + b == a;
    } else {
      var n := |b| - 1;
      assert (a + b)[..|a| + n] == a + b[..n];
      assert (a + b)[|a| + n] == b[n];
      RowsAppend(k, a, b[..n]);
    }
  }

  lemma RowsOne(k: Kind, r: Rec)
    requires !Comment(r)
    ensures Rows(k, [r]) == [Row(r.head, All(k, r.rests))]
  {
    hide All;
    assert [r][..0] == [];
    assert Rows(k, []) == [];
  }

  lemma {:induction false} UpdatedRowsAppend(k: Kind, a: seq<Row>, b: seq<Row>, hit: string -> bool, c: Action)
    ensures UpdatedRows(k, a + b, hit, c) == UpdatedRows(k, a, hit, c) + UpdatedRows(k, b, hit, c)
    decreases |b|
  {
    hide ChangedRow, Name;
    if b == [] {
      assert a + b == a;
    } else {
      var n := |b| - 1;
      assert (a + b)[..|a| + n] == a + b[..n];
      assert (a + b)[|a| + n] == b[n];
      UpdatedRowsAppend(k, a, b[..n], hit, c);
    }
  }

  lemma UpdatedRowsOne(k: Kind, row: Row, hit: string -> bool, c: Action)
    ensures UpdatedRows(k, [row], hit, c) == if hit(Name(k, row.head)) then ChangedRow(k, row, c) else [row]
  {
    hide ChangedRow, Name;
    assert [row][..0] == [];
    assert UpdatedRows(k, [], hit, c) == [];
  }

  // ---------------------------------------------------------------- one record

  ghost predicate StartsBlank(s: string) { s != "" && s[0] == BLANK }

  lemma SftFirstLine(l: string)
    requires StartsBlank(l)
    ensures Entries(Sft, l[1..]) == Entries(Sft, l)
  {
    assert FirstWord(l) == FirstWord(l[1..]);
  }

  lemma {:induction false} RefoldBody(k: Kind, rests: seq<string>, keep: Entry -> bool)
    requires rests != [] && (k == Sft ==> StartsBlank(rests[0]))
    ensures Refold(k, Body(k, rests), keep) == Refold(k, rests, keep)
  {
    hide Entries, Print, Filter;
    if k == Sft {
      var b, n := Body(k, rests), |rests| - 1;
      if n == 0 {
        SftFirstLine(rests[0]);
        assert b[..0] == rests[..0];
      } else {
        assert b[..n] == Body(k, rests[..n]);
        assert b[n] == rests[n];
        RefoldBody(k, rests[..n], keep);
      }
    }
  }

  lemma PrintStarts(k: Kind, es: seq<Entry>)
    requires es != []
    ensures StartsBlank(Print(k, es))
  {
    if |es| > 1 {
      PrintStarts(k, es[..|es| - 1]);
    } else {
      assert es[..0] == [];
    }
  }

  lemma {:induction false} RefoldStarts(k: Kind, rests: seq<string>, keep: Entry -> bool)
    ensures var t := Refold(k, rests, keep); t != [] ==> StartsBlank(t[0])
  {
    hide Entries, Print, Filter;
    if rests != [] {
      var n := |rests| - 1;
      RefoldStarts(k, rests[..n], keep);
      var es := Filter(Entries(k, rests[n]), keep);
      if es != [] {
        PrintStarts(k, es);
      }
    }
  }

  lemma FoldedLines(k: Kind, rests: seq<string>)
    requires Folded(k, rests)
    ensures Lines(k, rests)
  {
    hide Plain, ContinuedLine;
  }

  lemma WfParts(k: Kind, r: Rec)
    requires WfRec(k, r)
    ensures HeadOk(k, r.head) && r.rests != [] && (k == Sft ==> StartsBlank(r.rests[0]))
    ensures r.rests[0] == "" || StartsBlank(r.rests[0])
    ensures |r.rests| > 1 ==> r.rests[0] != ""
    ensures !Comment(r) ==> Folded(k, r.rests)
  {
    hide HeadOk, Folded;
  }

  lemma MakeWf(k: Kind, head: string, t: seq<string>)
    requires HeadOk(k, head) && Folded(k, t) && StartsBlank(t[0])
    ensures Wf(k, [Rec(head, t)])
  {
    hide HeadOk, Folded, Chain;
    FoldedChain(k, t);
  }

  /** The lines a change leaves are well formed again, and list what they should. */
  lemma ChangedRefines(k: Kind, r: Rec, a: Action)
    requires WfRec(k, r) && !Comment(r) && ValidAction(k, a)
    ensures r.rests != [] && (k == Sft ==> r.rests[0] != "")
    ensures var t := ChangedRec(k, r, a);
            Wf(k, t) && Rows(k, t) == ChangedRow(k, Row(r.head, All(k, r.rests)), a)
  {
    hide HeadOk, Folded, WfRec, Wf, Rows, Filter, Refold, All, ValidEntry, Lines, WithEntry, Body;
    WfParts(k, r);
    match a
    case Add(e, base) =>
      var long := base + |Last(Body(k, r.rests))| > 80;
      var t := WithEntry(k, r.rests, e, long);
      WithEntryFolded(k, r.rests, e, long);
      WithEntryStarts(k, r.rests, e, long);
      MakeWf(k, r.head, t);
      RowsOne(k, Rec(r.head, t));
    case Delete(arg) =>
      var keep := Keeps(k, arg);
      var t := Refold(k, r.rests, keep);
      RefoldBody(k, r.rests, keep);
      FoldedLines(k, r.rests);
      RefoldFolded(k, r.rests, keep);
      RefoldStarts(k, r.rests, keep);
      NoRows(k);
      if t != [] {
        MakeWf(k, r.head, t);
        RowsOne(k, Rec(r.head, t));
      }
    case Drop =>
      NoRows(k);
  }

  lemma NoRows(k: Kind)
    ensures Wf(k, []) && Rows(k, []) == []
  {
  }

  lemma WithEntryStarts(k: Kind, t: seq<string>, e: Entry, long: bool)
    requires t != [] && (t[0] == "" || StartsBlank(t[0])) && (|t| > 1 ==> t[0] != "")
    ensures StartsBlank(WithEntry(k, t, e, long)[0])
  {
    hide Show;
  }

  // ---------------------------------------------------------------- whole tables

  lemma {:induction false} UpdatedRefines(k: Kind, rs: seq<Rec>, hit: string -> bool, a: Action)
    requires Wf(k, rs) && ValidAction(k, a) && Legible(k, rs)
    ensures Wf(k, Updated(k, rs, hit, a))
    ensures Rows(k, Updated(k, rs, hit, a)) == UpdatedRows(k, Rows(k, rs), hit, a)
    ensures Hits(k, rs, hit) <==> RowHits(k, Rows(k, rs), hit)
  {
    hide WfRec, OneRec, All, Name, ValidAction, UpdatedRows, RowHits;
    if rs == [] {
      NoUpdatedRows(k, hit, a);
      assert RowHits(k, [], hit) == false by {
        NoRowHits(k, hit);
      }
    } else {
      var n := |rs| - 1;
      assert rs[..n + 1] == rs;
      UpdatedRefines(k, rs[..n], hit, a);
      UpdatedStep(k, rs, n, hit, a);
    }
  }

  lemma NoRowHits(k: Kind, hit: string -> bool)
    ensures !RowHits(k, [], hit)
  {
  }

  lemma UpdatedStep(k: Kind, rs: seq<Rec>, n: nat, hit: string -> bool, a: Action)
    requires Wf(k, rs) && ValidAction(k, a) && Legible(k, rs) && n + 1 == |rs|
    requires Wf(k, Updated(k, rs[..n], hit, a))
    requires Rows(k, Updated(k, rs[..n], hit, a)) == UpdatedRows(k, Rows(k, rs[..n]), hit, a)
    requires Hits(k, rs[..n], hit) <==> RowHits(k, Rows(k, rs[..n]), hit)
    ensures Wf(k, Updated(k, rs, hit, a))
    ensures Rows(k, Updated(k, rs, hit, a)) == UpdatedRows(k, Rows(k, rs), hit, a)
    ensures Hits(k, rs, hit) <==> RowHits(k, Rows(k, rs), hit)
  {
    hide WfRec, OneRec, Name, ValidAction, UpdatedRows, RowHits, Rows, Updated, RowOf, Hits;
    var u, t := Updated(k, rs[..n], hit, a), OneRec(k, rs[n], hit(Name(k, rs[n].head)), a);
    assert rs[..n + 1] == rs;
    UpdatedSnoc(k, rs, n, hit, a);
    OneRefines(k, rs[n], hit, a);
    RowsAppend(k, u, t);
    RowsSnoc(k, rs);
    UpdatedRowsAppend(k, Rows(k, rs[..n]), RowOf(k, rs[n]), hit, a);
    RowHitsAppend(k, Rows(k, rs[..n]), RowOf(k, rs[n]), hit);
  }

  lemma RowsSnoc(k: Kind, rs: seq<Rec>)
    requires rs != []
    ensures var n := |rs| - 1; Rows(k, rs) == Rows(k, rs[..n]) + RowOf(k, rs[n])
  {
    hide All;
  }

  lemma RowHitsAppend(k: Kind, a: seq<Row>, b: seq<Row>, hit: string -> bool)
    ensures RowHits(k, a + b, hit) <==> RowHits(k, a, hit) || RowHits(k, b, hit)
  {
    hide Name;
    forall i | 0 <= i < |a| ensures (a + b)[i] == a[i] {
    }
    forall i | 0 <= i < |b| ensures (a + b)[|a| + i] == b[i] {
    }
    if RowHits(k, a, hit) {
      var i :| 0 <= i < |a| && hit(Name(k, a[i].head));
      assert hit(Name(k, (a + b)[i].head));
    }
    if RowHits(k, b, hit) {
      var i :| 0 <= i < |b| && hit(Name(k, b[i].head));
      assert hit(Name(k, (a + b)[|a| + i].head));
    }
  }

  /** What record n adds to the list. */
  function RowOf(k: Kind, r: Rec): seq<Row>
  {
    if Comment(r) then [] else [Row(r.head, All(k, r.rests))]
  }

  lemma OneRefines(k: Kind, r: Rec, hit: string -> bool, a: Action)
    requires WfRec(k, r) && ValidAction(k, a)
    ensures r.rests != [] && (k == Sft ==> r.rests[0] != "")
    ensures var t := OneRec(k, r, hit(Name(k, r.head)), a);
            && Wf(k, t)
            && Rows(k, t) == UpdatedRows(k, RowOf(k, r), hit, a)
            && (RowHits(k, RowOf(k, r), hit) <==> !Comment(r) && hit(Name(k, r.head)))
  {
    hide WfRec, ChangedRec, ChangedRow, All, Name, ValidAction, Rows, UpdatedRows;
    WfParts(k, r);
    NoRows(k);
    if Comment(r) {
      assert UpdatedRows(k, [], hit, a) == [] by {
        NoUpdatedRows(k, hit, a);
      }
    } else {
      var row := Row(r.head, All(k, r.rests));
      UpdatedRowsOne(k, row, hit, a);
      RowsOne(k, r);
      ChangedRefines(k, r, a);
      assert [row][0] == row;
    }
  }

  lemma NoUpdatedRows(k: Kind, hit: string -> bool, a: Action)
    ensures UpdatedRows(k, [], hit, a) == []
  {
  }

  /** The text of a table after an update lists what it listed before, with the
      entry added or removed; it has no comments, no dangling continuation, and no
      record of a name that was to be dropped. */
  lemma UpdateRefines(k: Kind, rs: seq<Rec>, hit: string -> bool, a: Action, head: string)
    requires Wf(k, rs) && ValidAction(k, a) && (a.Add? ==> HeadOk(k, head) && head != "" && head[0] != '#')
    ensures Legible(k, rs) && Wf(k, NewTable(k, rs, hit, a, head))
    ensures Rows(k, NewTable(k, rs, hit, a, head)) == NewRows(k, Rows(k, rs), hit, a, head)
  {
    hide WfRec, ChangedRec, ChangedRow, All, Name, HeadOk, Hits, RowHits, Updated, UpdatedRows, Shown, ValidEntry;
    WfLegible(k, rs);
    UpdatedRefines(k, rs, hit, a);
    var u := Updated(k, rs, hit, a);
    if a.Add? && !Hits(k, rs, hit) {
      var r := Rec(head, [Shown(k, a.e)]);
      NewRecord(k, head, a.e);
      RowsOne(k, r);
      RowsAppend(k, u, [r]);
    } else {
      assert u + [] == u;
    }
  }

  lemma NewRecord(k: Kind, head: string, e: Entry)
    requires HeadOk(k, head) && ValidEntry(k, e)
    ensures var r := Rec(head, [Shown(k, e)]); WfRec(k, r) && All(k, r.rests) == [e]
  {
    hide HeadOk, Entries, Plain, Show;
    ValidParts(k, e);
    OneLine(k, Shown(k, e));
    FoldedChain(k, [Shown(k, e)]);
  }

  lemma {:induction false} NoComments(k: Kind, rs: seq<Rec>, hit: string -> bool, a: Action, head: string, i: nat)
    requires Legible(k, rs) && (a.Add? ==> head != "" && head[0] != '#') && i < |NewTable(k, rs, hit, a, head)|
    ensures !Comment(NewTable(k, rs, hit, a, head)[i])
  {
    hide WithEntry, Refold, Hits, Name, Body;
    UpdatedNoComments(k, rs, hit, a);
  }

  lemma {:induction false} UpdatedNoComments(k: Kind, rs: seq<Rec>, hit: string -> bool, a: Action)
    requires Legible(k, rs)
    ensures forall i :: 0 <= i < |Updated(k, rs, hit, a)| ==> !Comment(Updated(k, rs, hit, a)[i])
  {
    hide WithEntry, Refold, Name, Body;
    if rs != [] {
      UpdatedNoComments(k, rs[..|rs| - 1], hit, a);
    }
  }
}
