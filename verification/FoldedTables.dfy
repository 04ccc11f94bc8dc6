/** Tables of records that are continued on further lines with a backslash, and
    what the updates do to them (commands/afd_fui.c). */
module FoldedTables {
  import opened Text
  import opened TextFiles
  import opened Streams
  import opened TableLines

  predicate Continued(l: string) { l != "" && l[|l| - 1] == SLASH }

  predicate ContinuedLine(k: Kind, l: string)
  {
    |l| >= 2 && l[|l| - 2..] == FOLD && Plain(k, l[..|l| - 2])
  }

  /** All lines but the last are continued. */
  predicate Folded(k: Kind, rests: seq<string>)
  {
    && rests != []
    && (forall i :: 0 <= i < |rests| - 1 ==> ContinuedLine(k, rests[i]))
    && Plain(k, rests[|rests| - 1])
  }

  function All(k: Kind, rests: seq<string>): seq<Entry>
  {
    if rests == [] then [] else All(k, rests[..|rests| - 1]) + Entries(k, rests[|rests| - 1])
  }

  lemma LastIs<T>(t: seq<T>, x: T)
    ensures (t + [x])[..|t|] == t && (t + [x])[|t|] == x
  {
  }

  lemma ContinuedPlain(k: Kind, s: string)
    requires Plain(k, s)
    ensures ContinuedLine(k, s + FOLD) && Entries(k, s + FOLD) == Entries(k, s) && !Continued(s) && Continued(s + FOLD)
  {
    hide Entries;
    EntriesSlash(k, s);
    assert (s + FOLD)[..|s|] == s && (s + FOLD)[|s|..] == FOLD;
    if s != "" {
      assert s[|s| - 1] in s;
    }
  }

  /** Going over to a further line. */
  function Extend(t: seq<string>, l: string): seq<string>
    requires t != []
  {
    t[..|t| - 1] + [t[|t| - 1] + FOLD] + [l]
  }

  lemma ExtendFolded(k: Kind, t: seq<string>, l: string)
    requires Folded(k, t) && Plain(k, l)
    ensures Folded(k, Extend(t, l)) && All(k, Extend(t, l)) == All(k, t) + Entries(k, l)
  {
    hide Plain, Entries, ContinuedLine;
    var n := |t| - 1;
    var m := t[n] + FOLD;
    ContinuedPlain(k, t[n]);
    LastIs(t[..n] + [m], l);
    LastIs(t[..n], m);
  }

  /** Going on in the last line. */
  function Lengthen(t: seq<string>, x: string): seq<string>
    requires t != []
  {
    t[..|t| - 1] + [t[|t| - 1] + x]
  }

  lemma LengthenFolded(k: Kind, t: seq<string>, e: Entry)
    requires Folded(k, t) && ValidEntry(k, e)
    ensures Folded(k, Lengthen(t, Shown(k, e))) && All(k, Lengthen(t, Shown(k, e))) == All(k, t) + [e]
  {
    hide Plain, Entries, ContinuedLine, ValidEntry;
    var n := |t| - 1;
    EntriesMore(k, t[n], e);
    LastIs(t[..n], t[n] + Shown(k, e));
  }

  /** A new entry goes behind the last line, or on a line of its own. */
  function WithEntry(k: Kind, t: seq<string>, e: Entry, long: bool): (r: seq<string>)
    requires t != []
    ensures r != []
  {
    if long then Extend(t, Shown(k, e)) else Lengthen(t, Shown(k, e))
  }

  lemma WithEntryFolded(k: Kind, t: seq<string>, e: Entry, long: bool)
    requires Folded(k, t) && ValidEntry(k, e)
    ensures Folded(k, WithEntry(k, t, e, long)) && All(k, WithEntry(k, t, e, long)) == All(k, t) + [e]
  {
    hide Folded, Extend, Lengthen, All, Plain, Entries;
    ValidParts(k, e);
    ExtendFolded(k, t, Shown(k, e));
    LengthenFolded(k, t, e);
  }

  lemma ValidParts(k: Kind, e: Entry)
    requires ValidEntry(k, e)
    ensures Plain(k, Shown(k, e)) && Entries(k, Shown(k, e)) == [e]
  {
  }

  // ---------------------------------------------------------------- keeping some entries

  function Filter(es: seq<Entry>, keep: Entry -> bool): seq<Entry>
  {
    if es == [] then [] else if keep(es[0]) then [es[0]] + Filter(es[1..], keep) else Filter(es[1..], keep)
  }

  lemma {:induction false} FilterConcat(a: seq<Entry>, b: seq<Entry>, keep: Entry -> bool)
    ensures Filter(a + b, keep) == Filter(a, keep) + Filter(b, keep)
  {
    if a == [] {
      assert a + b == b;
    } else {
      assert (a + b)[1..] == a[1..] + b;
      FilterConcat(a[1..], b, keep);
    }
  }

  lemma {:induction false} FilterIn(es: seq<Entry>, keep: Entry -> bool, e: Entry)
    ensures e in Filter(es, keep) <==> e in es && keep(e)
  {
    if es != [] {
      FilterIn(es[1..], keep, e);
    }
  }

  function Print(k: Kind, es: seq<Entry>): string
  {
    if es == [] then "" else Print(k, es[..|es| - 1]) + Shown(k, es[|es| - 1])
  }

  lemma {:induction false} PrintPlain(k: Kind, es: seq<Entry>)
    requires forall e :: e in es ==> ValidEntry(k, e)
    ensures Plain(k, Print(k, es)) && Entries(k, Print(k, es)) == es
  {
    hide Plain, Entries, ValidEntry;
    if es == [] {
      EmptyLine(k);
    } else {
      var n := |es| - 1;
      PrintPlain(k, es[..n]);
      EntriesMore(k, Print(k, es[..n]), es[n]);
    }
  }

  /** What is kept of the lines: a line is left out when nothing of it is kept. */
  function Refold(k: Kind, rests: seq<string>, keep: Entry -> bool): seq<string>
  {
    if rests == [] then []
    else
      var n := |rests| - 1;
      var t := Refold(k, rests[..n], keep);
      var es := Filter(Entries(k, rests[n]), keep);
      if es == [] then t else if t == [] then [Print(k, es)] else Extend(t, Print(k, es))
  }

  lemma LineEntriesValid(k: Kind, l: string)
    requires Plain(k, l) || ContinuedLine(k, l)
    ensures forall e :: e in Entries(k, l) ==> ValidEntry(k, e)
  {
    hide Plain, Entries, ValidEntry;
    if !Plain(k, l) {
      var s := l[..|l| - 2];
      assert s + FOLD == l;
      ContinuedPlain(k, s);
      EntriesValid(k, s);
    } else {
      EntriesValid(k, l);
    }
  }

  ghost predicate Lines(k: Kind, rests: seq<string>)
  {
    forall i :: 0 <= i < |rests| ==> Plain(k, rests[i]) || ContinuedLine(k, rests[i])
  }

  lemma OneLine(k: Kind, s: string)
    requires Plain(k, s)
    ensures Folded(k, [s]) && All(k, [s]) == Entries(k, s)
  {
    hide Plain, Entries;
    assert [s][..0] == [];
    assert All(k, []) == [];
  }

  /** Refolding keeps the entries it should, in their order, and leaves no record
      without entries. */
  lemma {:induction false} RefoldFolded(k: Kind, rests: seq<string>, keep: Entry -> bool)
    requires Lines(k, rests)
    ensures var t := Refold(k, rests, keep);
            && All(k, t) == Filter(All(k, rests), keep)
            && (t != [] ==> Folded(k, t))
            && (t == [] <==> All(k, t) == [])
  {
    hide Plain, Entries, ValidEntry, ContinuedLine, Extend, Folded, Print;
    if rests != [] {
      var n := |rests| - 1;
      RefoldFolded(k, rests[..n], keep);
      var t := Refold(k, rests[..n], keep);
      var es := Filter(Entries(k, rests[n]), keep);
      FilterConcat(All(k, rests[..n]), Entries(k, rests[n]), keep);
      if es != [] {
        KeptPrinted(k, rests[n], keep);
        if t == [] {
          OneLine(k, Print(k, es));
        } else {
          ExtendFolded(k, t, Print(k, es));
        }
      }
    }
  }

  lemma KeptPrinted(k: Kind, l: string, keep: Entry -> bool)
    requires Plain(k, l) || ContinuedLine(k, l)
    ensures var es := Filter(Entries(k, l), keep);
            Plain(k, Print(k, es)) && Entries(k, Print(k, es)) == es
  {
    hide Plain, Entries, ValidEntry, ContinuedLine, Print;
    LineEntriesValid(k, l);
    var es := Filter(Entries(k, l), keep);
    forall e | e in es ensures ValidEntry(k, e) {
      FilterIn(Entries(k, l), keep, e);
    }
    PrintPlain(k, es);
  }

  // ---------------------------------------------------------------- reading and writing the lines of a record

  /** The lines as they are read: all but the last continued. */
  ghost predicate Chain(rests: seq<string>)
  {
    rests != [] && forall i :: 0 <= i < |rests| ==> Printable(rests[i]) && (Continued(rests[i]) <==> i < |rests| - 1)
  }

  lemma FoldedChain(k: Kind, rests: seq<string>)
    requires Folded(k, rests)
    ensures Chain(rests)
  {
    hide PairsUp;
    forall i | 0 <= i < |rests| ensures Printable(rests[i]) && (Continued(rests[i]) <==> i < |rests| - 1) {
      var l := rests[i];
      if i < |rests| - 1 {
        assert l == l[..|l| - 2] + FOLD;
        assert l[|l| - 2..][1] == SLASH;
      } else if l != "" {
        assert l[|l| - 1] in l;
      }
    }
  }

  function Chomp(line: string): string
  {
    var s := if line != "" && line[|line| - 1] == LF then line[..|line| - 1] else line;
    if s != "" && s[|s| - 1] == '\r' then s[..|s| - 1] else s
  }

  /** fgets and lpstring_chomp */
  method GetLine(from: string, pos: nat, ghost rests: seq<string>, ghost i: nat, ghost after: string)
      returns (line: string, next: nat)
    requires Chain(rests) && i < |rests| && pos <= |from| && from[pos..] == Flatten(rests[i..]) + after
    ensures line == rests[i] && next <= |from| && from[next..] == Flatten(rests[i + 1..]) + after
  {
    hide Flatten;
    ghost var l := rests[i];
    FlattenHead(rests, i);
    ghost var t := Flatten(rests[i + 1..]) + after;
    assert from[pos..] == l + [LF] + t;
    PrintableNoEnd(l);
    FirstLineOf(l, t);
    line := ReadUpTo(from, pos);
    next := pos + |line|;
    assert from[next..] == from[pos..][|line|..];
    line := Chomp(line);
  }

  lemma FirstLineOf(l: string, t: string)
    requires LF !in l
    ensures NextLine(l + [LF] + t, "") == l + [LF] && (l + [LF] + t)[|l| + 1..] == t
  {
    IndexOfIn(l, LF, t);
    assert (l + [LF] + t)[..|l| + 1] == l + [LF];
  }

  lemma PrintableNoEnd(l: string)
    requires Printable(l)
    ensures LF !in l && Chomp(l + [LF]) == l
  {
    assert (l + [LF])[..|l|] == l;
  }

  /** Move over the lines of a record. */
  method SkipRests(from: string, pos: nat, ghost rests: seq<string>, ghost after: string) returns (next: nat)
    requires Chain(rests) && pos <= |from| && from[pos..] == Flatten(rests) + after
    ensures next <= |from| && from[next..] == after
  {
    hide Flatten;
    ghost var i := 0;
    assert rests[0..] == rests;
    var line;
    line, next := GetLine(from, pos, rests, 0, after);
    while Continued(line)
      invariant i < |rests| && line == rests[i] && next <= |from|
      invariant from[next..] == Flatten(rests[i + 1..]) + after
      decreases |rests| - i
    {
      i := i + 1;
      line, next := GetLine(from, next, rests, i, after);
    }
    FlattenNone(rests, i + 1, after);
  }

  lemma FlattenNone(rests: seq<string>, i: nat, after: string)
    requires i == |rests|
    ensures Flatten(rests[i..]) + after == after
  {
  }

  /** Copy the lines of a record, but for the last newline. */
  method CopyRests(from: string, pos: nat, ghost rests: seq<string>, ghost after: string)
      returns (copy: string, last: string, next: nat)
    requires Chain(rests) && pos <= |from| && from[pos..] == Flatten(rests) + after
    ensures next <= |from| && from[next..] == after
    ensures last == rests[|rests| - 1] && copy + [LF] == Flatten(rests)
  {
    hide Flatten;
    ghost var i := 0;
    assert rests[0..] == rests;
    last, next := GetLine(from, pos, rests, 0, after);
    copy := last;
    FlattenOne(last);
    assert rests[..1] == [last];
    while Continued(last)
      invariant i < |rests| && last == rests[i] && next <= |from|
      invariant from[next..] == Flatten(rests[i + 1..]) + after
      invariant copy + [LF] == Flatten(rests[..i + 1])
      decreases |rests| - i
    {
      i := i + 1;
      last, next := GetLine(from, next, rests, i, after);
      copy := copy + [LF] + last;
      FlattenSnoc(rests, i);
    }
    FlattenNone(rests, i + 1, after);
    assert rests[..i + 1] == rests;
  }

  lemma FlattenSnoc(rests: seq<string>, i: nat)
    requires i < |rests|
    ensures Flatten(rests[..i + 1]) == Flatten(rests[..i]) + rests[i] + [LF]
  {
    hide Flatten;
    FlattenAppend(rests[..i], [rests[i]]);
    FlattenOne(rests[i]);
    assert rests[..i + 1] == rests[..i] + [rests[i]];
  }

  // ---------------------------------------------------------------- selecting

  /** What stays when a file is deleted from a user, or a user from a file. */
  function Keeps(k: Kind, arg: string): Entry -> bool
  {
    if k == Sft then (e: Entry) => !StartsWith(e.key, arg) else (e: Entry) => e.key != arg
  }

  method SelectWords(line: string, file: string) returns (es: seq<Entry>)
    ensures es == Filter(Words(line), Keeps(Sft, file))
  {
    hide FirstWord, Words, Filter, StartsWith;
    es := [];
    var s, done := line, false;
    while !done
      invariant Filter(Words(line), Keeps(Sft, file)) == es + if done then [] else Filter(Words(s), Keeps(Sft, file))
      decreases |s|, !done
    {
      FilterWords(s, Keeps(Sft, file));
      match FirstWord(s)
      case None =>
        done := true;
      case Some((e, rest)) =>
        if !StartsWith(e.key, file) {
          es := es + [e];
        }
        s := rest;
    }
  }

  method SelectPairs(line: string, address: string) returns (es: seq<Entry>)
    ensures es == Filter(Pairs(line), Keeps(Fst, address))
  {
    hide FirstPair, Pairs, Filter, StartsWith;
    es := [];
    var s, done := line, false;
    while !done
      invariant Filter(Pairs(line), Keeps(Fst, address)) ==
                es + if done then [] else Filter(Pairs(s), Keeps(Fst, address))
      decreases |s|, !done
    {
      FilterPairs(s, Keeps(Fst, address));
      match FirstPair(s)
      case None =>
        done := true;
      case Some((e, rest)) =>
        if e.key != address {
          es := es + [e];
        }
        s := rest;
    }
  }

  lemma FilterWords(s: string, keep: Entry -> bool)
    ensures Filter(Words(s), keep) ==
            match FirstWord(s)
            case None => []
            case Some((e, rest)) => (if keep(e) then [e] else []) + Filter(Words(rest), keep)
  {
    hide FirstWord;
  }

  lemma FilterPairs(s: string, keep: Entry -> bool)
    ensures Filter(Pairs(s), keep) ==
            match FirstPair(s)
            case None => []
            case Some((e, rest)) => (if keep(e) then [e] else []) + Filter(Pairs(rest), keep)
  {
    hide FirstPair;
  }

  /** The lines of a record in the text of a table. */
  function RecText(head: string, rests: seq<string>): string
  {
    if rests == [] then "" else head + Flatten(rests)
  }

  /** Copy the entries that stay, on the lines they stand on. */
  method RefoldRests(k: Kind, from: string, pos: nat, head: string, arg: string, ghost rests: seq<string>,
                     ghost after: string)
      returns (out: string, next: nat)
    requires Chain(rests) && pos <= |from| && from[pos..] == Flatten(rests) + after
    ensures next <= |from| && from[next..] == after
    ensures out == RecText(head, Refold(k, rests, Keeps(k, arg)))
  {
    hide Flatten, Words, Pairs, Print, Filter;
    ghost var keep := Keeps(k, arg);
    ghost var i := 0;
    assert rests[0..] == rests && rests[..0] == [];
    out, next := "", pos;
    var kept, appendSlash, more := false, false, true;
    while more
      invariant i <= |rests| && next <= |from| && (more <==> i < |rests|)
      invariant from[next..] == Flatten(rests[i..]) + after
      invariant var t := Refold(k, rests[..i], keep);
                (kept <==> t != []) && (if kept then out + [LF] == head + Flatten(t) else out == "")
      invariant kept && more ==> appendSlash
      decreases |rests| - i
    {
      var line;
      line, next := GetLine(from, next, rests, i, after);
      var es;
      if k == Sft {
        es := SelectWords(line, arg);
      } else {
        es := SelectPairs(line, arg);
      }
      RefoldNext(k, rests, i, keep);
      if es != [] {
        PrintNext(k, Refold(k, rests[..i], keep), es, head, out, kept);
        if kept {
          out := out + (if appendSlash then FOLD else "") + [LF];
        } else {
          out := head;
          kept := true;
        }
        out := out + Print(k, es);
        appendSlash := Continued(line);
      }
      i := i + 1;
      more := Continued(line);
    }
    FlattenNone(rests, i, after);
    assert rests[..i] == rests;
    if kept {
      out := out + [LF];
    }
  }

  lemma RefoldNext(k: Kind, rests: seq<string>, i: nat, keep: Entry -> bool)
    requires i < |rests|
    ensures Refold(k, rests[..i + 1], keep) ==
            var t, es := Refold(k, rests[..i], keep), Filter(Entries(k, rests[i]), keep);
            if es == [] then t else if t == [] then [Print(k, es)] else Extend(t, Print(k, es))
  {
    assert rests[..i + 1][..i] == rests[..i] && rests[..i + 1][i] == rests[i];
  }

  lemma PrintNext(k: Kind, t: seq<string>, es: seq<Entry>, head: string, out: string, kept: bool)
    requires kept <==> t != []
    requires kept ==> out + [LF] == head + Flatten(t)
    ensures kept ==> out + FOLD + [LF] + Print(k, es) + [LF] == head + Flatten(Extend(t, Print(k, es)))
    ensures !kept ==> head + Print(k, es) + [LF] == head + Flatten([Print(k, es)])
  {
    hide Flatten, Print;
    var p := Print(k, es);
    FlattenOne(p);
    if kept {
      ExtendText(t, p);
      var n := |t| - 1;
      FlattenSnoc(t, n);
      assert t[..n + 1] == t;
      GoOn(out, head, Flatten(t[..n]), t[n], p);
    } else {
      assert head + p + [LF] == head + (p + [LF]);
    }
  }

  lemma GoOn(out: string, head: string, a: string, l: string, p: string)
    requires out + [LF] == head + (a + l + [LF])
    ensures out + FOLD + [LF] + p + [LF] == head + (a + l + FOLD + [LF] + p + [LF])
  {
    assert head + (a + l + [LF]) == (head + a + l) + [LF];
    assert out == (out + [LF])[..|out|];
    assert out == head + a + l;
  }

  lemma ExtendText(t: seq<string>, l: string)
    requires t != []
    ensures Flatten(Extend(t, l)) == Flatten(t[..|t| - 1]) + t[|t| - 1] + FOLD + [LF] + l + [LF]
  {
    hide Flatten;
    var n := |t| - 1;
    FlattenAppend(t[..n], [t[n] + FOLD] + [l]);
    FlattenAppend([t[n] + FOLD], [l]);
    FlattenOne(t[n] + FOLD);
    FlattenOne(l);
    assert Extend(t, l) == t[..n] + ([t[n] + FOLD] + [l]);
    Regroup(Flatten(t[..n]), t[n] + FOLD, l);
    Assoc(Flatten(t[..n]), t[n], FOLD);
  }

  lemma Regroup(a: string, b: string, l: string)
    ensures a + ((b + [LF]) + (l + [LF])) == (a + b) + [LF] + l + [LF]
  {
  }
}
