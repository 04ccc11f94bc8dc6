/** The subscribers table (SFT) and the files table (FST) of an archive: reading
    their records, and the updates (commands/afd_fui.c). */
module AfdTables {
  import opened Text
  import opened TextFiles
  import opened AddressText
  import opened Streams
  import opened TableLines
  import opened FoldedTables

  /** A record: the user, or the file and its time; then the rest of each of its
      lines.  Records that start with # are comments. */
  datatype Rec = Rec(head: string, rests: seq<string>)

  predicate Comment(r: Rec) { r.head != "" && r.head[0] == '#' }

  /** A user is read up to the blank behind it; a file and its time are two words. */
  predicate HeadOk(k: Kind, h: string) { if k == Sft then UserOk(h) else FileOk(h) }

  predicate UserOk(h: string)
  {
    h != "" && ReadTo(h + [BLANK], 0, NO_NESTING).length == |h| + 1 && ReadTo(h + [BLANK], 0, NO_NESTING).stopped
  }

  predicate FileOk(h: string)
  {
    var i := IndexOf(h, BLANK);
    i < |h| && PlainWord(h[..i]) && PlainWord(h[i + 1..]) && (h[0] != '#' ==> Locase(h[..i]) == h[..i])
  }

  function Name(k: Kind, h: string): string
  {
    if k == Sft then h else h[..IndexOf(h, BLANK)]
  }

  ghost predicate WfRec(k: Kind, r: Rec)
  {
    && HeadOk(k, r.head)
    && Chain(r.rests)
    && ((k == Fst && r.rests[0] == "") || (r.rests[0] != "" && r.rests[0][0] == BLANK))
    && (!Comment(r) ==> Folded(k, r.rests))
  }

  ghost predicate Wf(k: Kind, rs: seq<Rec>) { forall i :: 0 <= i < |rs| ==> WfRec(k, rs[i]) }

  function TableText(rs: seq<Rec>): string
  {
    if rs == [] then "" else RecText(rs[0].head, rs[0].rests) + TableText(rs[1..])
  }

  // ---------------------------------------------------------------- the updates

  datatype Action = Add(e: Entry, base: nat) | Delete(arg: string) | Drop

  /** The lines as they are read behind what stands in front: in an SFT without
      the blank behind the user. */
  function Body(k: Kind, rests: seq<string>): (b: seq<string>)
    requires rests != [] && (k == Sft ==> rests[0] != "")
    ensures b != []
  {
    if k == Sft then [rests[0][1..]] + rests[1..] else rests
  }

  function Front(k: Kind, h: string): string { if k == Sft then h + [BLANK] else h }

  function Last(ls: seq<string>): string requires ls != [] { ls[|ls| - 1] }

  function ChangedRec(k: Kind, r: Rec, a: Action): seq<Rec>
    requires r.rests != [] && (k == Sft ==> r.rests[0] != "")
  {
    match a
    case Add(e, base) => [Rec(r.head, WithEntry(k, r.rests, e, base + |Last(Body(k, r.rests))| > 80))]
    case Delete(arg) =>
      var t := Refold(k, Body(k, r.rests), Keeps(k, arg));
      if t == [] then [] else [Rec(r.head, t)]
    case Drop => []
  }

  predicate Legible(k: Kind, rs: seq<Rec>)
  {
    forall i :: 0 <= i < |rs| ==> rs[i].rests != [] && (k == Sft ==> rs[i].rests[0] != "")
  }

  function Updated(k: Kind, rs: seq<Rec>, hit: string -> bool, a: Action): seq<Rec>
    requires Legible(k, rs)
  {
    if rs == [] then []
    else
      var n := |rs| - 1;
      var r := rs[n];
      Updated(k, rs[..n], hit, a) +
      if Comment(r) then [] else if hit(Name(k, r.head)) then ChangedRec(k, r, a) else [r]
  }

  predicate Hits(k: Kind, rs: seq<Rec>, hit: string -> bool)
  {
    exists i :: 0 <= i < |rs| && !Comment(rs[i]) && hit(Name(k, rs[i].head))
  }

  function NewTable(k: Kind, rs: seq<Rec>, hit: string -> bool, a: Action, head: string): seq<Rec>
    requires Legible(k, rs)
  {
    Updated(k, rs, hit, a) + if a.Add? && !Hits(k, rs, hit) then [Rec(head, [Shown(k, a.e)])] else []
  }

  function UserIs(address: string): string -> bool { (n: string) => Upcase(n) == Upcase(address) }

  function FileIs(file: string, all: bool): string -> bool { (n: string) => n == file || all }

  // ---------------------------------------------------------------- texts

  lemma {:induction false} TableAppend(a: seq<Rec>, b: seq<Rec>)
    ensures TableText(a + b) == TableText(a) + TableText(b)
  {
    hide RecText;
    if a == [] {
      assert a + b == b;
    } else {
      assert (a + b)[1..] == a[1..] + b;
      TableAppend(a[1..], b);
      Assoc(RecText(a[0].head, a[0].rests), TableText(a[1..]), TableText(b));
    }
  }

  lemma TableOne(r: Rec)
    ensures TableText([r]) == RecText(r.head, r.rests)
  {
    assert [r][1..] == [];
  }

  lemma TableHead(rs: seq<Rec>, i: nat)
    requires i < |rs|
    ensures TableText(rs[i..]) == RecText(rs[i].head, rs[i].rests) + TableText(rs[i + 1..])
  {
    assert rs[i..][1..] == rs[i + 1..];
  }

  lemma BodyText(k: Kind, r: Rec)
    requires WfRec(k, r)
    ensures RecText(r.head, r.rests) == Front(k, r.head) + Flatten(Body(k, r.rests))
    ensures Chain(Body(k, r.rests))
  {
    hide HeadOk, Folded;
    if k == Sft {
      var l := r.rests[0];
      var b := Body(k, r.rests);
      assert l == [BLANK] + l[1..];
      assert b[1..] == r.rests[1..];
      assert Flatten(r.rests) == l + [LF] + Flatten(r.rests[1..]);
      BlankOver(r.head, l, Flatten(r.rests[1..]));
      assert forall i :: 1 <= i < |b| ==> b[i] == r.rests[i];
    }
  }

  lemma BlankOver(h: string, l: string, t: string)
    requires l != "" && l[0] == BLANK
    ensures h + (l + [LF] + t) == h + [BLANK] + (l[1..] + [LF] + t)
  {
  }

  // ---------------------------------------------------------------- reading what stands in front

  datatype TwoWords = TwoWords(first: string, second: string, length: nat)

  /** fscanf with "%s %s" */
  function WordsAt(r: string): (w: TwoWords)
    ensures w.length <= |r|
  {
    var t := SkipSpaces(r);
    var a := t[..WordLength(t)];
    var u := SkipSpaces(t[|a|..]);
    var b := u[..WordLength(u)];
    TwoWords(a, b, |r| - |u| + |b|)
  }

  lemma WordsAtHead(h: string, rest: string)
    requires HeadOk(Fst, h) && rest != "" && IsSpace(rest[0])
    ensures var i := IndexOf(h, BLANK);
            (i < |h|) && WordsAt(h + rest) == TwoWords(h[..i], h[i + 1..], |h|)
  {
    hide SkipSpaces, WordLength, IndexOf, ReadTo, WordsAt, Locase;
    var i := IndexOf(h, BLANK);
    var a, b := h[..i], h[i + 1..];
    assert h + rest == a + [BLANK] + b + rest;
    TwoWordsRead(a, b, rest);
  }

  lemma TwoWordsRead(a: string, b: string, rest: string)
    requires PlainWord(a) && PlainWord(b) && rest != "" && IsSpace(rest[0])
    ensures WordsAt(a + [BLANK] + b + rest) == TwoWords(a, b, |a| + 1 + |b|)
  {
    hide SkipSpaces, WordLength;
    var u := b + rest;
    var r := a + ([BLANK] + u);
    assert r == a + [BLANK] + b + rest;
    SkipBlank(r);
    WordLengthIs(a, [BLANK] + u);
    assert r[|a|..] == [BLANK] + u && r[..|a|] == a;
    SkipBlank(u);
    WordLengthIs(b, rest);
    assert u[..|b|] == b;
  }

  lemma NoWords()
    ensures WordsAt("") == TwoWords("", "", 0)
  {
    assert SkipSpaces("") == "" && WordLength("") == 0;
  }

  /** What the loop over a table reads first of record i; no name at the end. */
  ghost predicate HeadRead(k: Kind, from: string, rs: seq<Rec>, i: nat, name: string, head: string, next: nat)
    requires Wf(k, rs) && i <= |rs|
  {
    if i == |rs| then name == ""
    else
      && name != "" && name == Name(k, rs[i].head) && head == rs[i].head
      && (Comment(rs[i]) <==> name[0] == '#')
      && next <= |from| && from[next..] == Flatten(Body(k, rs[i].rests)) + TableText(rs[i + 1..])
  }

  /** extract_subscriber at the start of a record */
  method ReadUserHead(from: string, pos: nat, ghost rs: seq<Rec>, ghost i: nat) returns (user: string, next: nat)
    requires Wf(Sft, rs) && i <= |rs| && pos <= |from| && from[pos..] == TableText(rs[i..])
    ensures HeadRead(Sft, from, rs, i, user, user, next)
  {
    hide Flatten, HeadOk, TableText, RecText, Body;
    RemainingText(Sft, rs, i);
    var s := ExtractSubscriber(from, pos);
    user, next := s.name, pos + s.length;
    if i < |rs| {
      ghost var h := rs[i].head;
      ghost var after := Flatten(Body(Sft, rs[i].rests)) + TableText(rs[i + 1..]);
      HeadIsRead(h, after);
      RestOf(from, pos, Front(Sft, h), after);
    } else {
      NoSubscriber();
    }
  }

  /** fscanf at the start of a record; the name is printed in lower case. */
  method ReadFileHead(from: string, pos: nat, ghost rs: seq<Rec>, ghost i: nat)
      returns (file: string, head: string, next: nat)
    requires Wf(Fst, rs) && i <= |rs| && pos <= |from| && from[pos..] == TableText(rs[i..])
    ensures HeadRead(Fst, from, rs, i, file, head, next)
  {
    hide Flatten, HeadOk, TableText, RecText, Body, WordsAt, Locase, IndexOf;
    RemainingText(Fst, rs, i);
    var w := WordsAt(from[pos..]);
    file, next := w.first, pos + w.length;
    head := (if file != "" && file[0] == '#' then file else Locase(file)) + [BLANK] + w.second;
    if i < |rs| {
      ghost var h := rs[i].head;
      ghost var after := Flatten(Body(Fst, rs[i].rests)) + TableText(rs[i + 1..]);
      BodyStart(rs[i], TableText(rs[i + 1..]));
      WordsAtHead(h, after);
      RestOf(from, pos, h, after);
      HeadParts(h);
      NameStart(h);
    } else {
      NoWords();
    }
  }

  lemma NameStart(h: string)
    requires 0 < IndexOf(h, BLANK) < |h|
    ensures Name(Fst, h) != "" && Name(Fst, h)[0] == h[0]
  {
    hide IndexOf;
  }

  lemma NoSubscriber()
    ensures SubscriberAt("") == Subscriber(true, "", 0)
  {
  }

  lemma RemainingText(k: Kind, rs: seq<Rec>, i: nat)
    requires Wf(k, rs) && i <= |rs|
    ensures i == |rs| ==> TableText(rs[i..]) == ""
    ensures i < |rs| ==>
              && HeadOk(k, rs[i].head)
              && rs[i].rests != [] && (k == Sft ==> rs[i].rests[0] != "")
              && TableText(rs[i..]) == Front(k, rs[i].head) + (Flatten(Body(k, rs[i].rests)) + TableText(rs[i + 1..]))
  {
    hide HeadOk, Flatten, RecText, Body;
    if i < |rs| {
      TableHead(rs, i);
      BodyText(k, rs[i]);
      Assoc(Front(k, rs[i].head), Flatten(Body(k, rs[i].rests)), TableText(rs[i + 1..]));
    }
  }

  lemma HeadIsRead(h: string, after: string)
    requires HeadOk(Sft, h)
    ensures h != "" && SubscriberAt(Front(Sft, h) + after).name == h &&
            SubscriberAt(Front(Sft, h) + after).length == |h| + 1
  {
    var r := h + [BLANK];
    ReadMore(r, after, 0, NO_NESTING);
    assert (r + after)[..|h|] == h;
  }

  lemma RestOf(from: string, pos: nat, h: string, after: string)
    requires pos <= |from| && from[pos..] == h + after
    ensures pos + |h| <= |from| && from[pos + |h|..] == after
  {
    assert from[pos + |h|..] == from[pos..][|h|..];
  }

  lemma BodyStart(r: Rec, t: string)
    requires WfRec(Fst, r)
    ensures var after := Flatten(Body(Fst, r.rests)) + t; after != "" && IsSpace(after[0])
  {
    hide HeadOk;
    var after := Flatten(r.rests) + t;
    assert Flatten(r.rests) == r.rests[0] + [LF] + Flatten(r.rests[1..]);
    if r.rests[0] == "" {
      assert after[0] == LF;
    } else {
      assert after[0] == r.rests[0][0];
    }
  }

  lemma HeadParts(h: string)
    requires HeadOk(Fst, h)
    ensures var i := IndexOf(h, BLANK);
            && (0 < i < |h|) && h == h[..i] + [BLANK] + h[i + 1..]
            && (h[0] != '#' ==> Locase(h[..i]) == h[..i])
  {
    hide IndexOf, Locase, PlainWord;
    var i := IndexOf(h, BLANK);
    SplitAt(h, i);
    NotPlain();
    assert h[..0] == "";
  }

  lemma NotPlain()
    ensures !PlainWord("")
  {
  }

  lemma SplitAt(h: string, i: nat)
    requires i < |h|
    ensures h == h[..i] + [h[i]] + h[i + 1..]
  {
  }

  // ---------------------------------------------------------------- rewriting one record

  lemma AddedText(k: Kind, head: string, t: seq<string>, out: string, e: Entry, long: bool)
    requires t != [] && out + [LF] == head + Flatten(t)
    ensures out + (if long then FOLD + [LF] else "") + Shown(k, e) + [LF] == head + Flatten(WithEntry(k, t, e, long))
  {
    hide Flatten, Shown;
    var n, x := |t| - 1, Shown(k, e);
    FlattenSnoc(t, n);
    assert t[..n + 1] == t;
    if long {
      ExtendText(t, x);
      GoOn(out, head, Flatten(t[..n]), t[n], x);
      assert out + (FOLD + [LF]) + x + [LF] == out + FOLD + [LF] + x + [LF];
    } else {
      FlattenAppend(t[..n], [t[n] + x]);
      FlattenOne(t[n] + x);
      GoOnHere(out, head, Flatten(t[..n]), t[n], x);
    }
  }

  lemma GoOnHere(out: string, head: string, a: string, l: string, x: string)
    requires out + [LF] == head + (a + l + [LF])
    ensures out + "" + x + [LF] == head + (a + (l + x + [LF]))
  {
    assert head + (a + l + [LF]) == (head + a + l) + [LF];
    assert out == (out + [LF])[..|out|];
    assert out == head + a + l;
  }

  function OneRec(k: Kind, r: Rec, hit: bool, a: Action): seq<Rec>
    requires r.rests != [] && (k == Sft ==> r.rests[0] != "")
  {
    if Comment(r) then [] else if hit then ChangedRec(k, r, a) else [r]
  }

  /** The rest of the loop body over a table: copy, change or leave out record i. */
  method RewriteRec(k: Kind, from: string, pos: nat, name: string, head: string, hit: bool, a: Action,
                    ghost rs: seq<Rec>, ghost i: nat) returns (out: string, next: nat)
    requires Wf(k, rs) && i < |rs| && HeadRead(k, from, rs, i, name, head, pos)
    ensures out == TableText(OneRec(k, rs[i], hit, a))
    ensures next <= |from| && from[next..] == TableText(rs[i + 1..])
  {
    hide Flatten, HeadOk, Folded, Body, Chain, Refold, Shown, WithEntry;
    ghost var r := rs[i];
    ghost var after := TableText(rs[i + 1..]);
    BodyText(k, r);
    assert r.rests != [] && (k == Sft ==> r.rests[0] != "") by {
      RemainingText(k, rs, i);
    }
    ghost var b := Body(k, r.rests);
    if name[0] == '#' {
      next := SkipRests(from, pos, b, after);
      return "", next;
    }
    if hit && a.Delete? {
      out, next := RefoldRests(k, from, pos, head, a.arg, b, after);
      DeletedText(k, r, a.arg);
    } else if hit && a.Drop? {
      next := SkipRests(from, pos, b, after);
      out := "";
    } else {
      var copy, last;
      copy, last, next := CopyRests(from, pos, b, after);
      out := Front(k, head) + copy;
      assert Front(k, head) + (copy + [LF]) == out + [LF];
      TableOne(r);
      if hit {
        var long := a.base + |last| > 80;
        AddedText(k, head, r.rests, out, a.e, long);
        TableOne(Rec(head, WithEntry(k, r.rests, a.e, long)));
        RecTextIs(head, WithEntry(k, r.rests, a.e, long));
        out := out + (if long then FOLD + [LF] else "") + Shown(k, a.e);
      }
      out := out + [LF];
    }
  }

  lemma RecTextIs(head: string, t: seq<string>)
    ensures t != [] ==> RecText(head, t) == head + Flatten(t)
  {
  }

  lemma DeletedText(k: Kind, r: Rec, arg: string)
    requires r.rests != [] && (k == Sft ==> r.rests[0] != "")
    ensures TableText(ChangedRec(k, r, Delete(arg))) == RecText(r.head, Refold(k, Body(k, r.rests), Keeps(k, arg)))
  {
    hide Refold, Body;
    var t := Refold(k, Body(k, r.rests), Keeps(k, arg));
    if t != [] {
      TableOne(Rec(r.head, t));
    }
  }
}
